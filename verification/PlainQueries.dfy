/**
 * Queries that are not regexes: what they match, the plan that the command line makes of them, and for
 * which of them the planned search is the full scan.
 */
module PlainQueries {
  import opened Wrappers
  import opened Bytes
  import opened Files
  import opened SearchSpec
  import opened FrameSearch
  import opened PackageSearch
  import opened FrameWriter
  import opened PathTable
  import opened BasenameIndex
  import opened LiteralSearch
  import opened FastEqualsScan
  import opened PathTableLookup
  import opened ResultOrder
  import opened SearchPlan
  import NgramCache
  import D = Database
  import R = RegexLiteral

  /** A pattern as typed, and whether it must start at the root and end with the path. */
  datatype Asked = Asked(pattern: Bytes, atRoot: bool, wholeName: bool)

  // ---------- the paths of a database ----------

  /** A path that a database can hold: no byte is reserved, and it is absolute. The root has the empty path. */
  predicate Proper(path: Bytes) {
    Clean(path) && Absolute(path)
  }

  predicate Absolute(path: Bytes) {
    path != [] ==> path[0] == SLASH
  }

  /** Every entry that is listed for a tree and can be encoded has a proper path. */
  lemma ListedProper(tree: FileTree)
    ensures forall e | e in Listing([], tree) && IsEncodable(e) :: Proper(e.path)
  {
    ListedAbsolute([], tree);
  }

  lemma {:induction false} ListedAbsolute(path: Bytes, tree: FileTree)
    requires Absolute(path)
    ensures forall e | e in Listing(path, tree) :: Absolute(e.path)
    decreases tree, 1, 0
  {
    hide Absolute;
    if tree.DirectoryTree? {
      ChildrenAbsolute(path, tree, |tree.contents|);
    }
  }

  lemma {:induction false} ChildrenAbsolute(path: Bytes, tree: FileTree, n: nat)
    requires Absolute(path) && tree.DirectoryTree? && n <= |tree.contents|
    ensures forall e | e in ListingOf(path, tree, n) :: Absolute(e.path)
    decreases tree, 0, n
  {
    hide Absolute;
    if n > 0 {
      var child := tree.contents[n - 1];
      ChildrenAbsolute(path, tree, n - 1);
      ChildAbsolute(path, child.0);
      ListedAbsolute(ChildPath(path, child.0), child.1);
    }
  }

  lemma ChildAbsolute(path: Bytes, name: Bytes)
    requires Absolute(path)
    ensures Absolute(ChildPath(path, name))
  {
  }

  /** A tree with nothing but the directories on the way to this path, and a file there; a name may be empty. */
  function TreeTo(path: Bytes): FileTree
    requires Absolute(path)
    decreases |path|
  {
    if path == [] then RegularTree(0, false)
    else
      var n := IndexOf(path[1..], SLASH);
      DirectoryTree(0, [(path[1..][..n], TreeTo(path[1..][n..]))])
  }

  lemma {:induction false} TreeLists(before: Bytes, path: Bytes)
    requires Absolute(path)
    ensures FileTreeEntry(before + path, Regular(0, false)) in Listing(before, TreeTo(path))
    decreases |path|
  {
    hide Listing, ListingOf, IndexOf, TreeTo;
    if path == [] {
      assert before + path == before;
      FileLists(before);
    } else {
      var rest := path[1..];
      var n := FirstName(path);
      var child := ChildPath(before, rest[..n]);
      TreeLists(child, rest[n..]);
      assert child + rest[n..] == before + path;
      OnlyChildLists(before, rest[..n], TreeTo(rest[n..]));
    }
  }

  lemma FileLists(path: Bytes)
    ensures TreeTo([]) == RegularTree(0, false) && FileTreeEntry(path, Regular(0, false)) in Listing(path, TreeTo([]))
  {
  }

  lemma FirstName(path: Bytes) returns (n: nat)
    requires Absolute(path) && path != []
    ensures n < |path| && SLASH !in path[1..][..n] && Absolute(path[1..][n..])
    ensures TreeTo(path) == DirectoryTree(0, [(path[1..][..n], TreeTo(path[1..][n..]))])
  {
    n := IndexOf(path[1..], SLASH);
  }

  lemma OnlyChildLists(path: Bytes, name: Bytes, tree: FileTree)
    ensures forall e | e in Listing(ChildPath(path, name), tree) :: e in Listing(path, DirectoryTree(0, [(name, tree)]))
  {
    var parent := DirectoryTree(0, [(name, tree)]);
    assert ListingOf(path, parent, 1) == ListingOf(path, parent, 0) + Listing(ChildPath(path, name), tree);
  }

  /** No name in the tree has a slash in it. */
  ghost predicate Named(tree: FileTree) {
    tree.DirectoryTree? ==> forall child | child in tree.contents :: SLASH !in child.0 && Named(child.1)
  }

  lemma {:induction false} TreeNamed(path: Bytes)
    requires Absolute(path)
    ensures Named(TreeTo(path))
    decreases |path|
  {
    hide TreeTo, IndexOf;
    if path == [] {
      FileLists(path);
    } else {
      var n := FirstName(path);
      TreeNamed(path[1..][n..]);
    }
  }

  /** The proper paths are exactly those that are listed and encodable for some tree, and names without slashes are enough. */
  lemma ProperExactly(path: Bytes)
    ensures Proper(path) <==> exists tree, e :: e in Listing([], tree) && IsEncodable(e) && e.path == path
    ensures Proper(path) <==> exists tree, e :: Named(tree) && e in Listing([], tree) && IsEncodable(e) && e.path == path
  {
    hide Named, IsEncodable;
    if Proper(path) {
      TreeLists([], path);
      TreeNamed(path);
      assert [] + path == path;
      FileEncodable(path);
      assert Named(TreeTo(path)) && FileTreeEntry(path, Regular(0, false)) in Listing([], TreeTo(path));
    }
    if tree, e :| e in Listing([], tree) && IsEncodable(e) && e.path == path {
      ListedProper(tree);
    }
  }

  lemma FileEncodable(path: Bytes)
    requires Clean(path)
    ensures IsEncodable(FileTreeEntry(path, Regular(0, false)))
  {
  }

  // ---------- queries ----------

  /** The escaped pattern between its anchors, as a predicate on paths. */
  predicate PathMatches(a: Asked, path: Bytes) {
    if a.atRoot && a.wholeName then path == a.pattern
    else if a.atRoot then StartsWith(path, a.pattern)
    else if a.wholeName then EndsWith(path, a.pattern)
    else Contains(path, a.pattern)
  }

  // ---------- its regex ----------

  const AT_START := R.Assertion((s: Bytes, i: nat, j: nat) => i == 0)
  const AT_END := R.Assertion((s: Bytes, i: nat, j: nat) => j == |s|)

  /** The pattern letter by letter; an escaped letter is a literal like any other. */
  function Letters(text: Bytes, tail: R.Items): R.Items {
    if text == [] then tail else R.Cons(R.Literal([text[0]], R.Verbatim), Letters(text[1..], tail))
  }

  function Anchored(a: Asked): R.Items {
    var body := Letters(a.pattern, if a.wholeName then R.Cons(AT_END, R.Nil) else R.Nil);
    if a.atRoot then R.Cons(AT_START, body) else body
  }

  function AstOf(a: Asked): R.Ast {
    R.Concat(Anchored(a))
  }

  lemma {:induction false} LettersPrefix(text: Bytes, tail: R.Items)
    ensures R.PrefixOf(Letters(text, tail)) == text + R.PrefixOf(tail)
  {
    if text != [] {
      LettersPrefix(text[1..], tail);
      assert text == [text[0]] + text[1..];
      Assoc([text[0]], text[1..], R.PrefixOf(tail));
    }
  }

  lemma {:induction false} LettersSuffix(text: Bytes, tail: R.Items)
    requires R.SuffixOf(tail).whole
    ensures R.SuffixOf(Letters(text, tail)) == R.Tail(text + R.SuffixOf(tail).text, true)
  {
    if text != [] {
      LettersSuffix(text[1..], tail);
      assert text == [text[0]] + text[1..];
      Assoc([text[0]], text[1..], R.SuffixOf(tail).text);
    }
  }

  lemma {:induction false} LettersMatch(text: Bytes, tail: R.Items, s: Bytes, i: nat, j: nat)
    requires j <= |s|
    ensures R.MatchesAll(Letters(text, tail), s, i, j) <==>
            i + |text| <= j && s[i..i + |text|] == text && R.MatchesAll(tail, s, i + |text|, j)
  {
    if text != [] {
      var one, rest := R.Literal([text[0]], R.Verbatim), Letters(text[1..], tail);
      assert Letters(text, tail) == R.Cons(one, rest);
      if i < j {
        LettersMatch(text[1..], tail, s, i + 1, j);
        assert s[i..i + 1] == [s[i]];
      }
      if R.MatchesAll(Letters(text, tail), s, i, j) {
        assert R.MatchesAll(R.Cons(one, rest), s, i, j);
        var k: nat :| i <= k <= j && R.Matches(one, s, i, k) && R.MatchesAll(rest, s, k, j);
        assert |s[i..k]| == 1;
        assert s[i..i + |text|] == s[i..i + 1] + s[i + 1..i + |text|];
      }
      if i + |text| <= j && s[i..i + |text|] == text && R.MatchesAll(tail, s, i + |text|, j) {
        assert s[i] == s[i..i + |text|][0];
        assert s[i + 1..i + |text|] == s[i..i + |text|][1..];
        assert R.Matches(one, s, i, i + 1);
      }
    }
  }

  /** Both extractions give the whole pattern. */
  lemma AstLiterals(a: Asked)
    ensures R.Prefix(AstOf(a)) == Some(a.pattern) && R.Suffix(AstOf(a)) == Some(a.pattern)
  {
    var tail := if a.wholeName then R.Cons(AT_END, R.Nil) else R.Nil;
    var body := Letters(a.pattern, tail);
    AnchorAdds(R.Nil);
    AnchorAdds(body);
    LettersPrefix(a.pattern, tail);
    LettersSuffix(a.pattern, tail);
    hide Letters, R.PrefixOf, R.SuffixOf;
    assert a.pattern + [] == a.pattern;
  }

  /** An anchor adds nothing to the literals. */
  lemma AnchorAdds(items: R.Items)
    ensures R.PrefixOf(R.Nil) == [] && R.SuffixOf(R.Nil) == R.Tail([], true)
    ensures R.PrefixOf(R.Cons(AT_START, items)) == R.PrefixOf(R.Cons(AT_END, items)) == R.PrefixOf(items)
    ensures R.SuffixOf(items).whole ==> R.SuffixOf(R.Cons(AT_START, items)) == R.SuffixOf(R.Cons(AT_END, items)) == R.SuffixOf(items)
  {
    assert [] + R.PrefixOf(items) == R.PrefixOf(items);
    assert [] + R.SuffixOf(items).text == R.SuffixOf(items).text;
  }

  lemma EndMatches(s: Bytes, i: nat, j: nat)
    requires j <= |s|
    ensures R.MatchesAll(R.Nil, s, i, j) <==> i == j
    ensures R.MatchesAll(R.Cons(AT_END, R.Nil), s, i, j) <==> i == j == |s|
  {
    if i == j == |s| {
      assert R.Matches(AT_END, s, i, i) && R.MatchesAll(R.Nil, s, i, j);
    }
  }

  lemma StartMatches(body: R.Items, s: Bytes, i: nat, j: nat)
    requires j <= |s|
    ensures R.MatchesAll(R.Cons(AT_START, body), s, i, j) <==> i == 0 && R.MatchesAll(body, s, i, j)
  {
    if i == 0 && R.MatchesAll(body, s, i, j) {
      assert R.Matches(AT_START, s, i, i);
    }
  }

  /** Where the anchored pattern matches. */
  lemma AnchoredMatches(a: Asked, s: Bytes, i: nat, j: nat)
    requires j <= |s|
    ensures R.Matches(AstOf(a), s, i, j) <==>
            j == i + |a.pattern| && s[i..j] == a.pattern && (a.atRoot ==> i == 0) && (a.wholeName ==> j == |s|)
  {
    var tail := if a.wholeName then R.Cons(AT_END, R.Nil) else R.Nil;
    var body := Letters(a.pattern, tail);
    LettersMatch(a.pattern, tail, s, i, j);
    EndMatches(s, i + |a.pattern|, j);
    StartMatches(body, s, i, j);
    hide Letters, R.MatchesAll;
  }

  /** The pattern stands at this index, and the anchors hold there. */
  predicate PlacedAt(a: Asked, path: Bytes, i: nat) {
    OccursAt(path, a.pattern, i) && (a.atRoot ==> i == 0) && (a.wholeName ==> i + |a.pattern| == |path|)
  }

  lemma PlacedMatches(a: Asked, path: Bytes, i: nat)
    ensures PlacedAt(a, path, i) ==> R.Matches(AstOf(a), path, i, i + |a.pattern|) && PathMatches(a, path)
  {
    hide AstOf, R.Matches;
    if PlacedAt(a, path, i) {
      AnchoredMatches(a, path, i, i + |a.pattern|);
    }
  }

  /** The regex finds exactly the paths that the query matches. */
  lemma AstFinds(a: Asked, path: Bytes)
    ensures R.Found(AstOf(a), path) <==> PathMatches(a, path)
  {
    hide AstOf, R.Matches, PathMatches, PlacedAt;
    if R.Found(AstOf(a), path) {
      var i: nat, j: nat :| R.Matches(AstOf(a), path, i, j);
      MatchIsPlaced(a, path, i, j);
      PlacedMatches(a, path, i);
    }
    if PathMatches(a, path) {
      var i := Place(a, path);
      PlacedMatches(a, path, i);
    }
  }

  lemma MatchIsPlaced(a: Asked, path: Bytes, i: nat, j: nat)
    requires R.Matches(AstOf(a), path, i, j)
    ensures PlacedAt(a, path, i)
  {
    hide AstOf, R.Matches;
    MatchInside(a, path, i, j);
    AnchoredMatches(a, path, i, j);
  }

  lemma MatchInside(a: Asked, s: Bytes, i: nat, j: nat)
    requires R.Matches(AstOf(a), s, i, j)
    ensures i <= j <= |s|
  {
  }

  lemma Place(a: Asked, path: Bytes) returns (i: nat)
    requires PathMatches(a, path)
    ensures PlacedAt(a, path, i)
  {
    if a.atRoot {
      i := 0;
    } else if a.wholeName {
      i := |path| - |a.pattern|;
    } else {
      i :| 0 <= i <= |path| && OccursAt(path, a.pattern, i);
    }
  }

  /** However it is anchored, a query only matches paths that contain its pattern. */
  lemma MatchContains(a: Asked, path: Bytes)
    requires PathMatches(a, path)
    ensures Contains(path, a.pattern)
  {
    var i := Place(a, path);
  }

  // ---------- its plan ----------

  function Normalized(pattern: Bytes): Bytes {
    if StartsWith(pattern, [SLASH]) then pattern else [SLASH] + pattern
  }

  /** Extracted literals shorter than a trigram are dropped. */
  function LongEnough(part: Option<Bytes>): Option<Bytes> {
    if part.Some? && |part.value| >= 3 then part else None
  }

  /** The options that the command line sets, and the literals that the search takes from the regex. */
  function PlanOf(a: Asked): Plan {
    var p := a.pattern;
    var literal := if a.atRoot || a.wholeName || p == [] then None else Some(p);
    Plan(
      if a.wholeName && p != [] && SLASH in p && BasenameOf(p) != [] then Some(BasenameOf(p)) else None,
      if a.atRoot && p != [] && a.wholeName then Some(Normalized(p)) else None,
      if a.atRoot && p != [] && !a.wholeName then Some(Normalized(p)) else None,
      literal,
      if literal.Some? then None else LongEnough(R.Prefix(AstOf(a))),
      if literal.Some? then None else LongEnough(R.Suffix(AstOf(a))))
  }

  lemma PlanParts(a: Asked)
    ensures var plan := PlanOf(a);
            var taken := if plan.literal.None? && |a.pattern| >= 3 then Some(a.pattern) else None;
            plan.regexPrefix == taken && plan.regexSuffix == taken
    ensures PlanOf(a).Valid()
  {
    AstLiterals(a);
    hide AstOf;
  }

  /** Every proper path that the query matches is as its plan says. */
  lemma PlanAdmits(a: Asked, path: Bytes)
    requires PathMatches(a, path) && Proper(path)
    ensures PlanOf(a).Admits(path)
  {
    var p := a.pattern;
    PlanParts(a);
    MatchContains(a, path);
    hide Contains, AstOf;
    if a.wholeName && p != [] && SLASH in p && BasenameOf(p) != [] {
      SameBasename(path, p);
    }
    if a.atRoot && p != [] {
      assert p[0] == path[0] && p[..1] == [SLASH];
    }
  }

  /** A path that ends with a pattern has the basename of the pattern, if that has a slash before it. */
  lemma SameBasename(path: Bytes, p: Bytes)
    requires EndsWith(path, p) && SLASH in p
    ensures BasenameOf(path) == BasenameOf(p)
  {
    hide *;
    var i := BasenameBehind(p);
    EndIs(path, p);
    var n := |path| - |p|;
    TailOfTail(path, n, i);
    NameBehind(path, n + i + 1);
  }

  lemma EndIs(path: Bytes, p: Bytes)
    requires EndsWith(path, p)
    ensures |p| <= |path| && path[|path| - |p|..] == p
  {
  }

  lemma TailOfTail(s: Bytes, n: nat, i: nat)
    requires n + i < |s|
    ensures s[n..][i] == s[n + i] && s[n..][i + 1..] == s[n + i + 1..]
  {
  }

  lemma PlanFits(a: Asked, q: Query, ps: seq<Stored>)
    requires forall path :: q.exactPath(path) <==> PathMatches(a, path)
    requires forall i, path | 0 <= i < |ps| && path in PathsOf(ps)[i] :: Proper(path)
    ensures Fits(PlanOf(a), q, ps)
  {
    hide PathMatches, PlanOf;
    forall i, path | 0 <= i < |ps| && path in PathsOf(ps)[i] && q.exactPath(path) ensures PlanOf(a).Admits(path) {
      PlanAdmits(a, path);
    }
  }

  // ---------- which queries are answered as asked ----------

  /**
   * An exact path must be given with its slash, unless it cannot be a path at all. A name to the end must be
   * a whole name behind one slash, or too short for the trigrams, or be none that occurs: only a pattern
   * with a reserved byte is in no path.
   */
  predicate Reliable(a: Asked) {
    var p := a.pattern;
    p == [] ||
    if a.atRoot then a.wholeName ==> p[0] == SLASH || !Clean(p)
    else a.wholeName ==>
      if SLASH in p && BasenameOf(p) != [] then p == [SLASH] + BasenameOf(p) || !Clean(BasenameOf(p))
      else |p| < 3 || !Clean(p)
  }

  /** Some fast search is tried for the query. */
  predicate TriesFast(a: Asked) {
    PlanOf(a).exactPath.Some? || PlanOf(a).TriesName() || PlanOf(a).TriesTrigrams()
  }

  /** The fast search that is tried first looks for this path. */
  predicate LookedFor(a: Asked, path: Bytes) {
    var plan := PlanOf(a);
    if plan.exactPath.Some? then path == plan.exactPath.value
    else if plan.TriesName() then BasenameOf(path) == plan.exactBasename.value
    else plan.TriesTrigrams() && Contains(path, a.pattern)
  }

  /** The trigram search looks for the pattern anywhere in the path, and checks nothing else. */
  lemma FastIsContains(a: Asked, q: Query, o: Options, path: Bytes)
    requires PlanOf(a).TriesTrigrams()
    ensures PlanOf(a).Fast(q, o).FindsPath(path) <==> Contains(path, a.pattern)
  {
    PlanParts(a);
    hide AstOf, Contains;
  }

  /** Which fast search a query is tried with. */
  lemma FastKinds(a: Asked)
    ensures var plan, p := PlanOf(a), a.pattern;
            && (plan.exactPath.Some? <==> a.atRoot && a.wholeName && p != [])
            && (plan.TriesName() <==> a.wholeName && !a.atRoot && SLASH in p && BasenameOf(p) != [])
            && (plan.TriesName() ==> plan.exactBasename.value == BasenameOf(p))
            && (plan.TriesTrigrams() <==>
                  !a.atRoot && p != [] && (a.wholeName ==> |p| >= 3 && !(SLASH in p && BasenameOf(p) != [])))
  {
    PlanParts(a);
    hide AstOf;
  }

  // ---------- reliable queries ----------

  lemma PartsOccur(path: Bytes, part: Bytes)
    requires Proper(path) && Contains(path, part)
    ensures Clean(part)
  {
    var i :| 0 <= i <= |path| && OccursAt(path, part, i);
    forall k | 0 <= k < |part| ensures part[k] == path[i + k] && part[k] in path {
      assert path[i..i + |part|][k] == path[i + k];
    }
  }

  /** In a proper path a name stands behind a slash. */
  lemma NameAtEnd(path: Bytes, base: Bytes)
    requires Proper(path) && base != []
    ensures BasenameOf(path) == base ==> EndsWith(path, [SLASH] + base) && Clean(base)
    ensures SLASH !in base && EndsWith(path, [SLASH] + base) ==> BasenameOf(path) == base
  {
    hide BasenameOf, Proper;
    if BasenameOf(path) == base {
      ProperName(path);
    }
    if SLASH !in base && EndsWith(path, [SLASH] + base) {
      NameOfEnd(path, base);
    }
  }

  lemma ProperName(path: Bytes)
    requires Proper(path) && BasenameOf(path) != []
    ensures EndsWith(path, [SLASH] + BasenameOf(path)) && Clean(BasenameOf(path))
  {
    hide *;
    ProperParts(path);
    var i := BasenameBehind(path);
    CleanTail(path, i + 1);
    SplitAt(path, i);
  }

  lemma ProperParts(path: Bytes)
    requires Proper(path) && BasenameOf(path) != []
    ensures Clean(path) && SLASH in path
  {
    assert BasenameOf([]) == [];
  }

  lemma CleanTail(path: Bytes, n: nat)
    requires Clean(path) && n <= |path|
    ensures Clean(path[n..])
  {
  }

  lemma SplitAt(path: Bytes, i: nat)
    requires i < |path|
    ensures EndsWith(path, [path[i]] + path[i + 1..])
  {
    assert path[i..] == [path[i]] + path[i + 1..];
  }

  lemma NameOfEnd(path: Bytes, base: Bytes)
    requires SLASH !in base && EndsWith(path, [SLASH] + base)
    ensures BasenameOf(path) == base
  {
    hide BasenameOf;
    var n := |path| - |base| - 1;
    var tail := path[n..];
    assert tail[0] == path[n] && tail[1..] == path[n + 1..];
    NameBehind(path, n + 1);
  }

  lemma NoSlashInName(path: Bytes)
    ensures SLASH !in BasenameOf(path)
  {
  }

  lemma EndsContains(path: Bytes, part: Bytes)
    requires EndsWith(path, part)
    ensures Contains(path, part)
  {
    assert OccursAt(path, part, |path| - |part|);
  }

  /** For a reliable query the fast search looks for exactly the proper paths that match. */
  lemma ReliableLooks(a: Asked, path: Bytes)
    requires Reliable(a) && TriesFast(a) && Proper(path)
    ensures LookedFor(a, path) <==> PathMatches(a, path)
  {
    var p := a.pattern;
    FastKinds(a);
    hide AstOf, Contains, BasenameOf;
    if a.atRoot {
      ExactReliable(p, path);
    } else if a.wholeName {
      if SLASH in p && BasenameOf(p) != [] {
        NameReliable(p, path);
      } else if Contains(path, p) {
        PartsOccur(path, p);
      } else if EndsWith(path, p) {
        EndsContains(path, p);
      }
    }
  }

  lemma ExactReliable(p: Bytes, path: Bytes)
    requires Proper(path) && p != [] && (p[0] == SLASH || !Clean(p))
    ensures path == Normalized(p) <==> path == p
  {
    if p[0] == SLASH {
      assert p[..1] == [SLASH];
    }
  }

  lemma NameReliable(p: Bytes, path: Bytes)
    requires Proper(path) && SLASH in p && BasenameOf(p) != [] && (p == [SLASH] + BasenameOf(p) || !Clean(BasenameOf(p)))
    ensures BasenameOf(path) == BasenameOf(p) <==> EndsWith(path, p)
  {
    hide BasenameOf;
    NameAtEnd(path, BasenameOf(p));
    NoSlashInName(p);
    if EndsWith(path, p) {
      SameBasename(path, p);
    }
  }

  // ---------- all other queries ----------

  /** The fast search looks for the path, and the query does not match it. */
  predicate Tells(a: Asked, path: Bytes) {
    Proper(path) && LookedFor(a, path) && !PathMatches(a, path)
  }

  /** A path that tells an unreliable query from what is looked for. */
  function Witness(a: Asked): Bytes {
    var p := a.pattern;
    if a.atRoot then [SLASH] + p
    else if SLASH in p && BasenameOf(p) != [] then [SLASH] + BasenameOf(p)
    else if SLASH !in p then [SLASH] + p + [SLASH, 120]
    else Normalized(p) + [120]
  }

  lemma WitnessTells(a: Asked)
    requires !Reliable(a)
    ensures TriesFast(a) && Tells(a, Witness(a))
  {
    var p := a.pattern;
    FastKinds(a);
    hide AstOf, Contains, BasenameOf;
    if a.atRoot {
      RelativeTells(p);
    } else if SLASH in p && BasenameOf(p) != [] {
      NameTells(p);
    } else {
      InsideTells(a);
    }
  }

  lemma RelativeTells(p: Bytes)
    requires p != [] && p[0] != SLASH && Clean(p)
    ensures Proper([SLASH] + p) && Normalized(p) == [SLASH] + p != p
  {
    assert |[SLASH] + p| == |p| + 1;
    assert p[..1][0] == p[0];
  }

  lemma NameTells(p: Bytes)
    requires SLASH in p && BasenameOf(p) != [] && p != [SLASH] + BasenameOf(p) && Clean(BasenameOf(p))
    ensures var path := [SLASH] + BasenameOf(p); Proper(path) && BasenameOf(path) == BasenameOf(p) && !EndsWith(path, p)
  {
    hide BasenameOf, Proper;
    var base := BasenameOf(p);
    NoSlashInName(p);
    BaseIsProper(base);
    WholeIsEnd(base);
    NameOfEnd([SLASH] + base, base);
    NameNotLonger(p);
    if |p| == |base| + 1 {
      OnlyItself([SLASH] + base, p);
    }
  }

  lemma BaseIsProper(base: Bytes)
    requires base != [] && SLASH !in base && Clean(base)
    ensures Proper([SLASH] + base)
  {
    var path := [SLASH] + base;
    assert forall i | 1 <= i < |path| :: path[i] == base[i - 1] && base[i - 1] in base;
  }

  lemma WholeIsEnd(base: Bytes)
    ensures EndsWith([SLASH] + base, [SLASH] + base)
  {
    assert ([SLASH] + base)[0..] == [SLASH] + base;
  }

  lemma NameNotLonger(p: Bytes)
    requires SLASH in p
    ensures |p| >= |BasenameOf(p)| + 1
  {
  }

  lemma OnlyItself(path: Bytes, p: Bytes)
    requires |p| == |path|
    ensures EndsWith(path, p) <==> path == p
  {
    assert path[0..] == path;
  }

  lemma InsideTells(a: Asked)
    requires a.wholeName && !a.atRoot && |a.pattern| >= 3 && Clean(a.pattern)
    requires !(SLASH in a.pattern && BasenameOf(a.pattern) != [])
    ensures Proper(Witness(a)) && Contains(Witness(a), a.pattern) && !EndsWith(Witness(a), a.pattern)
  {
    if SLASH in a.pattern {
      InsideDirectory(a.pattern);
    } else {
      InsideName(a.pattern);
    }
  }

  lemma InsideName(p: Bytes)
    requires |p| >= 3 && Clean(p) && SLASH !in p
    ensures var path := [SLASH] + p + [SLASH, 120]; Proper(path) && Contains(path, p) && !EndsWith(path, p)
  {
    var path := [SLASH] + p + [SLASH, 120];
    assert path[1..1 + |p|] == p && OccursAt(path, p, 1);
    assert path[|path| - |p|..][|p| - 2] == SLASH;
    assert p[|p| - 2] in p;
    assert forall i | 1 <= i <= |p| :: path[i] == p[i - 1];
  }

  lemma InsideDirectory(p: Bytes)
    requires p != [] && Clean(p) && SLASH in p && BasenameOf(p) == []
    ensures var path := Normalized(p) + [120]; Proper(path) && Contains(path, p) && !EndsWith(path, p)
  {
    var i := LastIndexOf(p, SLASH).value;
    assert |p[i + 1..]| == 0;
    hide BasenameOf;
    var n, path := Normalized(p), Normalized(p) + [120];
    NormalizedFacts(p);
    var at := |n| - |p|;
    assert path[at..at + |p|] == p && OccursAt(path, p, at);
    assert path[|path| - |p|..][|p| - 1] == 120;
    BehindSlash(n);
  }

  lemma NormalizedFacts(p: Bytes)
    requires p != [] && Clean(p)
    ensures var n := Normalized(p);
            && Clean(n) && n[0] == SLASH && n[|n| - 1] == p[|p| - 1] && |n| >= |p| && n[|n| - |p|..] == p
  {
    var n := Normalized(p);
    assert p[..1] == [p[0]];
    if p[0] == SLASH {
      assert n == p;
    } else {
      assert n == [SLASH] + p && forall i | 1 <= i < |n| :: n[i] == p[i - 1];
    }
  }

  lemma BehindSlash(n: Bytes)
    requires Clean(n) && n != [] && n[0] == SLASH
    ensures Proper(n + [120])
  {
  }

  /** The reliable queries are exactly those for which every fast search looks for the matching paths of a database. */
  lemma ReliableExactly(a: Asked)
    ensures Reliable(a) <==> (TriesFast(a) ==> forall path | Proper(path) :: LookedFor(a, path) <==> PathMatches(a, path))
  {
    hide Reliable, TriesFast, LookedFor, PathMatches, Proper;
    if Reliable(a) && TriesFast(a) {
      forall path | Proper(path) ensures LookedFor(a, path) <==> PathMatches(a, path) {
        ReliableLooks(a, path);
      }
    } else if !Reliable(a) {
      WitnessTells(a);
    }
  }

  /** `bin/ls` to the end of the name is looked for as `ls`, which is also the name of `/lib/ls`. */
  lemma WholeNameElsewhere()
    ensures var a := Asked([98, 105, 110, SLASH, 108, 115], false, true); !Reliable(a) && Tells(a, [SLASH, 108, 105, 98, SLASH, 108, 115])
  {
    hide AstOf, BasenameOf, PlanOf, Proper, Contains;
    var p: Bytes, path: Bytes := [98, 105, 110, SLASH, 108, 115], [SLASH, 108, 105, 98, SLASH, 108, 115];
    var base: Bytes := [108, 115];
    assert p[4..] == base && path[5..] == base;
    NameBehind(p, 4);
    NameBehind(path, 5);
    FastKinds(Asked(p, false, true));
    LibLsIsProper();
    assert |[SLASH] + base| == 3;
    assert path[|path| - |p|..][0] == 108;
  }

  lemma LibLsIsProper()
    ensures Proper([SLASH, 108, 105, 98, SLASH, 108, 115])
  {
  }

  // ---------- the whole search ----------

  /** The scan of the query: its regex on paths, and on lines wherever the path alone matches. */
  ghost predicate Searches(q: Query, a: Asked) {
    && q.ordinals.None? && (forall path :: q.exactPath(path) <==> PathMatches(a, path))
    && forall e: FileTreeEntry :: q.exactPath(e.path) ==> q.lineMatches(LineOf(e))
  }

  ghost predicate ProperPaths(ps: seq<Stored>) {
    forall i, path | 0 <= i < |ps| && path in PathsOf(ps)[i] :: Proper(path)
  }

  /** So are the paths of the log. */
  lemma LoggedProper(ps: seq<Stored>)
    requires ProperPaths(ps)
    ensures forall h | h in LogOf(ps) :: Proper(h.1.path)
  {
    hide Proper, LogOf;
    forall h | h in LogOf(ps) ensures Proper(h.1.path) {
      LoggedEntry(ps, h);
      var p :| p in ps && h.1 in p.entries;
      var i :| 0 <= i < |ps| && ps[i] == p;
      var k :| 0 <= k < |p.entries| && p.entries[k] == h.1;
      assert PathsOf(ps)[i][k] == h.1.path;
    }
  }

  /** What the trigram search is asked for is what is looked for. */
  lemma AskedIsLookedFor(a: Asked, q: Query, o: Options, path: Bytes)
    ensures var plan := PlanOf(a);
            && (plan.exactPath.Some? ==> (LookedFor(a, path) <==> path == plan.exactPath.value))
            && (plan.TriesName() ==> (LookedFor(a, path) <==> BasenameOf(path) == plan.exactBasename.value))
            && (plan.TriesTrigrams() ==> (LookedFor(a, path) <==> plan.Fast(q, o).FindsPath(path)))
            && (plan.exactPath.Some? || plan.TriesName() || plan.TriesTrigrams() ==> TriesFast(a))
  {
    if PlanOf(a).TriesTrigrams() {
      FastIsContains(a, q, o, path);
    }
    hide AstOf, Contains, BasenameOf;
  }

  /** For a reliable query the routes ask the question of the full scan. */
  lemma ReliableRoutes(a: Asked, q: Query, o: Options, ps: seq<Stored>)
    requires Reliable(a) && Searches(q, a) && ProperPaths(ps)
    ensures PlanOf(a).Valid() && RoutesAsk(PlanOf(a), q, o, LogOf(ps))
  {
    PlanParts(a);
    LoggedProper(ps);
    hide LogOf, Reliable, LookedFor, PlanOf, PathMatches, Proper, ProperPaths, BasenameOf;
    forall h | h in LogOf(ps)
      ensures TriesFast(a) ==> (LookedFor(a, h.1.path) <==> q.exactPath(h.1.path))
    {
      AskedIsLookedFor(a, q, o, h.1.path);
      if TriesFast(a) {
        ReliableLooks(a, h.1.path);
      }
    }
    forall h | h in LogOf(ps) {
      AskedIsLookedFor(a, q, o, h.1.path);
    }
  }

  /** A query with a pattern never matches the empty path. */
  lemma FastIsStraight(a: Asked, q: Query)
    requires Searches(q, a) && TriesFast(a)
    ensures Straight(q)
  {
    FastKinds(a);
    hide AstOf;
    assert a.pattern != [] && !PathMatches(a, []);
  }

  /**
   * The whole search for a query that is not a regex, over any subset of the sidecars. For a reliable query
   * it presents, in the requested order and up to the limit, the shown hits of the full scan, whichever route is taken.
   */
  method SearchPlain(a: Asked, reader: D.Reader, s: Sidecars, cache: NgramCache.Cache, resolve: Bytes -> Option<set<nat>>,
                     q: Query, o: Options, sort: SearchSort, limit: Option<nat>, pathMatcher: Matcher, packageMatcher: Matcher,
                     decompress: Bytes -> Option<Bytes>, capacity: nat, ghost ps: seq<Stored>, ghost cuts: seq<nat>)
    returns (r: Result<seq<Hit>, D.DatabaseError>)
    requires Searches(q, a) && q.labels.None? && ProperPaths(ps)
    requires (forall p | p in ps :: PackageSearch.Readable(q, p)) && D.StandsFor(reader, decompress, ps, cuts) && |ps| <= U32_LIMIT
    requires FindsEntries(pathMatcher, q) && FindsFooters(packageMatcher)
    requires Generated(s, ps) && Knows(resolve, PathsOf(ps)) && NgramCache.NothingForNul(resolve)
    requires cache.Valid() && NgramCache.Right(cache.entries, resolve)
    modifies cache
    ensures cache.Valid() && NgramCache.Right(cache.entries, resolve)
    ensures r.Ok? && (Reliable(a) ==> Presents(r.value, Shown(q, o, ps), sort, limit))
  {
    var plan := PlanOf(a);
    PlanParts(a);
    PlanFits(a, q, ps);
    FastKinds(a);
    hide PlanOf, PathMatches, Generated, Knows, Fits, FindsEntries, FindsFooters, PackageSearch.Readable, D.StandsFor, Answered,
         NgramCache.Right, NgramCache.NothingForNul, Straight, Reliable, RoutesAsk, Shown, Searches, ProperPaths, Arranged, Takes;
    var route;
    ghost var all;
    r, route, all := Search(reader, s, cache, resolve, plan, q, o, sort, limit, pathMatcher, packageMatcher, decompress, capacity, ps, cuts);
    if Reliable(a) {
      ReliableRoutes(a, q, o, ps);
      RouteIsStraight(a, q, o, route, all, ps);
      AnswersAgree(route, all, plan, q, o, ps);
      assert multiset(all) == multiset(Shown(q, o, ps)) && r.value == Cut(Arranged(sort, all), limit);
    }
  }

  lemma RouteIsStraight(a: Asked, q: Query, o: Options, route: Route, all: seq<Hit>, ps: seq<Stored>)
    requires PlanOf(a).Valid() && Searches(q, a) && Answered(route, all, PlanOf(a), q, o, ps)
    ensures route.ByScan? || Straight(q)
  {
    hide PlanOf, Searches, Straight;
    if !route.ByScan? {
      FastIsStraight(a, q);
    }
  }

  // ---------- what becomes of the other queries ----------

  /** The database of one package with one entry. */
  function Sole(hit: Hit, json: Bytes): seq<Stored> {
    [Stored(hit.0, json, [hit.1])]
  }

  lemma SoleLog(hit: Hit, json: Bytes)
    requires hit.1.path != []
    ensures LogOf(Sole(hit, json)) == [hit]
  {
    var ps := Sole(hit, json);
    assert ps[..0] == [] && [hit.1][..0] == [];
    assert WithPath([hit.1]) == [] + [hit.1] == [hit.1];
    assert LogOf(ps) == [] + Attach(hit.0, [hit.1]);
  }

  lemma SolePaths(hit: Hit, json: Bytes)
    ensures PathsOf(Sole(hit, json)) == [[hit.1.path]]
  {
    assert EntryPaths([hit.1]) == [hit.1.path];
  }

  lemma SoleIsFew(plan: Plan, hit: Hit, json: Bytes)
    requires hit.1.path != []
    ensures FewPaths(plan, Sole(hit, json))
  {
    SoleLog(hit, json);
    var keys := PathList([hit]);
    assert LoggedPaths([hit]) == {hit.1.path};
    hide PathList, LogOf;
    DistinctCount(keys);
    assert (set k | k in keys) == {hit.1.path};
  }

  lemma OnePasses(hit: Hit, keep: Hit -> bool)
    ensures Passing([hit], keep) == if keep(hit) then [hit] else []
  {
    PassingOne([hit], keep);
  }

  /** A path that tells makes the search find what the full scan does not show. */
  lemma AstrayAnswer(a: Asked, q: Query, o: Options, hit: Hit, json: Bytes, s: Sidecars, route: Route, all: seq<Hit>)
    requires Searches(q, a) && q.labels.None? && TriesFast(a) && Tells(a, hit.1.path) && Accepted(q, o, hit)
    requires PlanOf(a).Valid() && Answered(route, all, PlanOf(a), q, o, Sole(hit, json)) && Takes(route, s, PlanOf(a), Sole(hit, json))
    requires s.table.Some? && s.entries.Some? && s.pathTrigrams.Some?
    ensures all == [hit] && Shown(q, o, Sole(hit, json)) == []
  {
    hide PlanOf, LookedFor, PathMatches, Proper, Takes, Passing, Hits, LogOf, ShouldInclude, BasenameOf, FewPaths;
    FastIsStraight(a, q);
    ScanIsLog(q, o, Sole(hit, json));
    TellsNotEmpty(a, hit.1.path);
    SoleLog(hit, json);
    SoleIsFew(PlanOf(a), hit, json);
    AskedIsLookedFor(a, q, o, hit.1.path);
    OnePasses(hit, h => Reports(q, o, h));
    var plan := PlanOf(a);
    RouteTaken(a, s, route, Sole(hit, json));
    match route
    case ByPath => OnePasses(hit, (h: Hit) => h.1.path == plan.exactPath.value && Accepted(q, o, h));
    case ByBasename => OnePasses(hit, (h: Hit) => BasenameOf(h.1.path) == plan.exactBasename.value && Accepted(q, o, h));
    case ByTrigrams =>
      OnePasses(hit, h => plan.Fast(q, o).Finds(h));
      OnlyOne(all, hit);
    case ByScan =>
  }

  lemma TellsNotEmpty(a: Asked, path: Bytes)
    requires TriesFast(a) && Tells(a, path)
    ensures path != []
  {
    FastKinds(a);
    hide AstOf;
    assert BasenameOf([]) == [];
  }

  lemma OnlyOne(all: seq<Hit>, hit: Hit)
    requires multiset(all) == multiset([hit])
    ensures all == [hit]
  {
    assert |all| == |multiset(all)| == 1;
    assert all[0] in multiset(all);
  }

  lemma RouteTaken(a: Asked, s: Sidecars, route: Route, ps: seq<Stored>)
    requires PlanOf(a).Valid() && TriesFast(a) && Takes(route, s, PlanOf(a), ps) && FewPaths(PlanOf(a), ps)
    requires s.table.Some? && s.entries.Some? && s.pathTrigrams.Some?
    ensures !route.ByScan?
    ensures PlanOf(a).exactPath.Some? ==> route.ByPath?
    ensures PlanOf(a).TriesName() ==> route.ByBasename?
    ensures PlanOf(a).TriesTrigrams() ==> route.ByTrigrams?
  {
  }

  /** A path that the trigram search looks for is one that the plan admits. */
  lemma InsideIsAdmitted(a: Asked, path: Bytes)
    requires PlanOf(a).exactPath.None? && PlanOf(a).exactBasename.None? && TriesFast(a) && Tells(a, path)
    ensures PlanOf(a).Admits(path)
  {
    PlanParts(a);
    FastKinds(a);
    hide AstOf, Contains, Proper, PathMatches;
  }

  /**
   * Over the full set of sidecars every unreliable query goes astray: on a database with one entry, at a path
   * that tells, the search returns that entry, and the full scan shows nothing. `WitnessTells` gives such a path.
   */
  method SearchAstray(a: Asked, reader: D.Reader, s: Sidecars, cache: NgramCache.Cache, resolve: Bytes -> Option<set<nat>>,
                      q: Query, o: Options, pathMatcher: Matcher, packageMatcher: Matcher,
                      decompress: Bytes -> Option<Bytes>, capacity: nat, ghost hit: Hit, ghost json: Bytes, ghost cuts: seq<nat>)
    returns (r: Result<seq<Hit>, D.DatabaseError>)
    requires Searches(q, a) && q.labels.None? && TriesFast(a) && Tells(a, hit.1.path) && Accepted(q, o, hit)
    requires PackageSearch.Readable(q, Sole(hit, json)[0]) && D.StandsFor(reader, decompress, Sole(hit, json), cuts)
    requires FindsEntries(pathMatcher, q) && FindsFooters(packageMatcher)
    requires s.table.Some? && s.entries.Some? && s.pathTrigrams.Some?
    requires Generated(s, Sole(hit, json)) && Knows(resolve, PathsOf(Sole(hit, json))) && NgramCache.NothingForNul(resolve)
    requires cache.Valid() && NgramCache.Right(cache.entries, resolve)
    modifies cache
    ensures r == Ok([hit]) && Shown(q, o, Sole(hit, json)) == []
  {
    var plan := PlanOf(a);
    ghost var ps := Sole(hit, json);
    PlanParts(a);
    FastKinds(a);
    SolePaths(hit, json);
    PlanFits(a, q, ps);
    ghost var unscanned := plan.exactPath.None? && plan.exactBasename.None?;
    if unscanned {
      InsideIsAdmitted(a, hit.1.path);
      assert hit.1.path in PathsOf(ps)[0] && MayMatch(plan, PathsOf(ps)[0]);
      assert PathsOf(ps)[0] in PathsOf(ps);
    }
    assert forall p | p in ps :: p == Sole(hit, json)[0];
    hide PlanOf, PathMatches, Generated, Knows, Fits, FindsEntries, FindsFooters, PackageSearch.Readable, D.StandsFor, Answered,
         NgramCache.Right, NgramCache.NothingForNul, Shown, Searches, Takes, MayMatch, Tells, TriesFast, Sole, PathsOf;
    var route;
    ghost var all;
    r, route, all := Search(reader, s, cache, resolve, plan, q, o, Unsorted, None, pathMatcher, packageMatcher, decompress, capacity, ps, cuts);
    AstrayAnswer(a, q, o, hit, json, s, route, all);
    assert Arranged(Unsorted, [hit]) == [hit] by { UnsortedStays(Unsorted, [hit]); }
  }
}
