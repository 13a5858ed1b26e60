/**
 * The fast search for a literal: candidates from the path trigrams, then the path table. It finds
 * what the full scan finds.
 */
module LiteralSearch {
  import opened Wrappers
  import opened Bytes
  import opened Files
  import opened StorePaths
  import opened SearchSpec
  import opened ByteOrder
  import opened Postings
  import opened Trigrams
  import opened PathTable
  import opened PathTableFile
  import opened PathTableLookup
  import PathIndex

  const CANDIDATE_LIMIT := 100_000

  // ---------- the filter behind both searches ----------

  /** The options that decide which found entries are shown; `lastMatchEnd` stands for the path regex. */
  datatype Options = Options(
    group: bool,
    onlyToplevel: bool,
    fileTypes: set<FileType>,
    minSize: Option<U64>,
    maxSize: Option<U64>,
    excludeFhs: bool,
    lastMatchEnd: Bytes -> Option<nat>)

  predicate PartAt(s: string, part: string, i: nat) {
    i + |part| <= |s| && s[i..i + |part|] == part
  }

  predicate HasSubstring(s: string, part: string) {
    exists i | 0 <= i <= |s| :: PartAt(s, part, i)
  }

  /** `should_include_match`. */
  predicate ShouldInclude(o: Options, hit: Hit) {
    var (store, entry) := hit;
    var end := o.lastMatchEnd(entry.path);
    && !(o.group && end.Some? && end.value <= |entry.path| && SLASH in entry.path[end.value..])
    && (o.onlyToplevel ==> store.origin.toplevel)
    && (o.fileTypes != {} ==> entry.node.GetType() in o.fileTypes)
    && (o.minSize.Some? ==> entry.node.Size() >= o.minSize.value)
    && (o.maxSize.Some? ==> entry.node.Size() <= o.maxSize.value)
    && (o.excludeFhs ==> !HasSubstring(store.name, "-fhs") && !HasSubstring(store.name, "-usr-target"))
  }

  // ---------- what that filter asks of a hit ----------

  /** Behind the end of the last match the path has no slash. */
  predicate NothingBelow(path: Bytes, end: Option<nat>) {
    end.Some? && end.value <= |path| ==> forall k | end.value <= k < |path| :: path[k] != 47
  }

  predicate TypeAmong(node: FileNode, types: set<FileType>) {
    match node
    case Regular(_, executable) => if executable then RegularType(true) in types else RegularType(false) in types
    case Symlink(_) => SymlinkType in types
    case Directory(_) => DirectoryType in types
  }

  /** A link has no size of its own. */
  predicate HoldsAtLeast(node: FileNode, n: nat) {
    match node
    case Regular(size, _) => size >= n
    case Symlink(_) => n == 0
    case Directory(size) => size >= n
  }

  predicate HoldsAtMost(node: FileNode, n: nat) {
    match node
    case Regular(size, _) => size <= n
    case Symlink(_) => true
    case Directory(size) => size <= n
  }

  /** No tail of the string begins with the part. */
  predicate Nowhere(s: string, part: string) {
    forall i | 0 <= i <= |s| :: !(part <= s[i..])
  }

  /** A hit meets every option that is set. */
  ghost predicate MeetsOptions(o: Options, hit: Hit) {
    && (o.group ==> NothingBelow(hit.1.path, o.lastMatchEnd(hit.1.path)))
    && (o.onlyToplevel ==> hit.0.origin.toplevel)
    && (o.fileTypes != {} ==> TypeAmong(hit.1.node, o.fileTypes))
    && (o.minSize.Some? ==> HoldsAtLeast(hit.1.node, o.minSize.value))
    && (o.maxSize.Some? ==> HoldsAtMost(hit.1.node, o.maxSize.value))
    && (o.excludeFhs ==> Nowhere(hit.0.name, ['-', 'f', 'h', 's'])
                         && Nowhere(hit.0.name, ['-', 'u', 's', 'r', '-', 't', 'a', 'r', 'g', 'e', 't']))
  }

  lemma NowhereIs(s: string, part: string)
    ensures HasSubstring(s, part) <==> !Nowhere(s, part)
  {
    if HasSubstring(s, part) {
      var i :| 0 <= i <= |s| && PartAt(s, part, i);
      assert s[i..][..|part|] == s[i..i + |part|];
    }
    if i :| 0 <= i <= |s| && part <= s[i..] {
      assert s[i..][..|part|] == s[i..i + |part|];
      assert PartAt(s, part, i);
    }
  }

  /** The filter shows exactly the hits that meet the options. */
  lemma ShownMeets(o: Options, hit: Hit)
    ensures ShouldInclude(o, hit) <==> MeetsOptions(o, hit)
  {
    NowhereIs(hit.0.name, "-fhs");
    NowhereIs(hit.0.name, "-usr-target");
    hide HasSubstring, Nowhere;
    var path := hit.1.path;
    var end := o.lastMatchEnd(path);
    if end.Some? && end.value <= |path| {
      var rest := path[end.value..];
      assert forall k | end.value <= k < |path| :: path[k] == rest[k - end.value];
      assert forall k | 0 <= k < |rest| :: rest[k] == path[end.value + k];
    }
  }

  /**
   * What a fast search asks for: a literal, or the literal prefix and suffix of a regex, together
   * with the regex itself as the predicate it stands for.
   */
  datatype Literal = Literal(pattern: Bytes, suffix: Option<Bytes>, matches: Bytes -> bool,
                             packagePattern: Option<string -> bool>, hash: Option<Hash>, options: Options)
  {
    /** The suffix is used when it is long enough and not the pattern again. */
    predicate HasSuffix() {
      suffix.Some? && |suffix.value| >= 3 && suffix.value != pattern
    }

    predicate FindsPath(path: Bytes) {
      Contains(path, pattern) && (HasSuffix() ==> Contains(path, suffix.value) && matches(path))
    }

    predicate AcceptsPackage(store: StorePath) {
      (packagePattern.Some? ==> packagePattern.value(store.name)) && (hash.Some? ==> hash.value == store.hash)
    }

    predicate Shows(hit: Hit) {
      AcceptsPackage(hit.0) && ShouldInclude(options, hit)
    }

    predicate Finds(hit: Hit) {
      FindsPath(hit.1.path) && Shows(hit)
    }
  }

  function Passing(hits: seq<Hit>, keep: Hit -> bool): seq<Hit> {
    if hits == [] then []
    else
      var n := |hits| - 1;
      Passing(hits[..n], keep) + if keep(hits[n]) then [hits[n]] else []
  }

  lemma {:induction false} PassingConcat(a: seq<Hit>, b: seq<Hit>, keep: Hit -> bool)
    ensures Passing(a + b, keep) == Passing(a, keep) + Passing(b, keep)
    decreases |b|
  {
    if b == [] {
      assert a + b == a;
    } else {
      var n := |b| - 1;
      assert (a + b)[..|a| + n] == a + b[..n];
      PassingConcat(a, b[..n], keep);
      Assoc(Passing(a, keep), Passing(b[..n], keep), if keep(b[n]) then [b[n]] else []);
    }
  }

  lemma {:induction false} PassingAlike(hits: seq<Hit>, a: Hit -> bool, b: Hit -> bool)
    requires forall h | h in hits :: a(h) == b(h)
    ensures Passing(hits, a) == Passing(hits, b)
  {
    if hits != [] {
      var n := |hits| - 1;
      assert hits[n] in hits;
      PassingAlike(hits[..n], a, b);
    }
  }

  // ---------- counting hits ----------

  function Count(hits: seq<Hit>, h: Hit): nat {
    if hits == [] then 0 else Count(hits[..|hits| - 1], h) + if hits[|hits| - 1] == h then 1 else 0
  }

  lemma {:induction false} CountIs(hits: seq<Hit>, h: Hit)
    ensures Count(hits, h) == multiset(hits)[h]
  {
    if hits != [] {
      var n := |hits| - 1;
      CountIs(hits[..n], h);
      assert hits == hits[..n] + [hits[n]];
    }
  }

  lemma {:induction false} CountConcat(a: seq<Hit>, b: seq<Hit>, h: Hit)
    ensures Count(a + b, h) == Count(a, h) + Count(b, h)
    decreases |b|
  {
    if b == [] {
      assert a + b == a;
    } else {
      var n := |b| - 1;
      assert (a + b)[..|a| + n] == a + b[..n];
      CountConcat(a, b[..n], h);
    }
  }

  lemma {:induction false} CountOnPath(log: seq<Hit>, path: Bytes, h: Hit)
    ensures Count(OnPath(log, path), h) == if h.1.path == path then Count(log, h) else 0
  {
    if log != [] {
      var n := |log| - 1;
      CountOnPath(log[..n], path, h);
      CountConcat(OnPath(log[..n], path), if log[n].1.path == path then [log[n]] else [], h);
      CountOne(log[n], h);
    }
  }

  lemma CountOne(one: Hit, h: Hit)
    ensures Count([one], h) == if one == h then 1 else 0
  {
    assert [one][..0] == [];
  }

  lemma {:induction false} CountPassing(hits: seq<Hit>, keep: Hit -> bool, h: Hit)
    ensures Count(Passing(hits, keep), h) == if keep(h) then Count(hits, h) else 0
  {
    if hits != [] {
      var n := |hits| - 1;
      CountPassing(hits[..n], keep, h);
      CountConcat(Passing(hits[..n], keep), if keep(hits[n]) then [hits[n]] else [], h);
      CountOne(hits[n], h);
    }
  }

  lemma SameCounts(a: seq<Hit>, b: seq<Hit>)
    requires forall h :: Count(a, h) == Count(b, h)
    ensures multiset(a) == multiset(b)
  {
    forall h ensures multiset(a)[h] == multiset(b)[h] {
      CountIs(a, h);
      CountIs(b, h);
    }
  }

  // ---------- the hits behind the candidates ----------

  ghost predicate AreIds(ids: seq<U32>, keys: seq<Bytes>) {
    Ascending(ids) && forall id | id in ids :: id < |keys|
  }

  /** The matching hits of these ids, one path after the other. */
  function Behind(ids: seq<U32>, keys: seq<Bytes>, log: seq<Hit>, keep: Hit -> bool): seq<Hit>
    requires forall id | id in ids :: id < |keys|
  {
    if ids == [] then []
    else
      var n := |ids| - 1;
      assert ids[n] in ids && forall id | id in ids[..n] :: id in ids;
      Behind(ids[..n], keys, log, keep) + Passing(OnPath(log, keys[ids[n]]), keep)
  }

  ghost predicate Listed(ids: seq<U32>, keys: seq<Bytes>, path: Bytes) {
    exists i :: 0 <= i < |ids| && ids[i] < |keys| && keys[ids[i]] == path
  }

  lemma ListedNext(ids: seq<U32>, keys: seq<Bytes>, path: Bytes)
    requires AreIds(ids, keys) && Sorted(keys) && ids != []
    ensures var n := |ids| - 1;
            && AreIds(ids[..n], keys) && ids[n] < |keys| && (forall id | id in ids[..n] :: id < |keys|)
            && (Listed(ids, keys, path) <==> Listed(ids[..n], keys, path) || keys[ids[n]] == path)
            && !(Listed(ids[..n], keys, path) && keys[ids[n]] == path)
  {
    hide Less;
    var n := |ids| - 1;
    var front := ids[..n];
    assert ids[n] in ids && forall id | id in front :: id in ids;
    if Listed(ids, keys, path) {
      var i :| 0 <= i < |ids| && ids[i] < |keys| && keys[ids[i]] == path;
      assert i < n ==> front[i] == ids[i];
    }
    if Listed(front, keys, path) {
      var i :| 0 <= i < |front| && front[i] < |keys| && keys[front[i]] == path;
      assert ids[i] == front[i] && ids[i] < ids[n];
      DistinctKeys(keys, ids[i], ids[n]);
    }
  }

  /** Every hit comes up as often as it was recorded, if its path is listed. */
  lemma {:induction false} CountBehind(ids: seq<U32>, keys: seq<Bytes>, log: seq<Hit>, keep: Hit -> bool, h: Hit)
    requires AreIds(ids, keys) && Sorted(keys)
    ensures Count(Behind(ids, keys, log, keep), h) == if keep(h) && Listed(ids, keys, h.1.path) then Count(log, h) else 0
    decreases |ids|
  {
    hide Sorted, Listed, AreIds;
    if ids == [] {
      assert !Listed(ids, keys, h.1.path) by { NotListed(keys, h.1.path); }
    } else {
      var n := |ids| - 1;
      ListedNext(ids, keys, h.1.path);
      CountBehind(ids[..n], keys, log, keep, h);
      CountConcat(Behind(ids[..n], keys, log, keep), Passing(OnPath(log, keys[ids[n]]), keep), h);
      CountPassing(OnPath(log, keys[ids[n]]), keep, h);
      CountOnPath(log, keys[ids[n]], h);
    }
  }

  lemma NotListed(keys: seq<Bytes>, path: Bytes)
    ensures !Listed([], keys, path)
  {
  }

  // ---------- the search ----------

  /** A written trigram index over these paths. */
  ghost predicate IndexOver(index: Index, keys: seq<Bytes>) {
    exists trigrams :: StandsFor(index, trigrams) && Indexes(trigrams, keys)
  }

  /** The sidecars of one database: the trigram index was built over the sorted paths of the table. */
  ghost predicate Consistent(index: Index, t: Table, codec: Codec, log: seq<Hit>) {
    IndexOver(index, PathList(log)) && Tabled(t, codec, log) && Lossless(codec)
  }

  /** Every path that is asked for has its id among these. */
  ghost predicate Covers(ids: seq<U32>, keys: seq<Bytes>, q: Literal) {
    forall i | 0 <= i < |keys| && q.FindsPath(keys[i]) :: i in ids
  }

  /** A hit that is asked for has a path with an id among the candidates. */
  lemma FoundPathListed(log: seq<Hit>, keys: seq<Bytes>, q: Literal, ids: seq<U32>, h: Hit)
    requires InOrder(keys, LoggedPaths(log)) && Covers(ids, keys, q)
    requires q.FindsPath(h.1.path) && Count(log, h) > 0
    ensures Listed(ids, keys, h.1.path)
  {
    hide LoggedPaths;
    OnPathSome(log, h.1.path);
    CountOnPath(log, h.1.path, h);
    assert h.1.path in keys;
    var id :| 0 <= id < |keys| && keys[id] == h.1.path;
    assert id in ids;
  }

  /** So the hits behind the candidates are all hits that are asked for. */
  lemma NothingMissed(log: seq<Hit>, keys: seq<Bytes>, q: Literal, ids: seq<U32>)
    requires InOrder(keys, LoggedPaths(log)) && Covers(ids, keys, q) && AreIds(ids, keys)
    ensures multiset(Behind(ids, keys, log, h => q.Finds(h))) == multiset(Passing(log, h => q.Finds(h)))
  {
    var keep := (h: Hit) => q.Finds(h);
    hide LoggedPaths, Covers, Sorted, Listed, Ascending;
    forall h ensures Count(Behind(ids, keys, log, keep), h) == Count(Passing(log, keep), h) {
      CountBehind(ids, keys, log, keep, h);
      CountPassing(log, keep, h);
      if keep(h) && Count(log, h) > 0 {
        FoundPathListed(log, keys, q, ids, h);
      }
    }
    SameCounts(Behind(ids, keys, log, keep), Passing(log, keep));
  }

  /** The shown hits of one path. */
  method ShowHits(hits: seq<Hit>, q: Literal) returns (shown: seq<Hit>)
    ensures shown == Passing(hits, h => q.Shows(h))
  {
    shown := [];
    ghost var keep := (h: Hit) => q.Shows(h);
    assert hits[..0] == [];
    for i := 0 to |hits|
      invariant shown == Passing(hits[..i], keep)
    {
      assert hits[..i + 1][..i] == hits[..i];
      if q.AcceptsPackage(hits[i].0) && ShouldInclude(q.options, hits[i]) {
        shown := shown + [hits[i]];
      } else {
        assert shown + [] == shown;
      }
    }
    assert hits[..|hits|] == hits;
  }

  /** On one path the literal finds all shown hits or none. */
  lemma {:induction false} PathDecides(log: seq<Hit>, path: Bytes, q: Literal)
    ensures Passing(OnPath(log, path), h => q.Finds(h)) ==
            if q.FindsPath(path) then Passing(OnPath(log, path), h => q.Shows(h)) else []
  {
    var finds, shows := (h: Hit) => q.Finds(h), (h: Hit) => q.Shows(h);
    if log != [] {
      var n := |log| - 1;
      var one := if log[n].1.path == path then [log[n]] else [];
      PathDecides(log[..n], path, q);
      PassingConcat(OnPath(log[..n], path), one, finds);
      PassingConcat(OnPath(log[..n], path), one, shows);
      PassingOne(one, finds);
      PassingOne(one, shows);
    }
  }

  lemma PassingOne(one: seq<Hit>, keep: Hit -> bool)
    requires |one| <= 1
    ensures Passing(one, keep) == if one != [] && keep(one[0]) then one else []
  {
    if one != [] {
      assert one[..0] == [];
    }
  }

  /** The hits of one candidate: its path is checked before its hits are read. */
  method SearchCandidate(t: Table, id: U32, q: Literal, codec: Codec, ghost log: seq<Hit>)
    returns (r: Result<seq<Hit>, TableError>)
    requires Tabled(t, codec, log) && Lossless(codec) && id < |PathList(log)|
    ensures r == Ok(Passing(OnPath(log, PathList(log)[id]), h => q.Finds(h)))
  {
    ghost var paths :| TabledFrom(t, codec, paths, log);
    ghost var keys := PathList(log);
    hide Contains, AllFaithful, Holds, Sorted, Lossless, OnPath, Passing, Ordered, LoggedPaths;
    PathDecides(log, keys[id], q);
    var path := PathBytes(t, id, keys, Blobs(codec, paths, keys));
    if !Contains(path.value, q.pattern) {
      return Ok([]);
    }
    if q.HasSuffix() && !Contains(path.value, q.suffix.value) {
      return Ok([]);
    }
    if q.HasSuffix() && !q.matches(path.value) {
      return Ok([]);
    }
    var hits := LookupEntriesById(t, id, codec, log);
    var shown := ShowHits(hits.value, q);
    return Ok(shown);
  }

  lemma BehindNext(front: seq<U32>, id: U32, keys: seq<Bytes>, log: seq<Hit>, keep: Hit -> bool)
    requires id < |keys| && forall i | i in front :: i < |keys|
    ensures forall i | i in front + [id] :: i < |keys|
    ensures Behind(front + [id], keys, log, keep) == Behind(front, keys, log, keep) + Passing(OnPath(log, keys[id]), keep)
  {
    hide OnPath, Passing;
    assert (front + [id])[..|front|] == front;
  }

  /** The hits of one more id behind those found so far. */
  method AddCandidate(t: Table, ghost front: seq<U32>, id: U32, results: seq<Hit>, q: Literal, codec: Codec, ghost log: seq<Hit>)
    returns (r: Result<seq<Hit>, TableError>)
    requires Tabled(t, codec, log) && Lossless(codec)
    requires id < |PathList(log)| && forall i | i in front :: i < |PathList(log)|
    requires results == Behind(front, PathList(log), log, h => q.Finds(h))
    ensures forall i | i in front + [id] :: i < |PathList(log)|
    ensures r == Ok(Behind(front + [id], PathList(log), log, h => q.Finds(h)))
  {
    hide *;
    BehindNext(front, id, PathList(log), log, h => q.Finds(h));
    var found := SearchCandidate(t, id, q, codec, log);
    if found.Err? {
      return found;
    }
    return Ok(results + found.value);
  }

  /** The hits of every candidate in the order of the ids. */
  method SearchCandidates(t: Table, ids: seq<U32>, q: Literal, codec: Codec, ghost log: seq<Hit>)
    returns (r: Result<seq<Hit>, TableError>)
    requires Tabled(t, codec, log) && Lossless(codec)
    requires forall id | id in ids :: id < |PathList(log)|
    ensures r == Ok(Behind(ids, PathList(log), log, h => q.Finds(h)))
  {
    hide *;
    var results: seq<Hit> := [];
    assert ids[..0] == [];
    NothingBehind(ids[..0], PathList(log), log, h => q.Finds(h));
    for n := 0 to |ids|
      invariant forall id | id in ids[..n] :: id < |PathList(log)|
      invariant results == Behind(ids[..n], PathList(log), log, h => q.Finds(h))
    {
      assert ids[n] in ids && ids[..n + 1] == ids[..n] + [ids[n]];
      var found := AddCandidate(t, ids[..n], ids[n], results, q, codec, log);
      if found.Err? {
        return found;
      }
      results := found.value;
    }
    assert ids[..|ids|] == ids;
    return Ok(results);
  }

  /** The paths with a trigram. */
  ghost function Holders(keys: seq<Bytes>, trigram: Bytes): set<U32> {
    set id: U32 | id < |keys| && HasWindow(keys[id], trigram)
  }

  /** No trigram of the pattern is in too many paths. */
  ghost predicate FewHolders(keys: seq<Bytes>, pattern: Bytes) {
    forall i | 0 <= i && i + 3 <= |pattern| :: |Holders(keys, Window(pattern, i))| <= MAX_IDS_PER_TRIGRAM
  }

  lemma ShortLists(trigrams: map<Bytes, set<U32>>, keys: seq<Bytes>, pattern: Bytes)
    requires Indexes(trigrams, keys) && FewHolders(keys, pattern)
    ensures WithinCap(trigrams, pattern)
  {
    hide HasWindow, Window;
    forall i | 0 <= i && i + 3 <= |pattern| && Window(pattern, i) in trigrams
      ensures |trigrams[Window(pattern, i)]| <= MAX_IDS_PER_TRIGRAM
    {
      var w := Window(pattern, i);
      forall id: U32 ensures id in trigrams[w] <==> id in Holders(keys, w) {
        assert PathIndex.Has(trigrams, w, id) <==> id < |keys| && HasWindow(keys[id], w);
      }
      assert trigrams[w] == Holders(keys, w);
    }
  }

  /** The candidate ids: those of the pattern, narrowed to those of the suffix when there is one. */
  method Candidates(index: Index, q: Literal, ghost keys: seq<Bytes>) returns (r: Option<set<U32>>)
    requires IndexOver(index, keys) && |q.pattern| >= 3 && |keys| < 0x1_0000_0000
    ensures r.Some? ==> forall id | id in r.value :: id < |keys|
    ensures r.Some? ==> forall i | 0 <= i < |keys| && q.FindsPath(keys[i]) :: i in r.value
    ensures FewHolders(keys, q.pattern) ==> r.Some?
  {
    ghost var trigrams :| StandsFor(index, trigrams) && Indexes(trigrams, keys);
    if FewHolders(keys, q.pattern) {
      ShortLists(trigrams, keys, q.pattern);
    }
    hide StandsFor, Indexes, InAllWindows, WithinCap, Contains, FewHolders;
    var found := CandidatePathIds(index, q.pattern, trigrams);
    if found.Err? {
      return None;
    }
    var candidates := found.value.value;
    KnownCandidates(trigrams, keys, q.pattern, candidates);
    if q.HasSuffix() {
      var narrowed := CandidatePathIds(index, q.suffix.value, trigrams);
      if narrowed.Ok? && narrowed.value.Some? {
        KnownCandidates(trigrams, keys, q.suffix.value, narrowed.value.value);
        return Some(candidates * narrowed.value.value);
      }
    }
    return Some(candidates);
  }

  lemma KnownCandidates(trigrams: map<Bytes, set<U32>>, keys: seq<Bytes>, pattern: Bytes, candidates: set<U32>)
    requires Indexes(trigrams, keys) && |pattern| >= 3 && |keys| < 0x1_0000_0000
    requires forall id: U32 :: id in candidates <==> InAllWindows(trigrams, pattern, id)
    ensures forall id | id in candidates :: id < |keys|
    ensures forall i | 0 <= i < |keys| && Contains(keys[i], pattern) :: i in candidates
  {
    hide Indexes, InAllWindows, Contains;
    forall id | id in candidates ensures id < |keys| {
      CandidatesAreDocuments(trigrams, keys, pattern, id);
    }
    forall i | 0 <= i < |keys| && Contains(keys[i], pattern) ensures i in candidates {
      CandidatesComplete(trigrams, keys, pattern, i);
    }
  }

  /**
   * `search_path_trigram` for a pattern of at least three bytes. When it answers, the answer holds
   * exactly the recorded hits whose path is asked for and which pass every filter, each as often as
   * it was recorded. It gives up only when a trigram is in too many paths or the candidates are too many.
   */
  method SearchLiteral(index: Index, t: Table, q: Literal, codec: Codec, ghost log: seq<Hit>)
    returns (r: Result<Option<seq<Hit>>, TableError>)
    requires Consistent(index, t, codec, log) && |q.pattern| >= 3
    ensures r.Ok?
    ensures r.value.Some? ==> multiset(r.value.value) == multiset(Passing(log, h => q.Finds(h)))
    ensures FewHolders(PathList(log), q.pattern) && |PathList(log)| <= CANDIDATE_LIMIT ==> r.value.Some?
  {
    ghost var keys := PathList(log);
    FewKeys(t, codec, log);
    hide IndexOver, Tabled, LoggedPaths, Sorted, Behind, Passing, Lossless, FewHolders, PathList;
    var candidates := Candidates(index, q, keys);
    if candidates.None? {
      return Ok(None);
    }
    var bitmap := candidates.value;
    var ids := SortIds(bitmap);
    NothingMissed(log, keys, q, ids);
    if |bitmap| == 0 {
      NothingBehind(ids, keys, log, h => q.Finds(h));
      return Ok(Some([]));
    }
    FewIds(ids, keys);
    if |bitmap| > CANDIDATE_LIMIT {
      return Ok(None);
    }
    var found := SearchCandidates(t, ids, q, codec, log);
    return Ok(Some(found.value));
  }

  lemma FewKeys(t: Table, codec: Codec, log: seq<Hit>)
    requires Tabled(t, codec, log)
    ensures |PathList(log)| < 0x1_0000_0000
  {
  }

  lemma NothingBehind(ids: seq<U32>, keys: seq<Bytes>, log: seq<Hit>, keep: Hit -> bool)
    requires ids == []
    ensures Behind(ids, keys, log, keep) == []
  {
  }

  /** There are no more ids than paths. */
  lemma {:induction false} FewIds(ids: seq<U32>, keys: seq<Bytes>)
    requires AreIds(ids, keys)
    ensures |ids| <= |keys|
  {
    if ids != [] {
      IdsGrow(ids, |ids| - 1);
      assert ids[|ids| - 1] in ids;
    }
  }

  lemma {:induction false} IdsGrow(ids: seq<U32>, n: nat)
    requires Ascending(ids) && n < |ids|
    ensures ids[n] >= n
  {
    if n > 0 {
      IdsGrow(ids, n - 1);
    }
  }

  // ---------- short patterns ----------

  lemma {:induction false} DistinctCount(keys: seq<Bytes>)
    requires Sorted(keys)
    ensures |set k | k in keys| == |keys|
  {
    hide Less;
    if keys != [] {
      var n := |keys| - 1;
      DistinctCount(keys[..n]);
      forall i | 0 <= i < n ensures keys[i] != keys[n] {
        DistinctKeys(keys, i, n);
      }
      assert keys == keys[..n] + [keys[n]];
      assert (set k | k in keys) == (set k | k in keys[..n]) + {keys[n]};
    }
  }

  /** There are as many ids as paths. */
  lemma IdCount(t: Table, codec: Codec, log: seq<Hit>)
    requires Tabled(t, codec, log)
    ensures |t.ids| == |PathList(log)| < 0x1_0000_0000
  {
    var paths :| TabledFrom(t, codec, paths, log);
    var keys := PathList(log);
    var table, offsets :| HoldsWith(t, keys, Blobs(codec, paths, keys), table, offsets);
    DistinctCount(keys);
    assert t.ids.Keys == set k | k in keys;
  }

  /** The first ids, up to the given one. */
  function IdsBelow(n: nat): seq<U32>
    requires n <= 0x1_0000_0000
  {
    seq(n, i requires 0 <= i < n => i)
  }

  lemma NextId(id: nat)
    requires id < 0x1_0000_0000
    ensures IdsBelow(id + 1) == IdsBelow(id) + [id]
  {
  }

  lemma EveryId(keys: seq<Bytes>, q: Literal)
    requires |keys| <= 0x1_0000_0000
    ensures AreIds(IdsBelow(|keys|), keys) && Covers(IdsBelow(|keys|), keys, q)
  {
    var ids := IdsBelow(|keys|);
    forall i | 0 <= i < |keys| ensures i in ids {
      assert ids[i] == i;
    }
  }

  /** At most as many as asked for. */
  function Cut(hits: seq<Hit>, limit: Option<nat>): seq<Hit> {
    if limit.Some? && limit.value < |hits| then hits[..limit.value] else hits
  }

  /** What is behind the limit may be left out earlier as well. */
  lemma CutEarly(hits: seq<Hit>, more: seq<Hit>, limit: Option<nat>)
    ensures Cut(Cut(hits, limit) + more, limit) == Cut(hits + more, limit)
    ensures limit.Some? && |hits| >= limit.value ==> Cut(hits + more, limit) == Cut(hits, limit)
    ensures Cut(Cut(hits, limit), limit) == Cut(hits, limit)
  {
  }

  /** The hits behind the first ids are the first hits behind all of them. */
  lemma {:induction false} BehindGrows(n: nat, m: nat, keys: seq<Bytes>, log: seq<Hit>, keep: Hit -> bool)
    requires n <= m <= |keys| <= 0x1_0000_0000
    ensures (forall i | i in IdsBelow(n) :: i < |keys|) && (forall i | i in IdsBelow(m) :: i < |keys|)
    ensures exists more :: Behind(IdsBelow(m), keys, log, keep) == Behind(IdsBelow(n), keys, log, keep) + more
    decreases m
  {
    hide OnPath, Passing, Behind;
    if n == m {
      assert Behind(IdsBelow(m), keys, log, keep) == Behind(IdsBelow(n), keys, log, keep) + [];
    } else {
      BehindGrows(n, m - 1, keys, log, keep);
      NextId(m - 1);
      BehindNext(IdsBelow(m - 1), m - 1, keys, log, keep);
      var before := Behind(IdsBelow(n), keys, log, keep);
      var more :| Behind(IdsBelow(m - 1), keys, log, keep) == before + more;
      var last := Passing(OnPath(log, keys[m - 1]), keep);
      Assoc(before, more, last);
      assert Behind(IdsBelow(m), keys, log, keep) == before + (more + last);
    }
  }

  /** Once the limit is reached, later ids add nothing. */
  lemma LimitReached(n: nat, keys: seq<Bytes>, log: seq<Hit>, keep: Hit -> bool, limit: Option<nat>)
    requires n <= |keys| <= 0x1_0000_0000 && forall i | i in IdsBelow(n) :: i < |keys|
    requires limit.Some? && |Cut(Behind(IdsBelow(n), keys, log, keep), limit)| >= limit.value
    ensures forall i | i in IdsBelow(|keys|) :: i < |keys|
    ensures Cut(Behind(IdsBelow(|keys|), keys, log, keep), limit) == Cut(Behind(IdsBelow(n), keys, log, keep), limit)
  {
    hide Behind, IdsBelow;
    BehindGrows(n, |keys|, keys, log, keep);
    var before := Behind(IdsBelow(n), keys, log, keep);
    var more :| Behind(IdsBelow(|keys|), keys, log, keep) == before + more;
    CutEarly(before, more, limit);
  }

  /** One turn: the path of an id and its hits, up to the limit; a path that cannot be read is passed over. */
  method AddShort(t: Table, id: U32, results: seq<Hit>, q: Literal, codec: Codec, limit: Option<nat>, ghost log: seq<Hit>)
    returns (longer: seq<Hit>)
    requires Tabled(t, codec, log) && Lossless(codec) && id < |PathList(log)| && forall i | i in IdsBelow(id) :: i < |PathList(log)|
    requires results == Cut(Behind(IdsBelow(id), PathList(log), log, h => q.Finds(h)), limit)
    ensures var ids := IdsBelow(id + 1); forall i | i in ids :: i < |PathList(log)|
    ensures longer == Cut(Behind(IdsBelow(id + 1), PathList(log), log, h => q.Finds(h)), limit)
  {
    hide *;
    ghost var keep := (h: Hit) => q.Finds(h);
    NextId(id);
    BehindNext(IdsBelow(id), id, PathList(log), log, h => q.Finds(h));
    var found := SearchCandidate(t, id, q, codec, log);
    CutEarly(Behind(IdsBelow(id), PathList(log), log, h => q.Finds(h)),
             Passing(OnPath(log, PathList(log)[id]), h => q.Finds(h)), limit);
    longer := if found.Ok? then Cut(results + found.value, limit) else results;
  }

  lemma AllBehind(q: Literal, log: seq<Hit>)
    requires |PathList(log)| <= 0x1_0000_0000
    ensures var ids := IdsBelow(|PathList(log)|);
            && (forall i | i in ids :: i < |PathList(log)|)
            && multiset(Behind(ids, PathList(log), log, h => q.Finds(h))) == multiset(Passing(log, h => q.Finds(h)))
  {
    hide LoggedPaths, Behind, Passing, Ordered;
    EveryId(PathList(log), q);
    NothingMissed(log, PathList(log), q, IdsBelow(|PathList(log)|));
  }

  lemma NoneBehind(q: Literal, log: seq<Hit>, limit: Option<nat>)
    ensures (forall i | i in IdsBelow(0) :: i < |PathList(log)|)
    ensures [] == Cut(Behind(IdsBelow(0), PathList(log), log, h => q.Finds(h)), limit)
  {
    NothingBehind(IdsBelow(0), PathList(log), log, h => q.Finds(h));
  }

  /** `search_short_literal`: the paths of all ids, one after the other, until the limit is reached. */
  method SearchShort(t: Table, q: Literal, codec: Codec, limit: Option<nat>, ghost log: seq<Hit>)
    returns (results: seq<Hit>, ghost all: seq<Hit>)
    requires Tabled(t, codec, log) && Lossless(codec) && q.suffix.None?
    ensures results == Cut(all, limit) && multiset(all) == multiset(Passing(log, h => q.Finds(h)))
    ensures limit.None? ==> multiset(results) == multiset(Passing(log, h => q.Finds(h)))
  {
    hide *;
    IdCount(t, codec, log);
    AllBehind(q, log);
    NoneBehind(q, log, limit);
    results := [];
    all := Behind(IdsBelow(|PathList(log)|), PathList(log), log, h => q.Finds(h));
    for id := 0 to |t.ids|
      invariant forall i | i in IdsBelow(id) :: i < |PathList(log)|
      invariant results == Cut(Behind(IdsBelow(id), PathList(log), log, h => q.Finds(h)), limit)
    {
      if limit.Some? && |results| >= limit.value {
        LimitReached(id, PathList(log), log, h => q.Finds(h), limit);
        return;
      }
      results := AddShort(t, id, results, q, codec, limit, log);
    }
    CutNothing(all);
  }

  lemma CutNothing(hits: seq<Hit>)
    ensures Cut(hits, None) == hits
  {
  }

  /**
   * `search_path_trigram`, with either sidecar possibly missing. Whatever the length of the pattern,
   * an answer is, as a multiset, the recorded hits that are asked for. A short pattern may stop early at a limit.
   */
  method SearchPathTrigram(index: Option<Index>, table: Option<Table>, q: Literal, codec: Codec, limit: Option<nat>, ghost log: seq<Hit>)
    returns (r: Result<Option<seq<Hit>>, TableError>, ghost all: seq<Hit>)
    requires Lossless(codec) && (|q.pattern| < 3 ==> q.suffix.None?)
    requires (index.Some? ==> IndexOver(index.value, PathList(log))) && (table.Some? ==> Tabled(table.value, codec, log))
    ensures r.Ok?
    ensures index.None? || table.None? ==> r.value.None?
    ensures r.value.Some? ==> multiset(all) == multiset(Passing(log, h => q.Finds(h)))
                              && r.value.value == if |q.pattern| < 3 then Cut(all, limit) else all
    ensures index.Some? && table.Some? && FewHolders(PathList(log), q.pattern) && |PathList(log)| <= CANDIDATE_LIMIT ==> r.value.Some?
  {
    hide IndexOver, Tabled, PathList, Lossless, Passing, FewHolders;
    all := [];
    if index.None? || table.None? {
      return Ok(None), all;
    }
    if |q.pattern| < 3 {
      var found;
      found, all := SearchShort(table.value, q, codec, limit, log);
      return Ok(Some(found)), all;
    }
    r := SearchLiteral(index.value, table.value, q, codec, log);
    if r.value.Some? {
      all := r.value.value;
    }
  }
}
