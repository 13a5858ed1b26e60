/**
 * Literals of a regex: the text that every match must begin with, and the text that it must end
 * with, read off the syntax tree.
 */
module RegexLiteral {
  import opened Wrappers
  import opened Bytes

  /** A literal character as UTF-8 bytes; other kinds are escapes that the extraction gives up on. */
  datatype LiteralKind = Verbatim | Meta | Escape

  /** The syntax without flags, as far as the extraction distinguishes it. */
  datatype Ast =
    | Empty
    | Literal(text: Bytes, kind: LiteralKind)
    | Class(members: Bytes -> bool)
    | Assertion(holds: (Bytes, nat, nat) -> bool)
    | Repetition(body: Ast, min: nat)
    | Group(inner: Ast)
    | Alternation(left: Ast, right: Ast)
    | Concat(items: Items)

  datatype Items = Nil | Cons(head: Ast, tail: Items)

  // ---------- what a regex matches ----------

  /** The tree matches the bytes of `s` from `i` to `j`, in a line of text on which assertions may look around. */
  ghost predicate Matches(ast: Ast, s: Bytes, i: nat, j: nat)
    decreases ast, 0
  {
    && i <= j <= |s|
    && match ast
       case Empty => i == j
       case Literal(text, _) => s[i..j] == text
       case Class(members) => members(s[i..j])
       case Assertion(holds) => i == j && holds(s, i, j)
       case Repetition(body, min) => exists n: nat :: n >= min && Repeats(body, n, s, i, j)
       case Group(inner) => Matches(inner, s, i, j)
       case Alternation(left, right) => Matches(left, s, i, j) || Matches(right, s, i, j)
       case Concat(items) => MatchesAll(items, s, i, j)
  }

  ghost predicate Repeats(body: Ast, n: nat, s: Bytes, i: nat, j: nat)
    decreases body, 1, n
  {
    && i <= j <= |s|
    && if n == 0 then i == j else exists k: nat :: i <= k <= j && Matches(body, s, i, k) && Repeats(body, n - 1, s, k, j)
  }

  ghost predicate MatchesAll(items: Items, s: Bytes, i: nat, j: nat)
    decreases items, 0
  {
    && i <= j <= |s|
    && match items
       case Nil => i == j
       case Cons(head, tail) => exists k: nat :: i <= k <= j && Matches(head, s, i, k) && MatchesAll(tail, s, k, j)
  }

  // ---------- the extraction ----------

  /** `literal_prefix_from_ast`. */
  function Prefix(ast: Ast): Option<Bytes> {
    match ast
    case Literal(text, kind) => if kind.Verbatim? || kind.Meta? then Some(text) else None
    case Concat(items) => Some(PrefixOf(items))
    case Group(inner) => Prefix(inner)
    case Assertion(_) => Some([])
    case _ => None
  }

  /** Collect from the first item on, up to the first that gives nothing. */
  function PrefixOf(items: Items): Bytes {
    match items
    case Nil => []
    case Cons(head, tail) =>
      match Prefix(head)
      case None => []
      case Some(text) => text + PrefixOf(tail)
  }

  /** `literal_suffix_from_ast`. */
  function Suffix(ast: Ast): Option<Bytes> {
    match ast
    case Literal(text, kind) => if kind.Verbatim? || kind.Meta? then Some(text) else None
    case Concat(items) => Some(SuffixOf(items).text)
    case Group(inner) => Suffix(inner)
    case Assertion(_) => Some([])
    case _ => None
  }

  /** What the items collect from the last on, and whether that reaches back to the first. */
  datatype Tail = Tail(text: Bytes, whole: bool)

  function SuffixOf(items: Items): Tail {
    match items
    case Nil => Tail([], true)
    case Cons(head, tail) =>
      var rest := SuffixOf(tail);
      if !rest.whole then rest
      else match Suffix(head)
        case None => Tail(rest.text, false)
        case Some(text) => Tail(text + rest.text, true)
  }

  // ---------- when the extraction is sound ----------

  /** Only literals that are taken as they are, and assertions: the text taken is the whole match. */
  predicate Plain(ast: Ast)
    decreases ast, 0
  {
    match ast
    case Literal(_, kind) => kind.Verbatim? || kind.Meta?
    case Assertion(_) => true
    case Group(inner) => Plain(inner)
    case Concat(items) => PlainAll(items)
    case _ => false
  }

  predicate PlainAll(items: Items)
    decreases items, 0
  {
    match items
    case Nil => true
    case Cons(head, tail) => Plain(head) && PlainAll(tail)
  }

  /** No text is appended behind an item of which only a part was taken. */
  predicate PrefixSafe(ast: Ast)
    decreases ast, 0
  {
    match ast
    case Group(inner) => PrefixSafe(inner)
    case Concat(items) => PrefixSafeAll(items)
    case _ => true
  }

  predicate PrefixSafeAll(items: Items)
    decreases items, 0
  {
    match items
    case Nil => true
    case Cons(head, tail) =>
      Prefix(head).Some? ==> PrefixSafe(head) && ((Plain(head) && PrefixSafeAll(tail)) || PrefixOf(tail) == [])
  }

  /** No text is put in front of items of which only a part was taken. */
  predicate SuffixSafe(ast: Ast)
    decreases ast, 0
  {
    match ast
    case Group(inner) => SuffixSafe(inner)
    case Concat(items) => SuffixSafeAll(items)
    case _ => true
  }

  predicate SuffixSafeAll(items: Items)
    decreases items, 0
  {
    match items
    case Nil => true
    case Cons(head, tail) =>
      && SuffixSafeAll(tail)
      && (SuffixOf(tail).whole && Suffix(head).Some? ==>
            SuffixSafe(head) && (PlainAll(tail) || Suffix(head).value == []))
  }

  /** A plain tree matches exactly the text taken from it, from either side. */
  lemma {:induction false} PlainMatches(ast: Ast, s: Bytes, i: nat, j: nat)
    requires Plain(ast) && Matches(ast, s, i, j)
    ensures Prefix(ast).Some? && Suffix(ast) == Prefix(ast) && s[i..j] == Prefix(ast).value
    decreases ast, 0
  {
    match ast
    case Literal(_, _) =>
    case Assertion(_) =>
    case Group(inner) => PlainMatches(inner, s, i, j);
    case Concat(items) => PlainMatchesAll(items, s, i, j);
  }

  lemma {:induction false} PlainMatchesAll(items: Items, s: Bytes, i: nat, j: nat)
    requires PlainAll(items) && MatchesAll(items, s, i, j)
    ensures SuffixOf(items) == Tail(PrefixOf(items), true) && s[i..j] == PrefixOf(items)
    decreases items, 0
  {
    match items
    case Nil =>
    case Cons(head, tail) =>
      var k: nat :| i <= k <= j && Matches(head, s, i, k) && MatchesAll(tail, s, k, j);
      PlainMatches(head, s, i, k);
      PlainMatchesAll(tail, s, k, j);
      assert s[i..j] == s[i..k] + s[k..j];
  }

  lemma StartsTrans(s: Bytes, i: nat, k: nat, j: nat, a: Bytes, b: Bytes)
    requires i <= k <= j <= |s|
    ensures StartsWith(s[i..k], a) ==> StartsWith(s[i..j], a)
    ensures s[i..k] == a && StartsWith(s[k..j], b) ==> StartsWith(s[i..j], a + b)
  {
    assert s[i..j] == s[i..k] + s[k..j];
    if StartsWith(s[i..k], a) {
      assert s[i..j][..|a|] == s[i..k][..|a|];
    }
    if s[i..k] == a && StartsWith(s[k..j], b) {
      assert s[i..j][..|a + b|] == a + s[k..j][..|b|];
    }
  }

  /** Every match begins with the extracted prefix. */
  lemma {:induction false} PrefixSound(ast: Ast, s: Bytes, i: nat, j: nat)
    requires PrefixSafe(ast) && Matches(ast, s, i, j) && Prefix(ast).Some?
    ensures StartsWith(s[i..j], Prefix(ast).value)
    decreases ast, 0
  {
    match ast
    case Literal(_, _) => assert s[i..j][..j - i] == s[i..j];
    case Assertion(_) => assert s[i..j][..0] == [];
    case Group(inner) => PrefixSound(inner, s, i, j);
    case Concat(items) => PrefixSoundAll(items, s, i, j);
  }

  lemma {:induction false} PrefixSoundAll(items: Items, s: Bytes, i: nat, j: nat)
    requires PrefixSafeAll(items) && MatchesAll(items, s, i, j)
    ensures StartsWith(s[i..j], PrefixOf(items))
    decreases items, 0
  {
    assert s[i..j][..0] == [];
    match items
    case Nil =>
    case Cons(head, tail) =>
      if Prefix(head).Some? {
        var k: nat :| i <= k <= j && Matches(head, s, i, k) && MatchesAll(tail, s, k, j);
        PrefixSound(head, s, i, k);
        if Plain(head) && PrefixSafeAll(tail) {
          PlainMatches(head, s, i, k);
          PrefixSoundAll(tail, s, k, j);
        }
        StartsTrans(s, i, k, j, Prefix(head).value, PrefixOf(tail));
        assert Prefix(head).value + [] == Prefix(head).value;
      }
  }

  lemma EndsTrans(s: Bytes, i: nat, k: nat, j: nat, a: Bytes, b: Bytes)
    requires i <= k <= j <= |s|
    ensures EndsWith(s[k..j], b) ==> EndsWith(s[i..j], b)
    ensures EndsWith(s[i..k], a) && s[k..j] == b ==> EndsWith(s[i..j], a + b)
  {
    hide *;
    Halves(s, i, k, j);
    EndOfLast(s[i..k], s[k..j], b);
    EndOfBoth(s[i..k], s[k..j], a);
  }

  lemma Halves(s: Bytes, i: nat, k: nat, j: nat)
    requires i <= k <= j <= |s|
    ensures s[i..j] == s[i..k] + s[k..j]
  {
  }

  lemma EndOfLast(x: Bytes, y: Bytes, b: Bytes)
    ensures EndsWith(y, b) ==> EndsWith(x + y, b)
  {
    if EndsWith(y, b) {
      assert (x + y)[|x| + |y| - |b|..] == y[|y| - |b|..];
    }
  }

  lemma EndOfBoth(x: Bytes, y: Bytes, a: Bytes)
    ensures EndsWith(x, a) ==> EndsWith(x + y, a + y)
  {
    if EndsWith(x, a) {
      assert (x + y)[|x| - |a|..] == x[|x| - |a|..] + y;
    }
  }

  /** Every match ends with the extracted suffix. */
  lemma {:induction false} SuffixSound(ast: Ast, s: Bytes, i: nat, j: nat)
    requires SuffixSafe(ast) && Matches(ast, s, i, j) && Suffix(ast).Some?
    ensures EndsWith(s[i..j], Suffix(ast).value)
    decreases ast, 0
  {
    match ast
    case Literal(_, _) => assert s[i..j][0..] == s[i..j];
    case Assertion(_) => assert s[i..j][j - i..] == [];
    case Group(inner) => SuffixSound(inner, s, i, j);
    case Concat(items) => SuffixSoundAll(items, s, i, j);
  }

  lemma {:induction false} SuffixSoundAll(items: Items, s: Bytes, i: nat, j: nat)
    requires SuffixSafeAll(items) && MatchesAll(items, s, i, j)
    ensures EndsWith(s[i..j], SuffixOf(items).text)
    decreases items, 0
  {
    hide EndsWith, Matches;
    EndsInNothing(s[i..j]);
    match items
    case Nil =>
    case Cons(head, tail) =>
      var k: nat :| i <= k <= j && Matches(head, s, i, k) && MatchesAll(tail, s, k, j);
      SuffixSoundAll(tail, s, k, j);
      var rest := SuffixOf(tail);
      if rest.whole && Suffix(head).Some? {
        SuffixSound(head, s, i, k);
        if PlainAll(tail) {
          PlainMatchesAll(tail, s, k, j);
        }
        EndsTrans(s, i, k, j, Suffix(head).value, rest.text);
        EmptyAdds(rest.text);
      } else {
        EndsTrans(s, i, k, j, [], rest.text);
      }
  }

  lemma EndsInNothing(s: Bytes)
    ensures EndsWith(s, [])
  {
    assert s[|s|..] == [];
  }

  lemma EmptyAdds(s: Bytes)
    ensures [] + s == s
  {
  }

  // ---------- what the search needs ----------

  /** The regex matches somewhere in the text. */
  ghost predicate Found(ast: Ast, s: Bytes) {
    exists i: nat, j: nat :: Matches(ast, s, i, j)
  }

  lemma StartOccurs(s: Bytes, i: nat, j: nat, part: Bytes)
    requires i <= j <= |s| && StartsWith(s[i..j], part)
    ensures Contains(s, part)
  {
    assert s[i..i + |part|] == s[i..j][..|part|];
    assert OccursAt(s, part, i);
  }

  lemma EndOccurs(s: Bytes, i: nat, j: nat, part: Bytes)
    requires i <= j <= |s| && EndsWith(s[i..j], part)
    ensures Contains(s, part)
  {
    assert s[j - |part|..j] == s[i..j][j - i - |part|..];
    assert OccursAt(s, part, j - |part|);
  }

  /** A text in which a safe regex is found contains the prefix and the suffix taken from it. */
  lemma FoundContains(ast: Ast, s: Bytes)
    requires PrefixSafe(ast) && SuffixSafe(ast) && Found(ast, s)
    ensures Prefix(ast).Some? ==> Contains(s, Prefix(ast).value)
    ensures Suffix(ast).Some? ==> Contains(s, Suffix(ast).value)
  {
    var i: nat, j: nat :| Matches(ast, s, i, j);
    if Prefix(ast).Some? {
      PrefixSound(ast, s, i, j);
      StartOccurs(s, i, j, Prefix(ast).value);
    }
    if Suffix(ast).Some? {
      SuffixSound(ast, s, i, j);
      EndOccurs(s, i, j, Suffix(ast).value);
    }
  }

  /** Groups hold only literals and assertions, and no concatenation stands directly in another. */
  predicate GroupsPlain(ast: Ast)
    decreases ast, 0
  {
    match ast
    case Group(inner) => Plain(inner)
    case Concat(items) => GroupsPlainAll(items)
    case _ => true
  }

  predicate GroupsPlainAll(items: Items)
    decreases items, 0
  {
    match items
    case Nil => true
    case Cons(head, tail) => !head.Concat? && GroupsPlain(head) && GroupsPlainAll(tail)
  }

  lemma {:induction false} PlainSafe(ast: Ast)
    requires Plain(ast)
    ensures PrefixSafe(ast) && SuffixSafe(ast) && Prefix(ast).Some? && Suffix(ast).Some?
    decreases ast, 0
  {
    match ast
    case Group(inner) => PlainSafe(inner);
    case Concat(items) => PlainSafeAll(items);
    case _ =>
  }

  lemma {:induction false} PlainSafeAll(items: Items)
    requires PlainAll(items)
    ensures PrefixSafeAll(items) && SuffixSafeAll(items)
    decreases items, 0
  {
    match items
    case Nil =>
    case Cons(head, tail) =>
      PlainSafe(head);
      PlainSafeAll(tail);
  }

  /** A regex whose groups are plain is safe from both ends. */
  lemma {:induction false} GroupsPlainSafe(ast: Ast)
    requires GroupsPlain(ast)
    ensures PrefixSafe(ast) && SuffixSafe(ast)
    decreases ast, 0
  {
    match ast
    case Group(inner) => PlainSafe(inner);
    case Concat(items) => GroupsPlainSafeAll(items);
    case _ =>
  }

  lemma {:induction false} GroupsPlainSafeAll(items: Items)
    requires GroupsPlainAll(items)
    ensures PrefixSafeAll(items) && SuffixSafeAll(items)
    ensures SuffixOf(items).whole ==> PlainAll(items)
    decreases items, 0
  {
    match items
    case Nil =>
    case Cons(head, tail) =>
      GroupsPlainSafe(head);
      GroupsPlainSafeAll(tail);
      assert SuffixOf(items).whole ==> Suffix(head).Some? && SuffixOf(tail).whole;
      if head.Group? {
        PlainSafe(head);
      }
      assert Suffix(head).Some? ==> Plain(head);
  }

  // ---------- when it is not ----------

  const A: Ast := Literal([97], Verbatim)
  const B: Ast := Literal([98], Verbatim)
  const C: Ast := Literal([99], Verbatim)
  const D: Ast := Literal([100], Verbatim)

  /** The regex `(ab*)cd`: the group gives only its `a`, and `cd` is appended to that. */
  const REPEATING_GROUP: Ast :=
    Concat(Cons(Group(Concat(Cons(A, Cons(Repetition(B, 0), Nil)))), Cons(C, Cons(D, Nil))))

  const ABCD: Bytes := [97, 98, 99, 100]

  lemma RepeatingGroupPrefix()
    ensures Prefix(REPEATING_GROUP) == Some([97, 99, 100]) && !PrefixSafe(REPEATING_GROUP)
  {
    assert PrefixOf(Cons(D, Nil)) == [100] + [];
    assert PrefixOf(Cons(C, Cons(D, Nil))) == [99] + [100] == [99, 100];
    var inner := Concat(Cons(A, Cons(Repetition(B, 0), Nil)));
    assert PrefixOf(Cons(Repetition(B, 0), Nil)) == [] && Prefix(inner) == Some([97] + []);
    var a: Bytes, nothing: Bytes := [97], [];
    assert a + nothing == a && Prefix(Group(inner)) == Some(a);
    var cd: Bytes, acd: Bytes := [99, 100], [97, 99, 100];
    assert PrefixOf(REPEATING_GROUP.items) == a + cd && a + cd == acd;
    assert !Plain(inner) && !Plain(Group(inner));
  }

  lemma NoAcdInside()
    ensures !Contains(ABCD, [97, 99, 100])
  {
    forall i | 0 <= i <= |ABCD| ensures !OccursAt(ABCD, [97, 99, 100], i) {
      if i + 3 <= |ABCD| {
        assert ABCD[i..i + 3][0] == ABCD[i] && ABCD[i..i + 3][1] == ABCD[i + 1];
      }
    }
  }

  lemma RepeatingGroupInside()
    ensures MatchesAll(Cons(A, Cons(Repetition(B, 0), Nil)), ABCD, 0, 2)
  {
    assert Matches(B, ABCD, 1, 2) && Repeats(B, 0, ABCD, 2, 2) && Repeats(B, 1, ABCD, 1, 2);
    assert Matches(Repetition(B, 0), ABCD, 1, 2) && MatchesAll(Nil, ABCD, 2, 2);
    assert MatchesAll(Cons(Repetition(B, 0), Nil), ABCD, 1, 2) && Matches(A, ABCD, 0, 1);
  }

  lemma RepeatingGroupBehind()
    ensures MatchesAll(Cons(C, Cons(D, Nil)), ABCD, 2, 4)
  {
    assert MatchesAll(Nil, ABCD, 4, 4) && Matches(D, ABCD, 3, 4);
    assert MatchesAll(Cons(D, Nil), ABCD, 3, 4) && Matches(C, ABCD, 2, 3);
  }

  /** It matches `abcd`, which does not contain the extracted prefix `acd`: the literal misses a match. */
  lemma RepeatingGroupMisses()
    ensures Prefix(REPEATING_GROUP) == Some([97, 99, 100])
    ensures Found(REPEATING_GROUP, ABCD) && !Contains(ABCD, [97, 99, 100])
  {
    RepeatingGroupPrefix();
    RepeatingGroupInside();
    RepeatingGroupBehind();
    NoAcdInside();
    hide Contains;
    assert Matches(Group(Concat(Cons(A, Cons(Repetition(B, 0), Nil)))), ABCD, 0, 2);
    assert Matches(REPEATING_GROUP, ABCD, 0, 4);
  }
}
