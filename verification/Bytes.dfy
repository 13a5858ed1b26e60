/** Byte strings and the few operations on them that the on-disk formats need. */
module Bytes {
  import opened Wrappers

  type Byte = b: int | 0 <= b < 256

  type Bytes = seq<Byte>

  type U32 = n: int | 0 <= n < 0x1_0000_0000

  type U64 = n: int | 0 <= n < 0x1_0000_0000_0000_0000

  const NUL: Byte := 0
  const NEWLINE: Byte := 10

  // ---------- searching for one byte ----------

  /** `memchr`: the first position of `b`, or `|s|` when it does not occur. */
  function IndexOf(s: Bytes, b: Byte): (i: nat)
    ensures i <= |s|
    ensures b !in s[..i]
    ensures i < |s| ==> s[i] == b
  {
    if s == [] then 0
    else if s[0] == b then 0
    else
      var i := IndexOf(s[1..], b);
      assert s[..i + 1] == [s[0]] + s[1..][..i];
      i + 1
  }

  /** `memrchr`: the last position of `b`, if it occurs. */
  function LastIndexOf(s: Bytes, b: Byte): (r: Option<nat>)
    ensures r.None? <==> b !in s
    ensures r.Some? ==> r.value < |s| && s[r.value] == b && b !in s[r.value + 1..]
  {
    if s == [] then None
    else
      var n := |s| - 1;
      assert s == s[..n] + [s[n]];
      if s[n] == b then Some(n)
      else
        var r := LastIndexOf(s[..n], b);
        assert r.Some? ==> s[r.value + 1..] == s[..n][r.value + 1..] + [s[n]];
        r
  }

  /** The first position of a byte is the only one with nothing equal before it. */
  lemma IndexOfIs(s: Bytes, b: Byte, i: nat)
    requires i < |s| && s[i] == b && b !in s[..i]
    ensures IndexOf(s, b) == i
  {
    var j := IndexOf(s, b);
    assert forall k | 0 <= k < i :: s[..i][k] == s[k];
    assert forall k | 0 <= k < j :: s[..j][k] == s[k];
  }

  /** `validate_bytes`: neither of the two bytes that the stream format reserves. */
  predicate Clean(s: Bytes) {
    NUL !in s && NEWLINE !in s
  }

  /** A byte that does not occur from `n` on is at no later index. */
  lemma AbsentFrom(s: Bytes, n: nat, b: Byte)
    requires n <= |s| && b !in s[n..]
    ensures forall i | n <= i < |s| :: s[i] != b
  {
    assert forall i | n <= i < |s| :: s[i] == s[n..][i - n];
  }

  // ---------- regrouping concatenations ----------

  lemma Assoc<T>(a: seq<T>, b: seq<T>, c: seq<T>)
    ensures a + b + c == a + (b + c)
  {
  }

  lemma Assoc4<T>(a: seq<T>, b: seq<T>, c: seq<T>, d: seq<T>)
    ensures a + b + c + d == a + (b + c + d)
  {
  }

  lemma Assoc5<T>(a: seq<T>, b: seq<T>, c: seq<T>, d: seq<T>, e: seq<T>)
    ensures a + b + c + d + e == a + (b + c + d + e)
  {
    Assoc4(a, b, c, d);
    Assoc(a, b + c + d, e);
  }

  // ---------- prefixes and substrings ----------

  predicate StartsWith(s: Bytes, prefix: Bytes) {
    |prefix| <= |s| && s[..|prefix|] == prefix
  }

  predicate EndsWith(s: Bytes, suffix: Bytes) {
    |suffix| <= |s| && s[|s| - |suffix|..] == suffix
  }

  predicate OccursAt(s: Bytes, needle: Bytes, i: nat) {
    i + |needle| <= |s| && s[i..i + |needle|] == needle
  }

  /** `memmem::find(..).is_some()`. */
  predicate Contains(s: Bytes, needle: Bytes) {
    exists i | 0 <= i <= |s| :: OccursAt(s, needle, i)
  }

  // ---------- fixed-width little-endian integers ----------

  function U32Le(n: U32): (r: Bytes)
    ensures |r| == 4
  {
    var q1 := n / 256;
    var q2 := q1 / 256;
    var q3 := q2 / 256;
    [n % 256, q1 % 256, q2 % 256, q3]
  }

  /** The four bytes at `at`, or nothing when they run past the end. */
  function ReadU32Le(s: Bytes, at: nat): (r: Option<U32>)
    ensures r.Some? <==> at + 4 <= |s|
  {
    if at + 4 <= |s| then
      var b0: int, b1: int, b2: int, b3: int := s[at], s[at + 1], s[at + 2], s[at + 3];
      Some(b0 + 256 * b1 + 65536 * b2 + 16777216 * b3)
    else
      None
  }

  /** Reading back a little-endian word returns the number that was written. */
  lemma U32RoundTrip(s: Bytes, at: nat, n: U32)
    requires at + 4 <= |s| && s[at..at + 4] == U32Le(n)
    ensures ReadU32Le(s, at) == Some(n)
  {
    var w := U32Le(n);
    var t := s[at..at + 4];
    assert t[0] == s[at] && t[1] == s[at + 1] && t[2] == s[at + 2] && t[3] == s[at + 3];
  }
}
