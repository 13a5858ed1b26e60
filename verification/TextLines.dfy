/** Text as a list of lines, and the byte offsets at which they begin. */
module TextLines {
  import opened Bytes

  predicate IsLine(line: Bytes) {
    NEWLINE !in line
  }

  ghost predicate AreLines(lines: seq<Bytes>) {
    forall line | line in lines :: IsLine(line)
  }

  /** Every line followed by a newline. */
  function Join(lines: seq<Bytes>): Bytes {
    if lines == [] then [] else Join(lines[..|lines| - 1]) + lines[|lines| - 1] + [NEWLINE]
  }

  /** Where line `k` begins, or the end of the text for `k == |lines|`. */
  function Offset(lines: seq<Bytes>, k: nat): (n: nat)
    requires k <= |lines|
    ensures n == |Join(lines[..k])|
  {
    if k == 0 then 0
    else
      assert lines[..k][..k - 1] == lines[..k - 1];
      Offset(lines, k - 1) + |lines[k - 1]| + 1
  }

  lemma OffsetMonotone(lines: seq<Bytes>, i: nat, j: nat)
    requires i <= j <= |lines|
    ensures Offset(lines, i) <= Offset(lines, j)
    ensures i < j ==> Offset(lines, i + 1) <= Offset(lines, j)
    decreases j - i
  {
    if i < j {
      OffsetMonotone(lines, i, j - 1);
    }
  }

  lemma {:induction false} JoinConcat(a: seq<Bytes>, b: seq<Bytes>)
    ensures Join(a + b) == Join(a) + Join(b)
    decreases |b|
  {
    if b == [] {
      assert a + b == a;
    } else {
      var n := |b| - 1;
      JoinConcat(a, b[..n]);
      assert (a + b)[..|a| + n] == a + b[..n];
      hide Join;
      Assoc4(Join(a), Join(b[..n]), b[n], [NEWLINE]);
    }
  }

  /** Cutting a text at the start of a line cuts its lines. */
  lemma JoinAt(lines: seq<Bytes>, k: nat)
    requires k <= |lines|
    ensures Join(lines) == Join(lines[..k]) + Join(lines[k..])
    ensures Offset(lines, k) <= |Join(lines)|
    ensures Join(lines)[..Offset(lines, k)] == Join(lines[..k])
    ensures Join(lines)[Offset(lines, k)..] == Join(lines[k..])
  {
    hide Join;
    JoinConcat(lines[..k], lines[k..]);
    assert lines[..k] + lines[k..] == lines;
    CutConcat(Join(lines[..k]), Join(lines[k..]));
  }

  lemma CutConcat(a: Bytes, b: Bytes)
    ensures (a + b)[..|a|] == a && (a + b)[|a|..] == b
  {
  }

  /** Line `k` is found between its offset and the next. */
  lemma LineAt(lines: seq<Bytes>, k: nat)
    requires k < |lines|
    ensures Offset(lines, k + 1) <= |Join(lines)|
    ensures Join(lines)[Offset(lines, k)..Offset(lines, k + 1) - 1] == lines[k]
    ensures Join(lines)[Offset(lines, k + 1) - 1] == NEWLINE
  {
    JoinAt(lines, k + 1);
    assert lines[..k + 1][..k] == lines[..k];
    var head := Join(lines[..k + 1]);
    assert head == Join(lines[..k]) + lines[k] + [NEWLINE];
    assert Join(lines)[Offset(lines, k)..Offset(lines, k + 1) - 1] == head[Offset(lines, k)..|head| - 1];
  }

  lemma NoNewlineInside(lines: seq<Bytes>, k: nat)
    requires AreLines(lines) && k < |lines|
    ensures Offset(lines, k + 1) <= |Join(lines)|
    ensures forall i | Offset(lines, k) <= i < Offset(lines, k + 1) - 1 :: Join(lines)[i] != NEWLINE
  {
    LineAt(lines, k);
    var text := Join(lines);
    assert IsLine(lines[k]);
    assert forall i | Offset(lines, k) <= i < Offset(lines, k + 1) - 1 ::
        text[i] == lines[k][i - Offset(lines, k)] && lines[k][i - Offset(lines, k)] in lines[k];
  }

  /** A position inside line `k`: the newline before it ends line `k - 1`, the next one ends line `k`. */
  lemma LineBounds(lines: seq<Bytes>, k: nat, p: nat)
    requires AreLines(lines) && k < |lines| && Offset(lines, k) <= p < Offset(lines, k + 1)
    ensures p < |Join(lines)|
    ensures IndexOf(Join(lines)[p..], NEWLINE) == Offset(lines, k + 1) - 1 - p
    ensures var before := LastIndexOf(Join(lines)[..p], NEWLINE);
            (if before.None? then 0 else before.value + 1) == Offset(lines, k)
  {
    LineEndsBehind(lines, k, p);
    LineBeginsBefore(lines, k, p);
    hide *;
  }

  lemma LineEndsBehind(lines: seq<Bytes>, k: nat, p: nat)
    requires AreLines(lines) && k < |lines| && Offset(lines, k) <= p < Offset(lines, k + 1)
    ensures p < |Join(lines)|
    ensures IndexOf(Join(lines)[p..], NEWLINE) == Offset(lines, k + 1) - 1 - p
  {
    LineAt(lines, k);
    NoNewlineInside(lines, k);
    hide Join, Offset, IndexOf, AreLines;
    IndexOfIs(Join(lines)[p..], NEWLINE, Offset(lines, k + 1) - 1 - p);
  }

  lemma LineBeginsBefore(lines: seq<Bytes>, k: nat, p: nat)
    requires AreLines(lines) && k < |lines| && Offset(lines, k) <= p < Offset(lines, k + 1) && p <= |Join(lines)|
    ensures var before := LastIndexOf(Join(lines)[..p], NEWLINE);
            (if before.None? then 0 else before.value + 1) == Offset(lines, k)
  {
    hide IndexOf, LastIndexOf;
    var text := Join(lines);
    var first := Offset(lines, k);
    LineAt(lines, k);
    NoNewlineInside(lines, k);
    var before := LastIndexOf(text[..p], NEWLINE);
    if k > 0 {
      LineAt(lines, k - 1);
      assert text[..p][first - 1] == NEWLINE;
      AbsentFrom(text[..p], before.value + 1, NEWLINE);
    }
  }

  /** The cut of a text behind one of its newlines is the start of a line. */
  lemma {:induction false} CutIsOffset(lines: seq<Bytes>, n: nat) returns (k: nat)
    requires AreLines(lines) && n <= |Join(lines)| && (n == 0 || Join(lines)[n - 1] == NEWLINE)
    ensures k <= |lines| && Offset(lines, k) == n
    decreases |lines|
  {
    if n == 0 {
      k := 0;
    } else if n == |Join(lines)| {
      k := |lines|;
      assert lines[..k] == lines;
    } else {
      var m := |lines| - 1;
      NoNewlineInside(lines, m);
      assert lines[..|lines|] == lines;
      JoinAt(lines, m);
      assert Join(lines[..m])[n - 1] == Join(lines)[n - 1];
      k := CutIsOffset(lines[..m], n);
      OffsetOfPrefix(lines, m, k);
    }
  }

  lemma OffsetOfPrefix(lines: seq<Bytes>, m: nat, k: nat)
    requires k <= m <= |lines|
    ensures Offset(lines[..m], k) == Offset(lines, k)
  {
    assert lines[..m][..k] == lines[..k];
  }

  /** The part of a text between two line starts is the join of the lines between them. */
  lemma JoinBetween(lines: seq<Bytes>, i: nat, j: nat)
    requires i <= j <= |lines|
    ensures Offset(lines, i) <= Offset(lines, j) <= |Join(lines)|
    ensures Join(lines)[Offset(lines, i)..Offset(lines, j)] == Join(lines[i..j])
  {
    OffsetMonotone(lines, i, j);
    JoinAt(lines, j);
    JoinAt(lines[..j], i);
    OffsetOfPrefix(lines, j, i);
    assert lines[..j][i..] == lines[i..j];
    assert Join(lines)[Offset(lines, i)..Offset(lines, j)] == Join(lines)[..Offset(lines, j)][Offset(lines, i)..];
  }
}
