/** How a chunk of packages is cut into frames, and which frame each package lies in. */
module FrameRanges {
  import opened Wrappers
  import opened Sums

  datatype Range = Range(start: nat, end: nat)

  datatype Corrupt =
    | BoundaryOutOfOrder | TooManyFrames | BoundaryIndexOutOfRange | BoundaryOutsideFrame | FrameTooLong

  /** Ends of packages: strictly increasing from the first byte on, up to the whole length. */
  predicate AreBoundaries(boundaries: seq<nat>, total: nat) {
    && boundaries != [] && boundaries[0] > 0 && boundaries[|boundaries| - 1] == total
    && forall i, j | 0 <= i < j < |boundaries| :: boundaries[i] < boundaries[j]
  }

  /** Consecutive non-empty ranges from 0 to `end`. */
  predicate Tiles(ranges: seq<Range>, end: nat) {
    && (if ranges == [] then end == 0 else ranges[0].start == 0 && ranges[|ranges| - 1].end == end)
    && (forall k | 0 <= k < |ranges| :: ranges[k].start < ranges[k].end)
    && (forall k | 0 < k < |ranges| :: ranges[k - 1].end == ranges[k].start)
  }

  /** The range ends with a package, and no package inside it already reaches the target. */
  predicate CutAtFirst(range: Range, boundaries: seq<nat>, target: nat) {
    range.end in boundaries && forall b | b in boundaries && range.start < b < range.end :: b - range.start < target
  }

  predicate Reaches(range: Range, target: nat) {
    range.start + target <= range.end
  }

  /** Every range is cut at the first package that makes it large enough; only the last may be smaller. */
  predicate Greedy(ranges: seq<Range>, boundaries: seq<nat>, target: nat) {
    && (forall range | range in ranges :: CutAtFirst(range, boundaries, target))
    && (forall k | 0 <= k < |ranges| - 1 :: Reaches(ranges[k], target))
  }

  function Target(total: nat, parallelism: nat): (t: nat)
    requires parallelism > 0
    ensures t >= 1
  {
    if total / parallelism > 1 then total / parallelism else 1
  }

  /** The state of the loop: full ranges so far, and nothing large enough behind them. */
  ghost predicate CutSoFar(ranges: seq<Range>, boundaries: seq<nat>, target: nat, i: nat, start: nat) {
    && i <= |boundaries|
    && Tiles(ranges, start)
    && (forall range | range in ranges :: CutAtFirst(range, boundaries, target) && Reaches(range, target))
    && (i == 0 ==> start == 0)
    && (i > 0 ==> start <= boundaries[i - 1])
    && (forall j | 0 <= j < i :: boundaries[j] <= start || boundaries[j] - start < target)
  }

  lemma TilesMore(ranges: seq<Range>, start: nat, end: nat)
    requires Tiles(ranges, start) && start < end
    ensures Tiles(ranges + [Range(start, end)], end)
  {
  }

  lemma CutsFirst(boundaries: seq<nat>, target: nat, i: nat, start: nat, total: nat)
    requires AreBoundaries(boundaries, total) && i < |boundaries| && start < boundaries[i]
    requires forall j | 0 <= j < i :: boundaries[j] <= start || boundaries[j] - start < target
    ensures CutAtFirst(Range(start, boundaries[i]), boundaries, target)
  {
    assert boundaries[i] in boundaries;
    forall b | b in boundaries && start < b < boundaries[i] ensures b - start < target {
      var j :| 0 <= j < |boundaries| && boundaries[j] == b;
      assert j < i;
    }
  }

  lemma CutHere(ranges: seq<Range>, boundaries: seq<nat>, target: nat, i: nat, start: nat, total: nat)
    requires CutSoFar(ranges, boundaries, target, i, start) && AreBoundaries(boundaries, total) && i < |boundaries|
    requires target > 0 && boundaries[i] - start >= target
    ensures CutSoFar(ranges + [Range(start, boundaries[i])], boundaries, target, i + 1, boundaries[i])
  {
    CutsFirst(boundaries, target, i, start, total);
    TilesMore(ranges, start, boundaries[i]);
    hide AreBoundaries, CutAtFirst, Tiles;
    assert forall j | 0 <= j < i :: boundaries[j] <= boundaries[i] by { Increasing(boundaries, i, total); }
  }

  lemma Increasing(boundaries: seq<nat>, i: nat, total: nat)
    requires AreBoundaries(boundaries, total) && i < |boundaries|
    ensures boundaries[i] <= total
    ensures forall j | 0 <= j < i :: boundaries[j] <= boundaries[i]
  {
  }

  lemma CutRest(ranges: seq<Range>, boundaries: seq<nat>, target: nat, start: nat, total: nat)
    requires CutSoFar(ranges, boundaries, target, |boundaries|, start) && AreBoundaries(boundaries, total)
    ensures start <= total
    ensures var all := if start < total then ranges + [Range(start, total)] else ranges;
            Tiles(all, total) && Greedy(all, boundaries, target)
  {
    Increasing(boundaries, |boundaries| - 1, total);
    if start < total {
      CutsFirst(boundaries, target, |boundaries| - 1, start, total);
      TilesMore(ranges, start, total);
      var all := ranges + [Range(start, total)];
      assert forall k | 0 <= k < |all| - 1 :: all[k] == ranges[k] && ranges[k] in ranges;
    } else {
      assert forall k | 0 <= k < |ranges| - 1 :: ranges[k] in ranges;
    }
  }

  lemma {:induction false} FullRanges(ranges: seq<Range>, end: nat, target: nat, n: nat)
    requires Tiles(ranges, end) && n < |ranges|
    requires forall k | 0 <= k < n :: Reaches(ranges[k], target)
    ensures Times(target, n) <= ranges[n].start
  {
    if n > 0 {
      FullRanges(ranges, end, target, n - 1);
      assert ranges[n - 1].end == ranges[n].start;
    }
  }

  lemma {:induction false} TimesAdd(a: nat, b: nat, t: nat)
    ensures Times(t, a + b) == Times(t, a) + Times(t, b)
  {
    if b > 0 {
      TimesAdd(a, b - 1, t);
    }
  }

  lemma {:induction false} TimesGrows(n: nat, s: nat, t: nat)
    requires s <= t
    ensures Times(s, n) <= Times(t, n) && Times(s, n) == n * s
  {
    if n > 0 {
      TimesGrows(n - 1, s, t);
    }
  }

  /** That many full ranges hold the whole chunk. */
  lemma TimesLarge(total: nat, parallelism: nat, n: nat)
    requires parallelism > 0 && n >= 2 * parallelism - 1
    ensures Times(Target(total, parallelism), n) >= total
  {
    var t, quotient := Target(total, parallelism), total / parallelism;
    assert t >= quotient && t >= 1;
    Divided(total, parallelism);
    hide *;
    TimesLargeEnough(t, quotient, parallelism, n, total);
  }

  lemma TimesLargeEnough(t: nat, quotient: nat, parallelism: nat, n: nat, total: nat)
    requires t >= quotient && t >= 1 && n >= 2 * parallelism - 1 && n >= parallelism > 0
    requires total < parallelism * quotient + parallelism
    ensures Times(t, n) >= total
  {
    hide *;
    TimesAdd(parallelism, n - parallelism, t);
    TimesGrows(parallelism, quotient, t);
    TimesGrows(n - parallelism, 1, t);
  }

  /** The target is the largest size of which the chunk holds one for each processor, and at least one byte. */
  lemma TargetIs(total: nat, parallelism: nat)
    requires parallelism > 0
    ensures var t := Target(total, parallelism);
            if total < parallelism then t == 1 else parallelism * t <= total < parallelism * (t + 1)
  {
    Divided(total, parallelism);
    if total < parallelism {
      SmallQuotient(total, parallelism);
    } else {
      Distribute(parallelism, total / parallelism);
    }
  }

  lemma SmallQuotient(total: nat, parallelism: nat)
    requires total < parallelism
    ensures total / parallelism == 0
  {
  }

  lemma Distribute(n: nat, q: nat)
    ensures n * (q + 1) == n * q + n
  {
  }

  lemma Divided(total: nat, parallelism: nat)
    requires parallelism > 0
    ensures parallelism * (total / parallelism) <= total < parallelism * (total / parallelism) + parallelism
    ensures total >= parallelism ==> total / parallelism >= 1
  {
    assert total == parallelism * (total / parallelism) + total % parallelism;
  }

  /** There are fewer than twice as many ranges as there are processors. */
  lemma FewRanges(ranges: seq<Range>, boundaries: seq<nat>, total: nat, parallelism: nat)
    requires parallelism > 0 && total > 0
    requires Tiles(ranges, total) && Greedy(ranges, boundaries, Target(total, parallelism))
    ensures |ranges| <= 2 * parallelism - 1
  {
    var n := |ranges| - 1;
    FullRanges(ranges, total, Target(total, parallelism), n);
    assert ranges[n].start < ranges[n].end == total;
    if n >= 2 * parallelism - 1 {
      TimesLarge(total, parallelism, n);
    }
  }

  /** The ranges into which a chunk with these boundaries is cut. */
  ghost predicate IsCut(ranges: seq<Range>, boundaries: seq<nat>, total: nat, parallelism: nat)
    requires parallelism > 0
  {
    Tiles(ranges, total) && Greedy(ranges, boundaries, Target(total, parallelism))
  }

  /** A full range and one that is cut at the first package cannot begin together and end apart. */
  lemma NotShorter(a: seq<Range>, b: seq<Range>, boundaries: seq<nat>, total: nat, target: nat, k: nat)
    requires Tiles(a, total) && Greedy(a, boundaries, target) && Tiles(b, total) && Greedy(b, boundaries, target)
    requires k < |a| && k < |b| && a[k].start == b[k].start
    ensures a[k].end >= b[k].end
  {
    hide Tiles;
    assert a[k] in a && b[k] in b;
    TilesInside(a, total, k);
    TilesInside(b, total, k);
  }

  lemma {:induction false} TilesInside(ranges: seq<Range>, end: nat, k: nat)
    requires Tiles(ranges, end) && k < |ranges|
    ensures ranges[k].start < ranges[k].end <= end && (k == |ranges| - 1 ==> ranges[k].end == end)
    decreases |ranges| - k
  {
    if k < |ranges| - 1 {
      TilesInside(ranges, end, k + 1);
      assert ranges[k].end == ranges[k + 1].start;
    }
  }

  lemma {:induction false} SameUpTo(a: seq<Range>, b: seq<Range>, boundaries: seq<nat>, total: nat, target: nat, n: nat)
    requires Tiles(a, total) && Greedy(a, boundaries, target) && Tiles(b, total) && Greedy(b, boundaries, target)
    requires n <= |a| && n <= |b|
    ensures a[..n] == b[..n]
  {
    if n > 0 {
      var k := n - 1;
      SameUpTo(a, b, boundaries, total, target, k);
      if k > 0 {
        assert a[k - 1] == a[..k][k - 1] && b[k - 1] == b[..k][k - 1];
      }
      NotShorter(a, b, boundaries, total, target, k);
      NotShorter(b, a, boundaries, total, target, k);
      assert a[..n] == a[..k] + [a[k]] && b[..n] == b[..k] + [b[k]];
    }
  }

  /** Of two lists of consecutive ranges to the same end neither goes on where the other stops. */
  lemma NotLonger(a: seq<Range>, b: seq<Range>, total: nat)
    requires Tiles(a, total) && Tiles(b, total) && |a| <= |b| && b[..|a|] == a
    ensures a == b
  {
    if |a| < |b| {
      TilesInside(b, total, |a|);
      assert false;
    }
  }

  /** There is only one way to cut a chunk. */
  lemma OneCut(a: seq<Range>, b: seq<Range>, boundaries: seq<nat>, total: nat, parallelism: nat)
    requires parallelism > 0 && IsCut(a, boundaries, total, parallelism) && IsCut(b, boundaries, total, parallelism)
    ensures a == b
  {
    hide Tiles, Greedy, Target;
    var n := if |a| < |b| then |a| else |b|;
    SameUpTo(a, b, boundaries, total, Target(total, parallelism), n);
    if |a| <= |b| {
      NotLonger(a, b, total);
    } else {
      NotLonger(b, a, total);
    }
  }

  /**
   * `frame_ranges`. Package boundaries give consecutive ranges over the whole chunk, each cut at the
   * first package that reaches the target size. The only error is a boundary before an earlier one.
   */
  method CutFrames(total: nat, boundaries: seq<nat>, parallelism: nat) returns (r: Result<seq<Range>, Corrupt>)
    requires parallelism > 0
    ensures total == 0 || boundaries == [] ==> r == Ok([])
    ensures r.Err? ==> r.error == BoundaryOutOfOrder && exists i, j :: 0 <= i < j < |boundaries| && boundaries[j] < boundaries[i]
    ensures total > 0 && AreBoundaries(boundaries, total) ==>
              && r.Ok? && Tiles(r.value, total) && Greedy(r.value, boundaries, Target(total, parallelism))
              && |r.value| <= 2 * parallelism - 1
  {
    if total == 0 || boundaries == [] {
      return Ok([]);
    }
    var target := Target(total, parallelism);
    var ranges: seq<Range> := [];
    var start := 0;
    ghost var ordered := AreBoundaries(boundaries, total);
    for i := 0 to |boundaries|
      invariant start == 0 || start in boundaries[..i]
      invariant ordered ==> CutSoFar(ranges, boundaries, target, i, start)
    {
      var end := boundaries[i];
      assert boundaries[..i + 1][i] == end && boundaries[..i + 1][..i] == boundaries[..i];
      if end < start {
        assert start in boundaries[..i];
        return Err(BoundaryOutOfOrder);
      }
      if end - start >= target {
        if ordered {
          CutHere(ranges, boundaries, target, i, start, total);
        }
        ranges := ranges + [Range(start, end)];
        start := end;
      }
    }
    if ordered {
      CutRest(ranges, boundaries, target, start, total);
    }
    if start < total {
      ranges := ranges + [Range(start, total)];
    }
    if ordered {
      FewRanges(ranges, boundaries, total, parallelism);
    }
    return Ok(ranges);
  }
}
