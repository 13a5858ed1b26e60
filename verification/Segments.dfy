/** How a download is split into byte ranges. */
module Segments {
  import opened FrameRanges
  import opened Sums

  const MIN_SEGMENT_BYTES := 0x10_0000

  /** An inclusive byte range. */
  datatype Segment = Segment(start: nat, end: nat)
  {
    function Size(): int { end - start + 1 }
  }

  /** `max_conn` connections, but no more than the size calls for. */
  function SegmentCount(total: nat, maxConn: nat): (n: nat)
    ensures n >= 1
  {
    var bySize := if total == 0 then 1 else (total + MIN_SEGMENT_BYTES - 1) / MIN_SEGMENT_BYTES;
    var wanted := if maxConn > 1 then maxConn else 1;
    if wanted < bySize then wanted else bySize
  }

  /** Consecutive non-empty ranges from 0 up to, but not including, `end`. */
  predicate Cover(segments: seq<Segment>, end: nat) {
    && (if segments == [] then end == 0 else segments[0].start == 0 && segments[|segments| - 1].end + 1 == end)
    && (forall i | 0 <= i < |segments| :: segments[i].start <= segments[i].end)
    && (forall i | 0 < i < |segments| :: segments[i].start == segments[i - 1].end + 1)
  }

  /** The ranges differ in size by at most one byte, and the larger ones come first. */
  predicate Even(segments: seq<Segment>, total: nat) {
    forall i | 0 <= i < |segments| ::
      segments[i].Size() == total / |segments| + if i < total % |segments| then 1 else 0
  }

  /** `plan_segments`: nothing for an empty file, and otherwise ranges that cover it, larger ones first. */
  method PlanSegments(total: nat, maxConn: nat) returns (segments: seq<Segment>)
    ensures Planned(segments, total, maxConn)
  {
    hide SegmentCount, CutInto, Planned, Cover, Even;
    segments := [];
    if total == 0 {
      NothingPlanned(maxConn);
      return;
    }
    CountIs(total, maxConn);
    var bySize := (total + MIN_SEGMENT_BYTES - 1) / MIN_SEGMENT_BYTES;
    var n := if (if maxConn > 1 then maxConn else 1) < bySize then (if maxConn > 1 then maxConn else 1) else bySize;
    var chunk, remainder := total / n, total % n;
    ChunkIsPositive(total, maxConn);
    var start: nat := 0;
    NothingCut(chunk, remainder);
    for i := 0 to n
      invariant CutInto(segments, chunk, remainder, i, start)
    {
      var extra := if i < remainder then 1 else 0;
      var end := start + chunk + extra;
      CutOneMore(segments, chunk, remainder, i, start);
      segments := segments + [Segment(start, end - 1)];
      start := end;
    }
    AllCut(segments, total, maxConn, start);
  }

  /** The first `i` ranges are cut. */
  ghost predicate CutInto(segments: seq<Segment>, chunk: nat, remainder: nat, i: nat, start: nat) {
    && |segments| == i && Cover(segments, start)
    && start == Times(chunk, i) + (if i < remainder then i else remainder)
    && forall k | 0 <= k < i :: segments[k].Size() == chunk + if k < remainder then 1 else 0
  }

  lemma NothingPlanned(maxConn: nat)
    ensures Planned([], 0, maxConn)
  {
  }

  lemma CountIs(total: nat, maxConn: nat)
    requires total > 0
    ensures var bySize, wanted := (total + MIN_SEGMENT_BYTES - 1) / MIN_SEGMENT_BYTES, if maxConn > 1 then maxConn else 1;
            SegmentCount(total, maxConn) == if wanted < bySize then wanted else bySize
  {
  }

  lemma NothingCut(chunk: nat, remainder: nat)
    ensures CutInto([], chunk, remainder, 0, 0)
  {
  }

  lemma CutOneMore(segments: seq<Segment>, chunk: nat, remainder: nat, i: nat, start: nat)
    requires CutInto(segments, chunk, remainder, i, start) && chunk >= 1
    ensures var end := start + chunk + if i < remainder then 1 else 0;
            CutInto(segments + [Segment(start, end - 1)], chunk, remainder, i + 1, end)
  {
    CoverMore(segments, start, start + chunk + if i < remainder then 1 else 0);
  }

  lemma AllCut(segments: seq<Segment>, total: nat, maxConn: nat, start: nat)
    requires total > 0
    requires var n := SegmentCount(total, maxConn); CutInto(segments, total / n, total % n, n, start)
    ensures Planned(segments, total, maxConn)
  {
    hide SegmentCount;
    var n := SegmentCount(total, maxConn);
    TimesGrows(n, total / n, total / n);
    Whole(total, n);
  }

  /** The ranges are what is planned for a file of this size. */
  predicate Planned(segments: seq<Segment>, total: nat, maxConn: nat) {
    Cover(segments, total) && Even(segments, total) && |segments| == if total == 0 then 0 else SegmentCount(total, maxConn)
  }

  lemma CoverMore(segments: seq<Segment>, start: nat, end: nat)
    requires Cover(segments, start) && start < end
    ensures Cover(segments + [Segment(start, end - 1)], end)
  {
  }

  lemma Whole(total: nat, n: nat)
    requires n > 0
    ensures n * (total / n) + total % n == total && total % n < n
  {
  }

  /** With that many segments each gets at least a given size exactly when together they fit. */
  lemma Quotient(total: nat, n: nat, size: nat)
    requires n > 0
    ensures total / n >= size <==> n * size <= total
  {
    var q := total / n;
    Whole(total, n);
    if q >= size {
      MulGrows(n, size, q);
    } else {
      MulGrows(n, q + 1, size);
      assert n * (q + 1) == n * q + n;
    }
  }

  lemma MulGrows(n: nat, a: nat, b: nat)
    requires a <= b
    ensures n * a <= n * b
  {
  }

  lemma ChunkIsPositive(total: nat, maxConn: nat)
    requires total > 0
    ensures total / SegmentCount(total, maxConn) >= 1
  {
    Quotient(total, SegmentCount(total, maxConn), 1);
  }

  /** The smallest of the planned ranges is the last one. */
  lemma SmallestRange(segments: seq<Segment>, total: nat, maxConn: nat)
    requires Planned(segments, total, maxConn) && total > 0
    ensures forall i | 0 <= i < |segments| :: segments[i].Size() >= total / |segments|
    ensures segments[|segments| - 1].Size() == total / |segments|
  {
    Whole(total, |segments|);
  }

  /** With two ranges or more, each holds at least half of the nominal minimum. */
  lemma HalfTheMinimum(segments: seq<Segment>, total: nat, maxConn: nat)
    requires Planned(segments, total, maxConn) && |segments| >= 2
    ensures forall i | 0 <= i < |segments| :: segments[i].Size() >= MIN_SEGMENT_BYTES / 2
  {
    SmallestRange(segments, total, maxConn);
    HalfIsLeft(total, maxConn);
  }

  lemma HalfIsLeft(total: nat, maxConn: nat)
    requires total > 0 && SegmentCount(total, maxConn) >= 2
    ensures total / SegmentCount(total, maxConn) >= MIN_SEGMENT_BYTES / 2
  {
    Quotient(total, SegmentCount(total, maxConn), MIN_SEGMENT_BYTES / 2);
  }

  /**
   * The documented minimum, that every range is that large unless there is only one, holds exactly
   * when there is one connection, or one range, or no odd part, or few enough connections.
   */
  lemma DocumentedMinimum(segments: seq<Segment>, total: nat, maxConn: nat)
    requires Planned(segments, total, maxConn)
    ensures |segments| <= 1 || (forall i | 0 <= i < |segments| :: segments[i].Size() >= MIN_SEGMENT_BYTES) <==>
            maxConn <= 1 || total <= MIN_SEGMENT_BYTES || total % MIN_SEGMENT_BYTES == 0 || maxConn <= total / MIN_SEGMENT_BYTES
  {
    if total > 0 {
      SmallestRange(segments, total, maxConn);
      MinimumOfCount(total, maxConn);
    }
  }

  lemma MinimumOfCount(total: nat, maxConn: nat)
    requires total > 0
    ensures SegmentCount(total, maxConn) == 1 || total / SegmentCount(total, maxConn) >= MIN_SEGMENT_BYTES <==>
            maxConn <= 1 || total <= MIN_SEGMENT_BYTES || total % MIN_SEGMENT_BYTES == 0 || maxConn <= total / MIN_SEGMENT_BYTES
  {
    Quotient(total, SegmentCount(total, maxConn), MIN_SEGMENT_BYTES);
  }

  /** One byte more than the minimum over two connections gives two ranges, both of about half of it. */
  lemma DocumentedMinimumFails(segments: seq<Segment>)
    requires Planned(segments, MIN_SEGMENT_BYTES + 1, 2)
    ensures |segments| == 2 && segments[0].Size() == MIN_SEGMENT_BYTES / 2 + 1 && segments[1].Size() == MIN_SEGMENT_BYTES / 2
  {
    assert (MIN_SEGMENT_BYTES + 1 + MIN_SEGMENT_BYTES - 1) / MIN_SEGMENT_BYTES == 2;
  }
}
