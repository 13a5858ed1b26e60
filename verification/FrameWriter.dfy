/**
 * The database writer: packages collect in a chunk, a flush cuts the chunk into compressed frames
 * and records for every package which frame it lies in.
 */
module FrameWriter {
  import opened Wrappers
  import opened Bytes
  import opened FrcodeStream
  import opened FrameRanges

  const MAX_FRAME_COUNT := 0x10_0000
  const U32_LIMIT := 0x1_0000_0000

  // ---------- chunks as lists of packages ----------

  /** The end of every package in the concatenation of all. */
  function Ends(pieces: seq<Bytes>): (r: seq<nat>)
    ensures |r| == |pieces|
  {
    if pieces == [] then [] else Ends(pieces[..|pieces| - 1]) + [|Concat(pieces)|]
  }

  predicate NonEmpty(pieces: seq<Bytes>) {
    forall p | p in pieces :: p != []
  }

  lemma {:induction false} EndAt(pieces: seq<Bytes>, i: nat)
    requires i < |pieces|
    ensures Ends(pieces)[i] == |Concat(pieces[..i + 1])|
  {
    var n := |pieces| - 1;
    if i < n {
      EndAt(pieces[..n], i);
      assert pieces[..n][..i + 1] == pieces[..i + 1];
    } else {
      assert pieces[..i + 1] == pieces;
    }
  }

  lemma {:induction false} ConcatAppend(a: seq<Bytes>, b: seq<Bytes>)
    ensures Concat(a + b) == Concat(a) + Concat(b)
    decreases |b|
  {
    if b == [] {
      assert a + b == a;
    } else {
      var n := |b| - 1;
      assert (a + b)[..|a| + n] == a + b[..n];
      ConcatAppend(a, b[..n]);
      Assoc(Concat(a), Concat(b[..n]), b[n]);
    }
  }

  /** The ends of non-empty packages are the boundaries of their chunk. */
  lemma {:induction false} EndsAreBoundaries(pieces: seq<Bytes>)
    requires NonEmpty(pieces) && pieces != []
    ensures AreBoundaries(Ends(pieces), |Concat(pieces)|)
  {
    var n := |pieces| - 1;
    if n > 0 {
      assert forall p | p in pieces[..n] :: p in pieces;
      EndsAreBoundaries(pieces[..n]);
    } else {
      assert Concat(pieces[..n]) == [];
    }
    assert pieces[n] in pieces;
  }

  /** Where package `i` begins. */
  function Begin(pieces: seq<Bytes>, i: nat): nat
    requires i <= |pieces|
  {
    if i == 0 then 0 else Ends(pieces)[i - 1]
  }

  /** Between two package starts lie exactly those packages. */
  lemma SliceOfPieces(pieces: seq<Bytes>, i: nat, j: nat)
    requires i <= j <= |pieces|
    ensures Begin(pieces, i) <= Begin(pieces, j) <= |Concat(pieces)|
    ensures Concat(pieces)[Begin(pieces, i)..Begin(pieces, j)] == Concat(pieces[i..j])
  {
    hide *;
    BeginIs(pieces, i);
    BeginIs(pieces, j);
    assert pieces[..j] == pieces[..i] + pieces[i..j] && pieces == pieces[..j] + pieces[j..];
    ConcatAppend(pieces[..i], pieces[i..j]);
    ConcatAppend(pieces[..j], pieces[j..]);
    MiddlePart(Concat(pieces[..i]), Concat(pieces[i..j]), Concat(pieces[j..]));
  }

  lemma MiddlePart(a: Bytes, b: Bytes, c: Bytes)
    ensures (a + b + c)[|a|..|a + b|] == b
  {
  }

  lemma BeginIs(pieces: seq<Bytes>, i: nat)
    requires i <= |pieces|
    ensures Begin(pieces, i) == |Concat(pieces[..i])|
  {
    if i > 0 {
      EndAt(pieces, i - 1);
    }
  }

  // ---------- which frame a package lies in ----------

  /** Package `i` ends inside its frame: behind the start, and at the latest at the end. */
  predicate InFrame(frames: seq<Range>, boundary: nat, frame: int) {
    0 <= frame < |frames| && frames[frame].start < boundary <= frames[frame].end
  }

  /** The first packages are each mapped to the frame they lie in, counted from `base`. */
  ghost predicate Mapped(map_: seq<U32>, base: nat, frames: seq<Range>, boundaries: seq<nat>) {
    |map_| <= |boundaries| && forall i | 0 <= i < |map_| :: InFrame(frames, boundaries[i], map_[i] - base)
  }

  /** Map every package to the frame it lies in. */
  method MapFrames(frames: seq<Range>, boundaries: seq<nat>, base: nat, ghost total: nat)
    returns (r: Result<(), Corrupt>, frameMap: seq<U32>)
    requires AreBoundaries(boundaries, total) && Tiles(frames, total)
    ensures r.Ok? ==> |frameMap| == |boundaries| && Mapped(frameMap, base, frames, boundaries)
    ensures base + |frames| <= U32_LIMIT ==> r.Ok?
  {
    hide AreBoundaries, Tiles, Mapped, InFrame;
    frameMap := [];
    NothingMapped(base, frames, boundaries, total);
    var next := 0;
    for k := 0 to |frames|
      invariant next == |frameMap| <= |boundaries| && Mapped(frameMap, base, frames, boundaries)
      invariant next < |boundaries| ==> boundaries[next] > StartOf(frames, k)
    {
      StartIs(frames, total, k);
      while next < |boundaries|
        invariant next == |frameMap| <= |boundaries| && Mapped(frameMap, base, frames, boundaries)
        invariant next < |boundaries| ==> boundaries[next] > frames[k].start
      {
        if boundaries[next] > frames[k].end {
          break;
        }
        if base + k >= U32_LIMIT {
          return Err(BoundaryIndexOutOfRange), frameMap;
        }
        MapNext(frameMap, base, frames, boundaries, total, k);
        frameMap := frameMap + [base + k];
        next := next + 1;
      }
    }
    AllMapped(frames, boundaries, total);
    return Ok(()), frameMap;
  }

  /** Where frame `k` must start when the ranges are consecutive. */
  function StartOf(frames: seq<Range>, k: nat): nat
    requires k <= |frames|
  {
    if k == 0 then 0 else frames[k - 1].end
  }

  lemma StartIs(frames: seq<Range>, total: nat, k: nat)
    requires Tiles(frames, total) && k < |frames|
    ensures frames[k].start == StartOf(frames, k)
  {
  }

  lemma NothingMapped(base: nat, frames: seq<Range>, boundaries: seq<nat>, total: nat)
    requires AreBoundaries(boundaries, total)
    ensures Mapped([], base, frames, boundaries) && boundaries != [] && boundaries[0] > 0
  {
  }

  lemma MapNext(map_: seq<U32>, base: nat, frames: seq<Range>, boundaries: seq<nat>, total: nat, k: nat)
    requires Mapped(map_, base, frames, boundaries) && AreBoundaries(boundaries, total) && k < |frames| && base + k < U32_LIMIT
    requires |map_| < |boundaries| && frames[k].start < boundaries[|map_|] <= frames[k].end
    ensures Mapped(map_ + [base + k], base, frames, boundaries)
    ensures |map_| + 1 < |boundaries| ==> boundaries[|map_| + 1] > frames[k].start
  {
  }

  lemma AllMapped(frames: seq<Range>, boundaries: seq<nat>, total: nat)
    requires AreBoundaries(boundaries, total) && Tiles(frames, total)
    ensures forall i | 0 <= i < |boundaries| :: boundaries[i] <= StartOf(frames, |frames|)
  {
    Increasing(boundaries, |boundaries| - 1, total);
  }

  /** Ranges that tile are in order. */
  lemma {:induction false} TilesInOrder(frames: seq<Range>, end: nat, i: nat, j: nat)
    requires Tiles(frames, end) && i < j < |frames|
    ensures frames[i].end <= frames[j].start
    decreases j - i
  {
    assert frames[j - 1].end == frames[j].start;
    if i < j - 1 {
      TilesInOrder(frames, end, i, j - 1);
    }
  }

  /** A package lies in one frame only, and later packages never lie in earlier frames. */
  lemma MapIsMonotone(frames: seq<Range>, total: nat, boundaries: seq<nat>, i: nat, j: nat, f: nat, g: nat)
    requires AreBoundaries(boundaries, total) && Tiles(frames, total) && i <= j < |boundaries|
    requires InFrame(frames, boundaries[i], f) && InFrame(frames, boundaries[j], g)
    ensures f <= g && (i == j ==> f == g)
  {
    if g < f {
      TilesInOrder(frames, total, g, f);
    }
    if f < g {
      TilesInOrder(frames, total, f, g);
    }
  }

  // ---------- the writer ----------

  /** The compressed frames of a chunk, one after the other. */
  function Compressed(compress: Bytes -> Bytes, raw: Bytes, frames: seq<Range>): seq<Bytes>
    requires forall f | f in frames :: f.start <= f.end <= |raw|
  {
    seq(|frames|, k requires 0 <= k < |frames| => compress(raw[frames[k].start..frames[k].end]))
  }

  function Lengths(blobs: seq<Bytes>): seq<nat> {
    seq(|blobs|, k requires 0 <= k < |blobs| => |blobs[k]|)
  }

  class Writer {
    const version: nat
    const compress: Bytes -> Bytes

    var raw: Bytes
    var boundaries: seq<nat>
    var file: Bytes
    var frameLengths: seq<U32>
    var frameMap: seq<U32>

    /** The packages of the current chunk, and the compressed frames written so far. */
    ghost var pieces: seq<Bytes>
    ghost var blobs: seq<Bytes>

    ghost predicate Valid()
      reads this
    {
      && NonEmpty(pieces) && raw == Concat(pieces) && boundaries == Ends(pieces)
      && file == Concat(blobs) && frameLengths == Lengths(blobs)
      && (frameMap == [] ==> blobs == [])
    }

    constructor (version: nat, compress: Bytes -> Bytes)
      ensures Valid() && this.version == version && this.compress == compress
      ensures pieces == [] && blobs == [] && frameMap == []
    {
      this.version, this.compress := version, compress;
      raw, boundaries, file, frameLengths, frameMap := [], [], [], [], [];
      pieces, blobs := [], [];
    }

    /** The last steps of adding a package: its encoded bytes join the chunk. */
    method Append(package: Bytes)
      requires Valid() && package != []
      modifies this`raw, this`boundaries, this`pieces
      ensures Valid() && pieces == old(pieces) + [package]
    {
      raw := raw + package;
      boundaries := boundaries + [|raw|];
      pieces := pieces + [package];
      assert pieces[..|pieces| - 1] == old(pieces);
    }

    /** The check after mapping: it looks the package up by its ordinal in the whole database. */
    method CheckFrames(frames: seq<Range>, chunk: seq<nat>, base: nat) returns (r: Result<(), Corrupt>)
      requires |chunk| <= |frameMap| && forall i | |frameMap| - |chunk| <= i < |frameMap| :: base <= frameMap[i]
      ensures |chunk| == |frameMap| && Mapped(frameMap, base, frames, chunk) ==> r.Ok?
      ensures 0 < |chunk| < |frameMap| ==> r.Err?
    {
      for ord := |frameMap| - |chunk| to |frameMap|
        invariant |frameMap| - |chunk| <= ord
        invariant ord <= |chunk| || ord == |frameMap| - |chunk|
      {
        var local := frameMap[ord] - base;
        if local >= |frames| || ord >= |chunk| {
          return Err(BoundaryIndexOutOfRange);
        }
        if chunk[ord] < frames[local].start || chunk[ord] > frames[local].end {
          return Err(BoundaryOutsideFrame);
        }
      }
      return Ok(());
    }

    /** Map the packages of a chunk behind the ones before, and check the map. */
    method MapChunk(frames: seq<Range>, chunk: seq<nat>, base: nat, ghost total: nat) returns (r: Result<(), Corrupt>)
      requires AreBoundaries(chunk, total) && Tiles(frames, total)
      modifies this`frameMap
      ensures old(frameMap) <= frameMap && (r.Ok? ==> frameMap != [])
      ensures old(frameMap) != [] ==> r.Err?
      ensures old(frameMap) == [] && base == 0 && |frames| <= U32_LIMIT ==>
                r.Ok? && |frameMap| == |chunk| && Mapped(frameMap, 0, frames, chunk)
    {
      hide Tiles, AreBoundaries, Mapped;
      NotEmpty(chunk, total);
      var mapped, added := MapFrames(frames, chunk, base, total);
      if mapped.Err? {
        return mapped;
      }
      MappedBounds(added, base, frames, chunk);
      ghost var before := frameMap;
      frameMap := frameMap + added;
      Appended(before, added);
      r := CheckFrames(frames, chunk, base);
    }

    method WriteFrame(frame: Bytes)
      requires |frame| < U32_LIMIT && file == Concat(blobs) && frameLengths == Lengths(blobs)
      modifies this`file, this`frameLengths, this`blobs
      ensures file == Concat(blobs) && frameLengths == Lengths(blobs) && blobs == old(blobs) + [frame]
    {
      file := file + frame;
      frameLengths := frameLengths + [|frame|];
      blobs := blobs + [frame];
      assert blobs[..|blobs| - 1] == old(blobs);
    }

    /** Compress and write every frame in order; a frame too long for its length field stops the flush. */
    method WriteFrames(chunk: Bytes, frames: seq<Range>) returns (r: Result<(), Corrupt>)
      requires forall f | f in frames :: f.start <= f.end <= |chunk|
      requires file == Concat(blobs) && frameLengths == Lengths(blobs)
      modifies this`file, this`frameLengths, this`blobs
      ensures file == Concat(blobs) && frameLengths == Lengths(blobs)
      ensures r.Ok? <==> forall b | b in Compressed(compress, chunk, frames) :: |b| < U32_LIMIT
      ensures r.Ok? ==> blobs == old(blobs) + Compressed(compress, chunk, frames)
    {
      hide Concat, Lengths;
      ghost var all := Compressed(compress, chunk, frames);
      assert all[..0] == [] && blobs + [] == blobs;
      for k := 0 to |frames|
        invariant file == Concat(blobs) && frameLengths == Lengths(blobs)
        invariant blobs == old(blobs) + all[..k]
        invariant forall i | 0 <= i < k :: |all[i]| < U32_LIMIT
      {
        var frame := compress(chunk[frames[k].start..frames[k].end]);
        assert frame == all[k];
        if |frame| >= U32_LIMIT {
          return Err(FrameTooLong);
        }
        WriteFrame(frame);
        assert all[..k + 1] == all[..k] + [frame];
        Assoc(old(blobs), all[..k], [frame]);
      }
      assert all[..|frames|] == all;
      return Ok(());
    }

    /** Map, check and write the frames of a chunk. */
    method WriteChunk(chunk: Bytes, ends: seq<nat>, frames: seq<Range>) returns (r: Result<(), Corrupt>)
      requires AreBoundaries(ends, |chunk|) && Tiles(frames, |chunk|) && |frames| <= MAX_FRAME_COUNT
      requires forall f | f in frames :: f.start <= f.end <= |chunk|
      requires file == Concat(blobs) && frameLengths == Lengths(blobs) && (frameMap == [] ==> blobs == [])
      modifies this`file, this`frameLengths, this`frameMap, this`blobs
      ensures file == Concat(blobs) && frameLengths == Lengths(blobs) && (frameMap == [] ==> blobs == [])
      ensures r.Ok? <==> old(frameMap) == [] && forall b | b in Compressed(compress, chunk, frames) :: |b| < U32_LIMIT
      ensures r.Ok? ==> blobs == Compressed(compress, chunk, frames)
                        && |frameMap| == |ends| && Mapped(frameMap, 0, frames, ends)
      ensures old(frameMap) != [] ==> blobs == old(blobs)
    {
      hide Tiles, AreBoundaries, Mapped, Compressed, Concat;
      r := MapChunk(frames, ends, |frameLengths|, |chunk|);
      if r.Ok? {
        r := WriteFrames(chunk, frames);
        assert old(blobs) == [] && [] + Compressed(compress, chunk, frames) == Compressed(compress, chunk, frames);
      }
    }

    /** What a flush of `chunk` did, cut into these frames. */
    twostate predicate Flushed(chunk: Bytes, ends: seq<nat>, frames: seq<Range>, new r: Result<(), Corrupt>)
      reads this
      requires forall f | f in frames :: f.start <= f.end <= |chunk|
    {
      var written := Compressed(compress, chunk, frames);
      && (r.Ok? <==> old(frameMap) == [] && |frames| <= MAX_FRAME_COUNT && forall b | b in written :: |b| < U32_LIMIT)
      && (r.Ok? ==> blobs == written && |frameMap| == |ends| && Mapped(frameMap, 0, frames, ends))
      && (old(frameMap) != [] ==> blobs == old(blobs))
    }

    /**
     * `flush_chunk`. The first flush of a non-empty chunk writes its frames and maps every package to
     * the frame it lies in. Any later one fails before it writes anything: the check looks packages
     * up by their ordinal in the database, but the chunk only knows its own.
     */
    method FlushChunk(parallelism: nat) returns (r: Result<(), Corrupt>, ghost frames: seq<Range>)
      requires Valid() && parallelism > 0
      modifies this
      ensures Valid()
      ensures old(raw) == [] || version != 2 ==> r == Ok(()) && unchanged(this)
      ensures old(raw) != [] && version == 2 ==>
                && raw == [] && boundaries == [] && pieces == []
                && IsCut(frames, old(boundaries), |old(raw)|, parallelism) && |frames| <= 2 * parallelism - 1
                && (forall f | f in frames :: f.start <= f.end <= |old(raw)|)
                && Flushed(old(raw), old(boundaries), frames, r)
    {
      frames := [];
      if raw == [] || version != 2 {
        return Ok(()), frames;
      }
      hide Tiles, AreBoundaries, Greedy, Mapped, Compressed, Concat, Ends, NonEmpty, Lengths;
      EmptyChunk();
      ChunkBoundaries(pieces);
      var chunk, ends := raw, boundaries;
      raw, boundaries, pieces := [], [], [];
      var cut := CutFrames(|chunk|, ends, parallelism);
      var ranges := cut.value;
      frames := ranges;
      AllInside(ranges, |chunk|);
      if |ranges| > MAX_FRAME_COUNT {
        return Err(TooManyFrames), frames;
      }
      r := WriteChunk(chunk, ends, ranges);
    }
  }

  lemma NotEmpty(boundaries: seq<nat>, total: nat)
    requires AreBoundaries(boundaries, total)
    ensures boundaries != []
  {
  }

  lemma Appended(before: seq<U32>, added: seq<U32>)
    ensures forall i | |before| <= i < |before + added| :: (before + added)[i] == added[i - |before|]
    ensures before <= before + added && (before == [] ==> before + added == added)
  {
  }

  lemma EmptyChunk()
    ensures Concat([]) == [] && Ends([]) == [] && NonEmpty([])
  {
  }

  lemma ChunkBoundaries(pieces: seq<Bytes>)
    requires NonEmpty(pieces) && Concat(pieces) != []
    ensures pieces != [] && |Ends(pieces)| == |pieces|
    ensures AreBoundaries(Ends(pieces), |Concat(pieces)|)
  {
    EndsAreBoundaries(pieces);
  }

  lemma AllInside(frames: seq<Range>, end: nat)
    requires Tiles(frames, end)
    ensures forall f | f in frames :: f.start <= f.end <= end
  {
    forall f | f in frames ensures f.start <= f.end <= end {
      var k :| 0 <= k < |frames| && frames[k] == f;
      TilesInside(frames, end, k);
    }
  }

  lemma MappedBounds(map_: seq<U32>, base: nat, frames: seq<Range>, boundaries: seq<nat>)
    requires Mapped(map_, base, frames, boundaries)
    ensures forall i | 0 <= i < |map_| :: base <= map_[i]
  {
  }
}
