/**
 * A database file: how it is finished, how it is opened, and how a search opens only the frames
 * that can hold a package it is asked for.
 */
module Database {
  import opened Wrappers
  import opened Bytes
  import opened FrcodeFormat
  import opened FrcodeStream
  import opened SearchSpec
  import opened FrameSearch
  import opened PackageSearch
  import opened FrameRanges
  import opened FrameWriter
  import opened SeekTable

  const FILE_MAGIC: Bytes := [78, 73, 88, 73]
  const U32_MAX := 0xFFFF_FFFF

  function Header(version: Byte): (h: Bytes)
    ensures |h| == DATA_START
  {
    FILE_MAGIC + [version, 0, 0, 0, 0, 0, 0, 0]
  }

  /** Compression is only known to be undone by decompression, and never to produce nothing. */
  ghost predicate RoundTrips(compress: Bytes -> Bytes, decompress: Bytes -> Option<Bytes>) {
    forall x :: compress(x) != [] && decompress(compress(x)) == Some(x)
  }

  // ---------- slots and frames ----------

  lemma {:induction false} SumOfLengths(blobs: seq<Bytes>, lens: seq<U32>)
    requires lens == Lengths(blobs)
    ensures Sum(lens) == |Concat(blobs)|
  {
    if blobs != [] {
      var n := |blobs| - 1;
      assert lens[..n] == Lengths(blobs[..n]);
      SumOfLengths(blobs[..n], lens[..n]);
    }
  }

  lemma {:induction false} SlotAt(start: nat, lens: seq<U32>, k: nat)
    requires k < |lens|
    ensures Slots(start, lens)[k] == Slot(start + Sum(lens[..k]), lens[k])
  {
    var n := |lens| - 1;
    if k < n {
      SlotAt(start, lens[..n], k);
      assert lens[..n][..k] == lens[..k];
    }
  }

  /** The bytes in a slot are the frame that was written there. */
  lemma PartsAround(blobs: seq<Bytes>, k: nat)
    requires k < |blobs|
    ensures Concat(blobs) == Concat(blobs[..k]) + blobs[k] + Concat(blobs[k + 1..])
  {
    assert blobs == blobs[..k + 1] + blobs[k + 1..] && blobs[..k + 1][..k] == blobs[..k];
    ConcatAppend(blobs[..k + 1], blobs[k + 1..]);
  }

  lemma SlotHolds(head: Bytes, blobs: seq<Bytes>, tail: Bytes, lens: seq<U32>, k: nat)
    requires lens == Lengths(blobs) && k < |blobs|
    ensures var slot := Slots(|head|, lens)[k];
            var data := head + Concat(blobs) + tail;
            slot.offset + slot.len <= |data| && data[slot.offset..slot.offset + slot.len] == blobs[k]
  {
    hide Concat, Sum, Slots;
    SlotAt(|head|, lens, k);
    assert lens[..k] == Lengths(blobs[..k]);
    SumOfLengths(blobs[..k], lens[..k]);
    PartsAround(blobs, k);
    BlobPart(head, Concat(blobs[..k]), blobs[k], Concat(blobs[k + 1..]), tail);
  }

  lemma BlobPart(head: Bytes, before: Bytes, blob: Bytes, after: Bytes, tail: Bytes)
    ensures var at := |head| + |before|;
            (head + (before + blob + after) + tail)[at..at + |blob|] == blob
  {
  }

  // ---------- frames and packages ----------

  /** How many packages end at or before a position. */
  function Before(ends: seq<nat>, x: nat): (n: nat)
    ensures n <= |ends| && (n > 0 ==> ends[n - 1] <= x)
    ensures forall i | n <= i < |ends| :: ends[i] > x
  {
    if ends == [] then 0
    else if ends[|ends| - 1] <= x then |ends|
    else Before(ends[..|ends| - 1], x)
  }

  /** Frame boundaries are package boundaries, so a frame holds exactly its packages. */
  lemma FrameHolds(pieces: seq<Bytes>, frames: seq<Range>, k: nat, total: nat)
    requires NonEmpty(pieces) && AreBoundaries(Ends(pieces), total) && total == |Concat(pieces)| && Tiles(frames, total)
    requires (forall f | f in frames :: f.end in Ends(pieces)) && k < |frames|
    ensures var lo, hi := Before(Ends(pieces), frames[k].start), Before(Ends(pieces), frames[k].end);
            && lo <= hi && frames[k].start <= frames[k].end <= total
            && Concat(pieces)[frames[k].start..frames[k].end] == Concat(pieces[lo..hi])
            && (forall i | 0 <= i < |pieces| :: InFrame(frames, Ends(pieces)[i], k) <==> lo <= i < hi)
            && (k == 0 ==> lo == 0) && (k == |frames| - 1 ==> hi == |pieces|)
  {
    var ends := Ends(pieces);
    hide Concat, Ends, NonEmpty, Tiles, AreBoundaries, FrameWriter.Begin;
    var f := frames[k];
    TilesInside(frames, total, k);
    TilesEnds(frames, total);
    assert f in frames;
    EndOfPackage(ends, total, f.end);
    if k == 0 {
      BeforeAll(ends, total);
    } else {
      StartIs(frames, total, k);
      assert frames[k - 1] in frames && frames[k - 1].end == f.start;
      EndOfPackage(ends, total, f.start);
    }
    var lo, hi := Before(ends, f.start), Before(ends, f.end);
    BeforeSplits(ends, total, f.start);
    BeforeSplits(ends, total, f.end);
    assert lo <= hi;
    BeginAt(pieces, lo, f.start);
    BeginAt(pieces, hi, f.end);
    SliceOfPieces(pieces, lo, hi);
  }

  lemma TilesEnds(frames: seq<Range>, total: nat)
    requires Tiles(frames, total) && frames != []
    ensures frames[0].start == 0 && frames[|frames| - 1].end == total
  {
  }

  lemma BeforeAll(ends: seq<nat>, total: nat)
    requires AreBoundaries(ends, total)
    ensures Before(ends, 0) == 0
  {
    BeforeSplits(ends, total, 0);
  }

  lemma BeginAt(pieces: seq<Bytes>, n: nat, x: nat)
    requires n <= |pieces| && (if n == 0 then x == 0 else Ends(pieces)[n - 1] == x)
    ensures FrameWriter.Begin(pieces, n) == x
  {
  }

  lemma BeforeSplits(ends: seq<nat>, total: nat, x: nat)
    requires AreBoundaries(ends, total)
    ensures forall i | 0 <= i < |ends| :: ends[i] <= x <==> i < Before(ends, x)
  {
    var n := Before(ends, x);
    if 0 < n < |ends| {
      Increasing(ends, n - 1, total);
    }
    if n == |ends| {
      Increasing(ends, n - 1, total);
    }
  }

  lemma EndOfPackage(ends: seq<nat>, total: nat, x: nat)
    requires AreBoundaries(ends, total) && x in ends
    ensures Before(ends, x) > 0 && ends[Before(ends, x) - 1] == x
    ensures x == total ==> Before(ends, x) == |ends|
  {
    var i :| 0 <= i < |ends| && ends[i] == x;
    BeforeSplits(ends, total, x);
  }

  // ---------- which ordinals begin the frames ----------

  /** The first package of a frame, or the largest integer when the frame has none. */
  ghost predicate IsStart(map_: seq<U32>, frame: nat, start: U32) {
    if start == U32_MAX then forall i | 0 <= i < |map_| :: map_[i] != frame
    else start < |map_| && map_[start] == frame && forall i | 0 <= i < start :: map_[i] != frame
  }

  /** `compute_frame_starts`, for maps that fit their own file format. */
  method FrameStarts(map_: seq<U32>, frameCount: nat) returns (starts: seq<U32>)
    requires |map_| <= U32_MAX
    ensures |starts| == frameCount && forall k | 0 <= k < frameCount :: IsStart(map_, k, starts[k])
  {
    starts := seq(frameCount, _ => U32_MAX);
    assert map_[..0] == [];
    for ord := 0 to |map_|
      invariant |starts| == frameCount && forall k | 0 <= k < frameCount :: IsStart(map_[..ord], k, starts[k])
    {
      assert map_[..ord + 1] == map_[..ord] + [map_[ord]];
      var frame := map_[ord];
      if frame < frameCount {
        if starts[frame] == U32_MAX || ord < starts[frame] {
          starts := starts[frame := ord];
        }
      }
    }
    assert map_[..|map_|] == map_;
  }

  // ---------- the file ----------

  datatype DatabaseError =
    | WriteFailed(Corrupt) | HeaderInvalid | TableInvalid(SeekError) | FrameUnreadable | SearchFailed(SearchError)

  /** A file as the writer leaves it: header, compressed frames, seek table, and the map beside it. */
  ghost predicate Built(data: Bytes, frameMap: seq<U32>, pieces: seq<Bytes>, compress: Bytes -> Bytes, frames: seq<Range>)
  {
    var raw := Concat(pieces);
    && NonEmpty(pieces) && Tiles(frames, |raw|)
    && (forall f | f in frames :: f.start <= f.end <= |raw| && f.end in Ends(pieces))
    && |frames| <= MAX_FRAME_COUNT
    && var blobs := Compressed(compress, raw, frames);
       && (forall b | b in blobs :: |b| < U32_LIMIT)
       && data == Header(2) + Concat(blobs) + Table(Lengths(blobs))
       && |frameMap| == |pieces| && Mapped(frameMap, 0, frames, Ends(pieces))
  }

  /** The packages are cut into few enough frames, none of which compresses to more than a length field can hold. */
  ghost predicate FitsFormat(pieces: seq<Bytes>, parallelism: nat, compress: Bytes -> Bytes)
    requires parallelism > 0
  {
    var raw := Concat(pieces);
    forall frames: seq<Range> | IsCut(frames, Ends(pieces), |raw|, parallelism) ::
      && |frames| <= MAX_FRAME_COUNT
      && forall f | f in frames :: f.start <= f.end <= |raw| && |compress(raw[f.start..f.end])| < U32_LIMIT
  }

  /** There is one cut, so it is enough to look at this one. */
  lemma FitsWhenCut(pieces: seq<Bytes>, parallelism: nat, compress: Bytes -> Bytes, frames: seq<Range>)
    requires parallelism > 0 && IsCut(frames, Ends(pieces), |Concat(pieces)|, parallelism)
    ensures forall f | f in frames :: f.start <= f.end <= |Concat(pieces)|
    ensures FitsFormat(pieces, parallelism, compress) <==>
            |frames| <= MAX_FRAME_COUNT && forall b | b in Compressed(compress, Concat(pieces), frames) :: |b| < U32_LIMIT
  {
    hide IsCut, Concat, Ends;
    var raw, ends := Concat(pieces), Ends(pieces);
    CutInside(frames, ends, |raw|, parallelism);
    forall other: seq<Range> | IsCut(other, ends, |raw|, parallelism) ensures other == frames {
      OneCut(other, frames, ends, |raw|, parallelism);
    }
    var blobs := Compressed(compress, raw, frames);
    assert forall k | 0 <= k < |frames| :: blobs[k] == compress(raw[frames[k].start..frames[k].end]) && blobs[k] in blobs;
  }

  lemma CutInside(frames: seq<Range>, ends: seq<nat>, total: nat, parallelism: nat)
    requires parallelism > 0 && IsCut(frames, ends, total, parallelism)
    ensures forall f | f in frames :: f.start <= f.end <= total
  {
    AllInside(frames, total);
  }

  /** A compressor that keeps within the limit on all inputs of at most this size will do. */
  lemma ShortFits(pieces: seq<Bytes>, parallelism: nat, compress: Bytes -> Bytes)
    requires 0 < 2 * parallelism - 1 <= MAX_FRAME_COUNT && NonEmpty(pieces)
    requires forall x: Bytes | |x| <= |Concat(pieces)| :: |compress(x)| < U32_LIMIT
    ensures FitsFormat(pieces, parallelism, compress)
  {
    hide Tiles, Greedy, Ends, NonEmpty;
    var raw := Concat(pieces);
    forall frames: seq<Range> | IsCut(frames, Ends(pieces), |raw|, parallelism)
      ensures |frames| <= MAX_FRAME_COUNT
      ensures forall f | f in frames :: f.start <= f.end <= |raw| && |compress(raw[f.start..f.end])| < U32_LIMIT
    {
      AllInside(frames, |raw|);
      if |raw| > 0 {
        FewRanges(frames, Ends(pieces), |raw|, parallelism);
      } else {
        NoRanges(frames);
      }
    }
  }

  lemma NoRanges(frames: seq<Range>)
    requires Tiles(frames, 0)
    ensures frames == []
  {
  }

  /** What a writer holds once it has flushed these packages for the first time, cut into these frames. */
  ghost predicate FlushedAll(writer: Writer, pieces: seq<Bytes>, frames: seq<Range>)
    requires forall f | f in frames :: f.start <= f.end <= |Concat(pieces)|
    reads writer
  {
    && writer.blobs == Compressed(writer.compress, Concat(pieces), frames)
    && |writer.frameMap| == |pieces| && Mapped(writer.frameMap, 0, frames, Ends(pieces))
  }

  /** The only flush of a version-2 database, which may be of nothing. */
  method FlushOnce(writer: Writer, parallelism: nat) returns (r: Result<(), Corrupt>, ghost frames: seq<Range>)
    requires writer.Valid() && writer.version == 2 && parallelism > 0 && writer.frameMap == []
    modifies writer
    ensures writer.Valid()
    ensures IsCut(frames, Ends(old(writer.pieces)), |Concat(old(writer.pieces))|, parallelism)
    ensures forall f | f in frames :: f.start <= f.end <= |Concat(old(writer.pieces))|
    ensures r.Ok? <==> FitsFormat(old(writer.pieces), parallelism, writer.compress)
    ensures r.Ok? ==> FlushedAll(writer, old(writer.pieces), frames)
  {
    hide FitsFormat, IsCut, Compressed, Mapped, Tiles, Greedy, NonEmpty, Concat, Ends, Lengths;
    ghost var pieces, raw := writer.pieces, writer.raw;
    r, frames := writer.FlushChunk(parallelism);
    if raw == [] {
      NothingIsCut(parallelism);
      NoPieces(pieces);
      frames := [];
      NothingWritten(writer.compress);
    }
    FitsWhenCut(pieces, parallelism, writer.compress, frames);
  }

  lemma NothingWritten(compress: Bytes -> Bytes)
    ensures Concat([]) == [] && Ends([]) == [] && Compressed(compress, [], []) == [] && Mapped([], 0, [], [])
  {
  }

  lemma BlobsFit(writer: Writer, pieces: seq<Bytes>, parallelism: nat, frames: seq<Range>)
    requires parallelism > 0 && IsCut(frames, Ends(pieces), |Concat(pieces)|, parallelism)
    requires (forall f | f in frames :: f.start <= f.end <= |Concat(pieces)|) && FlushedAll(writer, pieces, frames)
    requires FitsFormat(pieces, parallelism, writer.compress)
    ensures (forall b | b in writer.blobs :: |b| < U32_LIMIT) && |writer.blobs| == |frames| <= MAX_FRAME_COUNT
  {
    hide FitsFormat, IsCut, Mapped, Concat, Ends;
    FitsWhenCut(pieces, parallelism, writer.compress, frames);
  }

  /** Such a writer and its table make a database. */
  lemma BuiltFrom(writer: Writer, data: Bytes, lens: seq<U32>, pieces: seq<Bytes>, parallelism: nat, frames: seq<Range>)
    requires parallelism > 0 && NonEmpty(pieces) && IsCut(frames, Ends(pieces), |Concat(pieces)|, parallelism)
    requires (forall f | f in frames :: f.start <= f.end <= |Concat(pieces)|) && FlushedAll(writer, pieces, frames)
    requires FitsFormat(pieces, parallelism, writer.compress) && lens == Lengths(writer.blobs) && TableFits(lens)
    requires data == Header(2) + Concat(writer.blobs) + Table(lens)
    ensures Built(data, writer.frameMap, pieces, writer.compress, frames)
  {
    hide FitsFormat, Mapped, Tiles, NonEmpty, Concat, Ends, Table, Header;
    FitsWhenCut(pieces, parallelism, writer.compress, frames);
    assert forall f | f in frames :: CutAtFirst(f, Ends(pieces), Target(|Concat(pieces)|, parallelism));
  }

  /**
   * Finish a version-2 database whose packages were added but not flushed before. It succeeds exactly
   * when there are not too many frames and none compresses to more than a length field can hold.
   */
  method Finish(writer: Writer, parallelism: nat) returns (r: Result<Bytes, DatabaseError>, ghost frames: seq<Range>)
    requires writer.Valid() && writer.version == 2 && parallelism > 0 && writer.frameMap == []
    modifies writer
    ensures r.Ok? ==> Built(r.value, writer.frameMap, old(writer.pieces), writer.compress, frames)
    ensures r.Ok? ==> |writer.frameLengths| == |frames|
    ensures r.Ok? <==> FitsFormat(old(writer.pieces), parallelism, writer.compress)
  {
    hide FitsFormat, IsCut, FlushedAll, Built, Table, Concat, Header, NonEmpty, Ends;
    ghost var pieces := writer.pieces;
    var flushed;
    flushed, frames := FlushOnce(writer, parallelism);
    if flushed.Err? {
      return Err(WriteFailed(flushed.error)), frames;
    }
    BlobsFit(writer, pieces, parallelism, frames);
    if 4 + 4 * |writer.frameLengths| + 4 >= U32_LIMIT {
      return Err(WriteFailed(Corrupt.TooManyFrames)), frames;
    }
    var table := WriteTable(writer.frameLengths);
    r := Ok(Header(2) + writer.file + table);
    BuiltFrom(writer, r.value, writer.frameLengths, pieces, parallelism, frames);
  }

  lemma NothingIsCut(parallelism: nat)
    requires parallelism > 0
    ensures IsCut([], [], 0, parallelism)
  {
  }

  lemma NoPieces(pieces: seq<Bytes>)
    requires NonEmpty(pieces)
    ensures pieces != [] ==> Concat(pieces) != []
  {
    if pieces != [] {
      assert pieces[|pieces| - 1] in pieces;
    }
  }

  /** An opened database; without a frame map a search cannot tell ordinals. */
  datatype Reader = Reader(data: Bytes, slots: seq<Slot>, frameMap: Option<seq<U32>>, frameStarts: Option<seq<U32>>)

  /** The one frame of a version-1 file is everything behind the header. */
  function SoleSlot(data: Bytes): seq<Slot>
    requires |data| >= DATA_START
  {
    if |data| == DATA_START then [] else [Slot(DATA_START, |data| - DATA_START)]
  }

  /** `Reader::open`: check the header, find the frames by the version, and where they begin. */
  method Open(data: Bytes, frameMap: Option<seq<U32>>) returns (r: Result<Reader, DatabaseError>)
    requires frameMap.Some? ==> |frameMap.value| <= U32_MAX
    ensures r.Ok? <==>
              && |data| >= DATA_START
              && (data[..DATA_START] == Header(1)
                  || (data[..DATA_START] == Header(2) && exists lens :: HasTable(data, DATA_START, lens)))
    ensures r.Ok? ==> r.value.data == data && r.value.frameMap == frameMap && (frameMap.Some? <==> r.value.frameStarts.Some?)
    ensures r.Ok? && data[..DATA_START] == Header(1) ==> r.value.slots == if |data| == 12 then [] else [Slot(12, |data| - 12)]
    ensures r.Ok? && data[..DATA_START] == Header(2) ==>
              forall lens | HasTable(data, DATA_START, lens) :: r.value.slots == Slots(DATA_START, lens)
    ensures r.Ok? && frameMap.Some? ==> Starts(frameMap.value, r.value.frameStarts.value, |r.value.slots|)
  {
    hide HasTable, Slots;
    if |data| < DATA_START || (data[..DATA_START] != Header(1) && data[..DATA_START] != Header(2)) {
      return Err(HeaderInvalid);
    }
    assert Header(1)[4] != Header(2)[4];
    var slots := SoleSlot(data);
    if data[..DATA_START] == Header(2) {
      var table := ParseTable(data);
      if table.Err? {
        return Err(TableInvalid(table.error));
      }
      slots := table.value;
    }
    if frameMap.None? {
      return Ok(Reader(data, slots, None, None));
    }
    var starts := FrameStarts(frameMap.value, |slots|);
    return Ok(Reader(data, slots, frameMap, Some(starts)));
  }

  ghost predicate Starts(map_: seq<U32>, starts: seq<U32>, frameCount: nat) {
    |starts| == frameCount && forall k | 0 <= k < frameCount :: IsStart(map_, k, starts[k])
  }

  // ---------- searching ----------

  /** Slot `k` holds the compressed stream of the packages between two cuts. */
  ghost predicate SlotOf(data: Bytes, decompress: Bytes -> Option<Bytes>, ps: seq<Stored>, lo: nat, hi: nat, slot: Slot) {
    && lo <= hi <= |ps| && slot.offset + slot.len <= |data| && slot.len > 0
    && decompress(data[slot.offset..slot.offset + slot.len]) == Some(PrintedAll(ToPackages(ps[lo..hi])))
  }

  /** The map sends exactly the packages between two cuts to frame `k`, and the start says where they begin. */
  ghost predicate MapOf(map_: seq<U32>, starts: seq<U32>, lo: nat, hi: nat, k: nat) {
    && k < |starts| && lo < hi <= |map_| && starts[k] == lo
    && forall i | 0 <= i < |map_| :: map_[i] == k <==> lo <= i < hi
  }

  /** An opened database stands for a list of packages, cut into frames. */
  ghost predicate StandsFor(reader: Reader, decompress: Bytes -> Option<Bytes>, ps: seq<Stored>, cuts: seq<nat>) {
    && |cuts| == |reader.slots| + 1 && cuts[0] == 0 && cuts[|reader.slots|] == |ps| <= MAX_ORDINAL
    && (forall k | 0 <= k < |reader.slots| :: SlotOf(reader.data, decompress, ps, cuts[k], cuts[k + 1], reader.slots[k]))
    && (reader.frameMap.Some? <==> reader.frameStarts.Some?)
    && (reader.frameMap.Some? ==>
          && |reader.frameMap.value| == |ps|
          && forall k | 0 <= k < |reader.slots| ::
               MapOf(reader.frameMap.value, reader.frameStarts.value, cuts[k], cuts[k + 1], k))
  }

  /** The query that a reader really answers: without frame starts the ordinals are ignored. */
  function Effective(reader: Reader, q: Query): Query {
    if reader.frameStarts.Some? then q else q.(ordinals := None)
  }

  /** The frames that hold a package with one of the ordinals. */
  method NeededFrames(map_: seq<U32>, ordinals: set<nat>) returns (needed: set<nat>)
    ensures forall k :: k in needed <==> exists i :: 0 <= i < |map_| && i in ordinals && map_[i] == k
  {
    needed := {};
    var rest := ordinals;
    while rest != {}
      invariant rest <= ordinals
      invariant forall k :: k in needed <==> exists i :: 0 <= i < |map_| && i in ordinals - rest && map_[i] == k
      decreases |rest|
    {
      var ord: nat :| ord in rest;
      rest := rest - {ord};
      assert ordinals - rest == (ordinals - (rest + {ord})) + {ord};
      if ord < |map_| {
        needed := needed + {map_[ord]};
      }
    }
    assert ordinals - rest == ordinals;
  }

  /** One frame: decompress it and search its stream. */
  method SearchSlot(reader: Reader, slot: Slot, decompress: Bytes -> Option<Bytes>, capacity: nat,
                    q: Query, pathMatcher: Matcher, packageMatcher: Matcher, start: Option<nat>,
                    ghost ps: seq<Stored>, ghost lo: nat, ghost hi: nat)
    returns (r: Result<seq<Hit>, DatabaseError>)
    requires (forall p | p in ps :: Readable(q, p)) && |ps| <= MAX_ORDINAL
    requires SlotOf(reader.data, decompress, ps, lo, hi, slot)
    requires FindsEntries(pathMatcher, q) && FindsFooters(packageMatcher)
    requires start == Some(lo) || (start == None && q.ordinals.None?)
    ensures r.Ok? && r.value == Hits(q, ps[lo..hi], lo)
  {
    hide FindsEntries, FindsFooters, Readable, Hits;
    var raw := decompress(reader.data[slot.offset..slot.offset + slot.len]);
    if raw.None? {
      return Err(FrameUnreadable);
    }
    assert forall p | p in ps[lo..hi] :: p in ps;
    if start.None? {
      HitsUnnumbered(q, ps[lo..hi], 0, lo);
    }
    var found := SearchPackages(raw.value, capacity, q, pathMatcher, packageMatcher, start, ps[lo..hi]);
    return Ok(found.value);
  }

  /** Frames before `k` answered: either nothing is restricted, or only needed frames are opened. */
  lemma HitsSoFar(q: Query, ps: seq<Stored>, lo: nat, hi: nat)
    requires lo <= hi <= |ps|
    ensures Hits(q, ps[..hi], 0) == Hits(q, ps[..lo], 0) + Hits(q, ps[lo..hi], lo)
  {
    hide Hits;
    assert ps[..hi] == ps[..lo] + ps[lo..hi];
    HitsConcat(q, ps[..lo], ps[lo..hi], 0);
  }

  /** A frame that is not needed holds no package that is asked for. */
  lemma NotNeeded(q: Query, ps: seq<Stored>, map_: seq<U32>, starts: seq<U32>, lo: nat, hi: nat, k: nat, needed: set<nat>)
    requires q.ordinals.Some? && MapOf(map_, starts, lo, hi, k) && |map_| == |ps|
    requires k in needed <==> exists i :: 0 <= i < |map_| && i in q.ordinals.value && map_[i] == k
    requires k !in needed
    ensures Hits(q, ps[lo..hi], lo) == []
  {
    forall i | lo <= i < lo + |ps[lo..hi]| ensures i !in q.ordinals.value {
      assert map_[i] == k;
    }
    HitsElsewhere(q, ps[lo..hi], lo);
  }

  lemma FrameOf(reader: Reader, decompress: Bytes -> Option<Bytes>, ps: seq<Stored>, cuts: seq<nat>, k: nat)
    requires StandsFor(reader, decompress, ps, cuts) && k < |reader.slots|
    ensures SlotOf(reader.data, decompress, ps, cuts[k], cuts[k + 1], reader.slots[k]) && cuts[k] <= cuts[k + 1] <= |ps|
    ensures reader.frameMap.Some? ==> MapOf(reader.frameMap.value, reader.frameStarts.value, cuts[k], cuts[k + 1], k)
  {
  }

  /**
   * `search_entries`. A database that stands for a list of readable packages answers every query
   * with the hits picked by hand, although it opens only the frames that hold a package with one of the ordinals
   * that are asked for.
   */
  method SearchEntries(reader: Reader, q: Query, pathMatcher: Matcher, packageMatcher: Matcher,
                       decompress: Bytes -> Option<Bytes>, capacity: nat, ghost ps: seq<Stored>, ghost cuts: seq<nat>)
    returns (r: Result<seq<Hit>, DatabaseError>)
    requires (forall p | p in ps :: Readable(q, p)) && StandsFor(reader, decompress, ps, cuts)
    requires FindsEntries(pathMatcher, q) && FindsFooters(packageMatcher)
    ensures r == Ok(Hits(Effective(reader, q), ps, 0))
  {
    var selective := reader.frameStarts.Some? && q.ordinals.Some?;
    var asked := Effective(reader, q);
    assert FindsEntries(pathMatcher, asked) && forall p | p in ps :: Readable(asked, p);
    assert reader.frameMap.Some? <==> reader.frameStarts.Some?;
    var needed: set<nat> := {};
    if selective {
      needed := NeededFrames(reader.frameMap.value, q.ordinals.value);
    }
    hide FindsEntries, FindsFooters, Readable, Hits, SlotOf, MapOf;
    var matches: seq<Hit> := [];
    assert ps[..0] == [];
    NoHits(asked);
    for k := 0 to |reader.slots|
      invariant cuts[k] <= |ps| && matches == Hits(asked, ps[..cuts[k]], 0)
    {
      FrameOf(reader, decompress, ps, cuts, k);
      ghost var lo, hi := cuts[k], cuts[k + 1];
      HitsSoFar(asked, ps, lo, hi);
      if selective && k !in needed {
        NotNeeded(asked, ps, reader.frameMap.value, reader.frameStarts.value, lo, hi, k, needed);
        assert matches + [] == matches;
      } else {
        if selective {
          StartIsFirst(reader.frameMap.value, reader.frameStarts.value, lo, hi, k);
        }
        var start := if selective then Some(reader.frameStarts.value[k]) else None;
        var found := SearchSlot(reader, reader.slots[k], decompress, capacity, asked, pathMatcher, packageMatcher, start, ps, lo, hi);
        if found.Err? {
          return found;
        }
        matches := matches + found.value;
      }
    }
    assert ps[..|ps|] == ps;
    return Ok(matches);
  }

  lemma NoHits(q: Query)
    ensures Hits(q, [], 0) == []
  {
  }

  lemma StartIsFirst(map_: seq<U32>, starts: seq<U32>, lo: nat, hi: nat, k: nat)
    requires MapOf(map_, starts, lo, hi, k)
    ensures k < |starts| && starts[k] == lo
  {
  }
}
