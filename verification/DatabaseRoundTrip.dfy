/** From packages to a file and back: what is written, opened and searched is what was put in. */
module DatabaseRoundTrip {
  import opened Wrappers
  import opened Bytes
  import opened FrcodeFormat
  import opened FrcodeStream
  import opened FrcodeEncoder
  import opened SearchSpec
  import opened FrameSearch
  import opened PackageSearch
  import opened FrameRanges
  import opened FrameWriter
  import opened SeekTable
  import opened FrameMapFile
  import opened Database

  /** The encoded packages, one piece each. */
  function Pieces(ps: seq<Stored>): (pieces: seq<Bytes>)
    ensures |pieces| == |ps|
  {
    seq(|ps|, i requires 0 <= i < |ps| => PrintedPackage(ToPackage(ps[i])))
  }

  lemma {:induction false} PrintedNotEmpty(last: Bytes, before: nat, entries: seq<Entry>, footer: Entry)
    requires before <= I16_MAX
    ensures PrintedFrom(last, before, entries, footer) != []
    decreases |entries|
  {
    if entries != [] {
      var shared := SharedLen(last, entries[0].path);
      PrintedNotEmpty(entries[0].path, shared, entries[1..], footer);
    }
  }

  lemma PackageNotEmpty(package: Package)
    ensures PrintedPackage(package) != []
  {
    PrintedNotEmpty([], 0, package.entries, package.footer);
  }

  /** The pieces one behind the other are the printed packages. */
  lemma {:induction false} PiecesPrint(ps: seq<Stored>)
    ensures Concat(Pieces(ps)) == PrintedAll(ToPackages(ps))
  {
    if ps != [] {
      PiecesPrint(ps[1..]);
      var first := PrintedPackage(ToPackage(ps[0]));
      assert Pieces(ps) == [first] + Pieces(ps[1..]);
      ConcatAppend([first], Pieces(ps[1..]));
      ConcatOne(first);
      assert ToPackages(ps)[1..] == ToPackages(ps[1..]);
    }
  }

  lemma ConcatOne(piece: Bytes)
    ensures Concat([piece]) == piece
  {
    var one := [piece];
    assert one[..0] == [] && Concat(one[..0]) + piece == piece;
  }

  /** Where each frame begins in the list of packages, and the end of the list. */
  function Cuts(ends: seq<nat>, frames: seq<Range>): (cuts: seq<nat>)
    ensures |cuts| == |frames| + 1
  {
    seq(|frames| + 1, k requires 0 <= k <= |frames| => if k == |frames| then |ends| else Before(ends, frames[k].start))
  }

  /** The facts about one frame of a built database that the rest needs. */
  lemma BuiltFrame(data: Bytes, map_: seq<U32>, pieces: seq<Bytes>, compress: Bytes -> Bytes, frames: seq<Range>, k: nat)
    requires Built(data, map_, pieces, compress, frames) && k < |frames|
    ensures NonEmpty(pieces) && Tiles(frames, |Concat(pieces)|) && AreBoundaries(Ends(pieces), |Concat(pieces)|)
    ensures forall f | f in frames :: f.start <= f.end <= |Concat(pieces)| && f.end in Ends(pieces)
    ensures var blobs := Compressed(compress, Concat(pieces), frames);
            && |blobs| == |frames| && (forall b | b in blobs :: |b| < U32_LIMIT) && |blobs| <= MAX_FRAME_COUNT
            && TableFits(Lengths(blobs)) && data == Header(2) + Concat(blobs) + Table(Lengths(blobs))
    ensures |map_| == |pieces| && Mapped(map_, 0, frames, Ends(pieces))
  {
    hide Ends, Tiles, NonEmpty, Table, Header;
    TilesInside(frames, |Concat(pieces)|, k);
    ChunkBoundaries(pieces);
    assert frames[k] in frames;
  }

  lemma BlobOf(compress: Bytes -> Bytes, raw: Bytes, frames: seq<Range>, k: nat)
    requires (forall f | f in frames :: f.start <= f.end <= |raw|) && k < |frames|
    ensures frames[k] in frames && Compressed(compress, raw, frames)[k] == compress(raw[frames[k].start..frames[k].end])
  {
  }

  /** A frame ends where the next one begins. */
  lemma NextCut(ends: seq<nat>, frames: seq<Range>, k: nat, total: nat)
    requires AreBoundaries(ends, total) && Tiles(frames, total) && k < |frames|
    ensures Cuts(ends, frames)[k] == Before(ends, frames[k].start)
    ensures Cuts(ends, frames)[k + 1] == Before(ends, frames[k].end)
  {
    if k == |frames| - 1 {
      assert ends[|ends| - 1] in ends;
      EndOfPackage(ends, total, total);
    } else {
      assert frames[k].end == frames[k + 1].start;
    }
  }

  lemma PiecesBetween(ps: seq<Stored>, lo: nat, hi: nat)
    requires lo <= hi <= |ps|
    ensures Pieces(ps)[lo..hi] == Pieces(ps[lo..hi])
  {
  }

  lemma Unpacked(compress: Bytes -> Bytes, decompress: Bytes -> Option<Bytes>, x: Bytes)
    requires RoundTrips(compress, decompress)
    ensures compress(x) != [] && decompress(compress(x)) == Some(x)
  {
  }

  /** A slot of a built database holds the packages that end inside its frame, compressed. */
  lemma SlotBytes(data: Bytes, pieces: seq<Bytes>, compress: Bytes -> Bytes, frames: seq<Range>, map_: seq<U32>,
                  blobs: seq<Bytes>, lens: seq<U32>, k: nat)
    requires Built(data, map_, pieces, compress, frames) && k < |frames|
    requires blobs == Compressed(compress, Concat(pieces), frames) && lens == Lengths(blobs) && k < |lens|
    ensures var lo, hi, slot := Before(Ends(pieces), frames[k].start), Before(Ends(pieces), frames[k].end), Slots(DATA_START, lens)[k];
            && lo <= hi && slot.offset + slot.len <= |data|
            && data[slot.offset..slot.offset + slot.len] == compress(Concat(pieces[lo..hi]))
  {
    hide *;
    LengthsSize(blobs);
    BuiltFrame(data, map_, pieces, compress, frames, k);
    BlobOf(compress, Concat(pieces), frames, k);
    FrameHolds(pieces, frames, k, |Concat(pieces)|);
    SlotHolds(Header(2), blobs, Table(lens), lens, k);
  }

  lemma LengthsSize(blobs: seq<Bytes>)
    ensures |Lengths(blobs)| == |blobs|
  {
  }

  /** Decompressed, that is the printed stream of the packages between two cuts. */
  lemma SlotFound(data: Bytes, compress: Bytes -> Bytes, decompress: Bytes -> Option<Bytes>, ps: seq<Stored>,
                  lo: nat, hi: nat, slot: Slot)
    requires lo <= hi <= |ps| && slot.offset + slot.len <= |data| && RoundTrips(compress, decompress)
    requires data[slot.offset..slot.offset + slot.len] == compress(Concat(Pieces(ps)[lo..hi]))
    ensures SlotOf(data, decompress, ps, lo, hi, slot)
  {
    PiecesBetween(ps, lo, hi);
    PiecesPrint(ps[lo..hi]);
    Unpacked(compress, decompress, Concat(Pieces(ps)[lo..hi]));
  }

  /** The map of a built database sends a frame's packages, and only those, to it. */
  lemma MapStands(map_: seq<U32>, starts: seq<U32>, pieces: seq<Bytes>, frames: seq<Range>, total: nat, k: nat)
    requires NonEmpty(pieces) && AreBoundaries(Ends(pieces), total) && total == |Concat(pieces)| && Tiles(frames, total)
    requires (forall f | f in frames :: f.end in Ends(pieces)) && k < |frames|
    requires |map_| == |pieces| <= U32_MAX && Mapped(map_, 0, frames, Ends(pieces))
    requires k < |starts| && IsStart(map_, k, starts[k])
    ensures var cuts := Cuts(Ends(pieces), frames); MapOf(map_, starts, cuts[k], cuts[k + 1], k)
  {
    var ends := Ends(pieces);
    hide Concat, Ends, Cuts, NonEmpty, AreBoundaries, Tiles, MapOf, IsStart;
    FrameHolds(pieces, frames, k, total);
    NextCut(ends, frames, k, total);
    TilesInside(frames, total, k);
    assert frames[k] in frames;
    var last :| 0 <= last < |ends| && ends[last] == frames[k].end;
    assert InFrame(frames, ends[last], k);
    forall i | 0 <= i < |map_| ensures map_[i] == k <==> InFrame(frames, ends[i], k) {
      if InFrame(frames, ends[i], k) {
        MapIsMonotone(frames, total, ends, i, i, map_[i], k);
      }
    }
    assert map_[last] == k;
    FirstOfFrame(map_, starts, Before(ends, frames[k].start), Before(ends, frames[k].end), k);
  }

  /** Of the ordinals in a frame the recorded one is the first. */
  lemma FirstOfFrame(map_: seq<U32>, starts: seq<U32>, lo: nat, hi: nat, k: nat)
    requires lo < hi <= |map_| <= U32_MAX && k < |starts| && IsStart(map_, k, starts[k])
    requires forall i | 0 <= i < |map_| :: map_[i] == k <==> lo <= i < hi
    ensures MapOf(map_, starts, lo, hi, k)
  {
    assert map_[lo] == k;
  }

  /** An opened built database stands for its packages, cut where its frames are. */
  lemma BuiltStands(reader: Reader, ps: seq<Stored>, compress: Bytes -> Bytes, decompress: Bytes -> Option<Bytes>,
                    frames: seq<Range>, map_: seq<U32>, blobs: seq<Bytes>, lens: seq<U32>, cuts: seq<nat>)
    requires Built(reader.data, map_, Pieces(ps), compress, frames) && RoundTrips(compress, decompress)
    requires blobs == Compressed(compress, Concat(Pieces(ps)), frames) && lens == Lengths(blobs)
    requires reader.slots == Slots(DATA_START, lens) && reader.frameMap == Some(map_) && |ps| <= U32_MAX
    requires reader.frameStarts.Some? && Starts(map_, reader.frameStarts.value, |reader.slots|)
    requires cuts == Cuts(Ends(Pieces(ps)), frames)
    ensures StandsFor(reader, decompress, ps, cuts)
  {
    hide Built, Pieces, Concat, Ends, Compressed, Slots, Lengths, RoundTrips, Cuts, SlotOf, MapOf, IsStart,
         Tiles, Mapped, NonEmpty, Table, Header, Before, PrintedAll, ToPackages;
    var pieces := Pieces(ps);
    LengthsSize(blobs);
    CutsEnd(pieces, frames, |Concat(pieces)|, map_, reader.data, compress);
    forall k | 0 <= k < |reader.slots|
      ensures SlotOf(reader.data, decompress, ps, cuts[k], cuts[k + 1], reader.slots[k])
      ensures MapOf(map_, reader.frameStarts.value, cuts[k], cuts[k + 1], k)
    {
      FrameStands(reader.data, ps, compress, decompress, frames, map_, blobs, lens, reader.frameStarts.value, cuts, k);
    }
  }

  lemma FrameStands(data: Bytes, ps: seq<Stored>, compress: Bytes -> Bytes, decompress: Bytes -> Option<Bytes>,
                    frames: seq<Range>, map_: seq<U32>, blobs: seq<Bytes>, lens: seq<U32>, starts: seq<U32>, cuts: seq<nat>, k: nat)
    requires Built(data, map_, Pieces(ps), compress, frames) && RoundTrips(compress, decompress) && |ps| <= U32_MAX
    requires blobs == Compressed(compress, Concat(Pieces(ps)), frames) && lens == Lengths(blobs)
    requires k < |frames| && k < |lens| && k < |starts| && IsStart(map_, k, starts[k])
    requires cuts == Cuts(Ends(Pieces(ps)), frames)
    ensures SlotOf(data, decompress, ps, cuts[k], cuts[k + 1], Slots(DATA_START, lens)[k])
    ensures MapOf(map_, starts, cuts[k], cuts[k + 1], k)
  {
    var pieces, raw := Pieces(ps), Concat(Pieces(ps));
    hide *;
    BuiltFrame(data, map_, pieces, compress, frames, k);
    NextCut(Ends(pieces), frames, k, |raw|);
    SlotBytes(data, pieces, compress, frames, map_, blobs, lens, k);
    SlotFound(data, compress, decompress, ps, cuts[k], cuts[k + 1], Slots(DATA_START, lens)[k]);
    MapStands(map_, starts, pieces, frames, |raw|, k);
  }

  lemma CutsEnd(pieces: seq<Bytes>, frames: seq<Range>, total: nat, map_: seq<U32>, data: Bytes, compress: Bytes -> Bytes)
    requires Built(data, map_, pieces, compress, frames) && total == |Concat(pieces)|
    ensures |Compressed(compress, Concat(pieces), frames)| == |frames| && |map_| == |pieces|
    ensures var cuts := Cuts(Ends(pieces), frames); cuts[0] == 0 && cuts[|frames|] == |pieces|
  {
    NoPieces(pieces);
    if frames != [] {
      BuiltFrame(data, map_, pieces, compress, frames, 0);
      FrameHolds(pieces, frames, 0, total);
    }
  }

  /** A built database has the seek table that its frames call for. */
  lemma BuiltHasTable(data: Bytes, map_: seq<U32>, pieces: seq<Bytes>, compress: Bytes -> Bytes, frames: seq<Range>,
                      blobs: seq<Bytes>) returns (lens: seq<U32>)
    requires Built(data, map_, pieces, compress, frames) && blobs == Compressed(compress, Concat(pieces), frames)
    ensures lens == Lengths(blobs) && HasTable(data, DATA_START, lens)
    ensures |data| >= DATA_START && data[..DATA_START] == Header(2) && InRange(map_, |frames|) && |map_| == |pieces|
  {
    hide Tiles, Table;
    lens := Lengths(blobs);
    SumOfLengths(blobs, lens);
    assert data[|data| - |Table(lens)|..] == Table(lens);
  }

  /** Encode every package and hand it to the writer, in order. */
  method AddPackages(ps: seq<Stored>, writer: Writer) returns (r: Result<(), Error>)
    requires writer.Valid() && writer.pieces == []
    modifies writer
    ensures writer.Valid() && writer.frameMap == old(writer.frameMap)
    ensures r.Ok? <==> forall p | p in ps :: CleanPackage(ToPackage(p))
    ensures r.Ok? ==> writer.pieces == Pieces(ps)
  {
    hide CleanPackage, ToPackage, PrintedPackage, Concat, Ends;
    for i := 0 to |ps|
      invariant writer.Valid() && writer.frameMap == old(writer.frameMap)
      invariant writer.pieces == Pieces(ps)[..i] && forall p | p in ps[..i] :: CleanPackage(ToPackage(p))
    {
      assert ps[i] in ps && ps[..i + 1] == ps[..i] + [ps[i]];
      assert Pieces(ps)[..i + 1] == Pieces(ps)[..i] + [PrintedPackage(ToPackage(ps[i]))];
      var encoded := EncodePackage(ToPackage(ps[i]));
      if encoded.Err? {
        return Err(encoded.error);
      }
      PackageNotEmpty(ToPackage(ps[i]));
      writer.Append(encoded.value);
    }
    assert ps[..|ps|] == ps;
    return Ok(());
  }

  datatype RoundTripError = Encoding(Error) | Writing(DatabaseError)

  /** The two files of a database: what is written, and that both can be read again. */
  ghost predicate Files(ps: seq<Stored>, compress: Bytes -> Bytes, data: Bytes, mapFile: Bytes,
                        frames: seq<Range>, map_: seq<U32>, lens: seq<U32>) {
    && Built(data, map_, Pieces(ps), compress, frames) && |map_| == |ps|
    && lens == Lengths(Compressed(compress, Concat(Pieces(ps)), frames)) && HasTable(data, DATA_START, lens)
    && |data| >= DATA_START && data[..DATA_START] == Header(2)
    && |frames| < U32_LIMIT && IsMapFile(mapFile, map_, |frames|)
  }

  /**
   * Write a database in one flush, with its frame map. That succeeds exactly when no byte of a package is
   * reserved and the frames fit the format.
   */
  method Write(ps: seq<Stored>, parallelism: nat, compress: Bytes -> Bytes)
    returns (r: Result<(), RoundTripError>, data: Bytes, mapFile: Bytes,
             ghost frames: seq<Range>, ghost map_: seq<U32>, ghost lens: seq<U32>)
    requires parallelism > 0 && |ps| <= U32_MAX
    ensures r.Ok? ==> Files(ps, compress, data, mapFile, frames, map_, lens)
    ensures r.Ok? <==> (forall p | p in ps :: CleanPackage(ToPackage(p))) && FitsFormat(Pieces(ps), parallelism, compress)
  {
    hide FitsFormat, IsCut, Ends, Built, Pieces, HasTable, CleanPackage, ToPackage, Concat, Compressed, Lengths, MapFile, InRange, Header;
    data, mapFile, frames, map_, lens := [], [], [], [], [];
    var writer := new Writer(2, compress);
    var added := AddPackages(ps, writer);
    if added.Err? {
      return Err(Encoding(added.error)), data, mapFile, frames, map_, lens;
    }
    var finished;
    finished, frames := Finish(writer, parallelism);
    if finished.Err? {
      return Err(Writing(finished.error)), data, mapFile, frames, map_, lens;
    }
    data, map_ := finished.value, writer.frameMap;
    FewFrames(data, map_, Pieces(ps), compress, frames);
    lens := BuiltHasTable(data, map_, Pieces(ps), compress, frames, Compressed(compress, Concat(Pieces(ps)), frames));
    var mapped := WriteFrameMap(writer.frameMap, |writer.frameLengths|);
    mapFile := mapped.value;
    return Ok(()), data, mapFile, frames, map_, lens;
  }

  lemma FewFrames(data: Bytes, map_: seq<U32>, pieces: seq<Bytes>, compress: Bytes -> Bytes, frames: seq<Range>)
    requires Built(data, map_, pieces, compress, frames)
    ensures |frames| < U32_LIMIT
    ensures forall f | f in frames :: f.start <= f.end <= |Concat(pieces)|
  {
  }

  /** Open both files again. */
  method Reopen(data: Bytes, mapFile: Bytes, ghost ps: seq<Stored>, ghost compress: Bytes -> Bytes,
                ghost decompress: Bytes -> Option<Bytes>, ghost frames: seq<Range>, ghost map_: seq<U32>, ghost lens: seq<U32>)
    returns (reader: Reader, ghost cuts: seq<nat>)
    requires Files(ps, compress, data, mapFile, frames, map_, lens) && RoundTrips(compress, decompress) && |ps| <= U32_MAX
    ensures StandsFor(reader, decompress, ps, cuts) && reader.frameStarts.Some?
  {
    hide Built, Pieces, HasTable, Concat, Compressed, Lengths, MapFile, InRange, Header, Slots, StandsFor, RoundTrips, Cuts, Ends, IsMapFile;
    FewFrames(data, map_, Pieces(ps), compress, frames);
    var read := ReadFrameMap(mapFile);
    var opened_ := Open(data, Some(read.value));
    reader := opened_.value;
    cuts := Cuts(Ends(Pieces(ps)), frames);
    BuiltStands(reader, ps, compress, decompress, frames, map_, Compressed(compress, Concat(Pieces(ps)), frames), lens, cuts);
  }

  /**
   * The whole way: encode packages, cut them into frames, compress, write the seek table and the
   * frame map, open the file again, and search it for the packages with the given ordinals. Whenever
   * the frames fit the format, the hits are those of the full search whose package has one of these
   * ordinals, in the same order.
   */
  method WriteOpenSearch(ps: seq<Stored>, parallelism: nat, compress: Bytes -> Bytes, decompress: Bytes -> Option<Bytes>,
                         capacity: nat, q: Query, ordinals: set<nat>, pathMatcher: Matcher, packageMatcher: Matcher)
    returns (r: Result<seq<Hit>, RoundTripError>)
    requires parallelism > 0 && RoundTrips(compress, decompress) && |ps| <= U32_MAX && q.ordinals.None?
    requires forall p | p in ps :: Readable(q, p)
    requires FindsEntries(pathMatcher, q) && FindsFooters(packageMatcher)
    ensures r.Ok? ==> r.value == Among(ordinals, Numbered(q, ps, 0))
    ensures r.Ok? <==> FitsFormat(Pieces(ps), parallelism, compress)
  {
    CleanOneByOne(q, ps);
    var asked := q.(ordinals := Some(ordinals));
    assert FindsEntries(pathMatcher, asked) && forall p | p in ps :: Readable(asked, p);
    hide RoundTrips, FindsEntries, FindsFooters, Readable, Hits, StandsFor, Among, Numbered, CleanPackage, Files, FitsFormat, Pieces;
    var written, data, mapFile, frames, map_, lens := Write(ps, parallelism, compress);
    if written.Err? {
      return Err(written.error);
    }
    var reader, cuts := Reopen(data, mapFile, ps, compress, decompress, frames, map_, lens);
    var found := SearchEntries(reader, asked, pathMatcher, packageMatcher, decompress, capacity, ps, cuts);
    RestrictedIsFiltered(q, ordinals, ps, 0);
    return Ok(found.value);
  }

  /** The file of version 1: a single compressed frame behind the header, and neither table nor map. */
  ghost predicate IsOldFile(data: Bytes, ps: seq<Stored>, compress: Bytes -> Bytes) {
    data == [78, 73, 88, 73, 1, 0, 0, 0, 0, 0, 0, 0] + compress(Concat(Pieces(ps)))
  }

  /** Such a file is searched whole: whatever ordinals are asked for, every hit of the full search is found. */
  method SearchOldFile(data: Bytes, ghost ps: seq<Stored>, ghost compress: Bytes -> Bytes, decompress: Bytes -> Option<Bytes>,
                       capacity: nat, q: Query, pathMatcher: Matcher, packageMatcher: Matcher)
    returns (r: Result<seq<Hit>, DatabaseError>)
    requires IsOldFile(data, ps, compress) && RoundTrips(compress, decompress) && |ps| <= U32_MAX
    requires (forall p | p in ps :: Readable(q, p)) && FindsEntries(pathMatcher, q) && FindsFooters(packageMatcher)
    ensures r == Ok(Hits(q.(ordinals := None), ps, 0))
  {
    hide RoundTrips, FindsEntries, FindsFooters, Readable, Hits, StandsFor, Concat, Pieces;
    OldHeader(data, ps, compress);
    var reader := Open(data, None);
    OldStands(reader.value, ps, compress, decompress);
    r := SearchEntries(reader.value, q, pathMatcher, packageMatcher, decompress, capacity, ps, [0, |ps|]);
  }

  lemma OldHeader(data: Bytes, ps: seq<Stored>, compress: Bytes -> Bytes)
    requires IsOldFile(data, ps, compress)
    ensures |data| >= DATA_START && data[..DATA_START] == Header(1)
  {
  }

  lemma OldStands(reader: Reader, ps: seq<Stored>, compress: Bytes -> Bytes, decompress: Bytes -> Option<Bytes>)
    requires IsOldFile(reader.data, ps, compress) && RoundTrips(compress, decompress) && |ps| <= U32_MAX
    requires reader.slots == if |reader.data| == 12 then [] else [Slot(12, |reader.data| - 12)]
    requires reader.frameMap.None? && reader.frameStarts.None?
    ensures StandsFor(reader, decompress, ps, [0, |ps|])
  {
    hide RoundTrips, PrintedAll, ToPackages, Concat, Pieces;
    Unpacked(compress, decompress, Concat(Pieces(ps)));
    PiecesPrint(ps);
    var slot := Slot(12, |reader.data| - 12);
    assert reader.data[12..12 + slot.len] == compress(Concat(Pieces(ps)));
    assert ps[0..|ps|] == ps && SlotOf(reader.data, decompress, ps, 0, |ps|, slot);
  }

  lemma CleanOneByOne(q: Query, ps: seq<Stored>)
    requires forall p | p in ps :: Readable(q, p)
    ensures forall p | p in ps :: CleanPackage(ToPackage(p))
  {
    forall p | p in ps ensures CleanPackage(ToPackage(p)) {
      CleanLines(q, p);
    }
  }
}
