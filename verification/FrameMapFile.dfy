/** The sidecar that maps package ordinals to frames, as bytes. */
module FrameMapFile {
  import opened Wrappers
  import opened Bytes
  import opened FrameWriter
  import opened SeekTable

  const FRAME_MAP_MAGIC: Bytes := [78, 70, 82, 77]
  const FRAME_MAP_VERSION: U32 := 1

  datatype MapError = CountOverflow | FrameOutOfRange | MapTooShort | NotAMap | WrongVersion | WrongLength

  predicate InRange(map_: seq<U32>, frameCount: nat) {
    forall i | 0 <= i < |map_| :: map_[i] < frameCount
  }

  /** The file that holds a map into so many frames. */
  function MapFile(map_: seq<U32>, frameCount: U32): Bytes
    requires |map_| < U32_LIMIT
  {
    FRAME_MAP_MAGIC + Words([FRAME_MAP_VERSION, |map_|, frameCount] + map_)
  }

  ghost predicate IsMapFile(bytes: Bytes, map_: seq<U32>, frameCount: U32) {
    |map_| < U32_LIMIT && InRange(map_, frameCount) && bytes == MapFile(map_, frameCount)
  }

  /** `write_frame_map`. */
  method WriteFrameMap(map_: seq<U32>, frameCount: nat) returns (r: Result<Bytes, MapError>)
    ensures r.Ok? <==> |map_| < U32_LIMIT && frameCount < U32_LIMIT && InRange(map_, frameCount)
    ensures r.Ok? ==> r.value == MapFile(map_, frameCount)
  {
    if |map_| >= U32_LIMIT || frameCount >= U32_LIMIT {
      return Err(CountOverflow);
    }
    var file := FRAME_MAP_MAGIC + U32Le(FRAME_MAP_VERSION);
    file := file + U32Le(|map_|);
    file := file + U32Le(frameCount);
    ghost var head := [FRAME_MAP_VERSION, |map_|, frameCount];
    WordsThree(FRAME_MAP_VERSION, |map_|, frameCount);
    Assoc4(FRAME_MAP_MAGIC, U32Le(FRAME_MAP_VERSION), U32Le(|map_|), U32Le(frameCount));
    assert head + map_[..0] == head;
    for i := 0 to |map_|
      invariant file == FRAME_MAP_MAGIC + Words(head + map_[..i]) && InRange(map_[..i], frameCount)
    {
      if map_[i] >= frameCount {
        return Err(FrameOutOfRange);
      }
      assert (head + map_[..i + 1])[..3 + i] == head + map_[..i];
      Assoc(FRAME_MAP_MAGIC, Words(head + map_[..i]), U32Le(map_[i]));
      file := file + U32Le(map_[i]);
    }
    assert map_[..|map_|] == map_;
    return Ok(file);
  }

  lemma MapFileReads(bytes: Bytes, map_: seq<U32>, frameCount: U32)
    requires |map_| < U32_LIMIT
    ensures bytes == MapFile(map_, frameCount) <==>
            && |bytes| == 16 + 4 * |map_| && bytes[..4] == FRAME_MAP_MAGIC
            && ReadU32Le(bytes, 4) == Some(FRAME_MAP_VERSION) && ReadU32Le(bytes, 8) == Some(|map_|)
            && ReadU32Le(bytes, 12) == Some(frameCount) && ReadsAs(bytes, 16, map_)
  {
    hide ReadU32Le, U32Le;
    var head := [FRAME_MAP_VERSION, |map_|, frameCount];
    if |bytes| == 16 + 4 * |map_| {
      SplitEqual(bytes, 4, FRAME_MAP_MAGIC, Words(head + map_));
      ReadsWords(bytes, 4, head + map_);
      assert bytes[4..4 + 4 * |head + map_|] == bytes[4..];
      ReadsJoined(bytes, 4, head, map_);
      ReadsThree(bytes, 4, FRAME_MAP_VERSION, |map_|, frameCount);
    }
  }

  lemma ReadsJoined(bytes: Bytes, at: nat, a: seq<U32>, b: seq<U32>)
    requires at + 4 * |a + b| <= |bytes|
    ensures ReadsAs(bytes, at, a + b) <==> ReadsAs(bytes, at, a) && ReadsAs(bytes, at + 4 * |a|, b)
  {
    hide ReadU32Le;
    var all := a + b;
    if ReadsAs(bytes, at, all) {
      forall i | 0 <= i < |b| ensures ReadU32Le(bytes, at + 4 * |a| + 4 * i) == Some(b[i]) {
        assert all[|a| + i] == b[i] && ReadU32Le(bytes, at + 4 * (|a| + i)) == Some(all[|a| + i]);
      }
      assert forall i | 0 <= i < |a| :: all[i] == a[i];
    } else if ReadsAs(bytes, at, a) && ReadsAs(bytes, at + 4 * |a|, b) {
      forall i | 0 <= i < |all| ensures ReadU32Le(bytes, at + 4 * i) == Some(all[i]) {
        if i >= |a| {
          assert ReadU32Le(bytes, at + 4 * |a| + 4 * (i - |a|)) == Some(b[i - |a|]);
        }
      }
    }
  }

  lemma ReadsThree(bytes: Bytes, at: nat, a: U32, b: U32, c: U32)
    requires at + 12 <= |bytes|
    ensures ReadsAs(bytes, at, [a, b, c]) <==>
            ReadU32Le(bytes, at) == Some(a) && ReadU32Le(bytes, at + 4) == Some(b) && ReadU32Le(bytes, at + 8) == Some(c)
  {
    hide ReadU32Le;
    var words := [a, b, c];
    if ReadsAs(bytes, at, words) {
      assert ReadU32Le(bytes, at + 4 * 0) == Some(words[0]);
      assert ReadU32Le(bytes, at + 4 * 1) == Some(words[1]);
      assert ReadU32Le(bytes, at + 4 * 2) == Some(words[2]);
    }
  }

  lemma MapFields(bytes: Bytes, map_: seq<U32>, frameCount: U32)
    requires IsMapFile(bytes, map_, frameCount)
    ensures InRange(map_, frameCount) && |bytes| == 16 + 4 * |map_| && bytes[..4] == FRAME_MAP_MAGIC
    ensures ReadU32Le(bytes, 4) == Some(FRAME_MAP_VERSION) && ReadU32Le(bytes, 8) == Some(|map_|)
    ensures ReadU32Le(bytes, 12) == Some(frameCount) && ReadsAs(bytes, 16, map_)
  {
    MapFileReads(bytes, map_, frameCount);
  }

  lemma MapUnique(bytes: Bytes, a: seq<U32>, n: U32, b: seq<U32>, m: U32)
    requires IsMapFile(bytes, a, n) && IsMapFile(bytes, b, m)
    ensures a == b
  {
    MapFields(bytes, a, n);
    MapFields(bytes, b, m);
    ReadsUnique(bytes, 16, a, b);
  }

  /** An index that is out of range is in no map file of this length. */
  lemma BadIndex(bytes: Bytes, i: nat, frameCount: U32, map_: seq<U32>)
    requires IsMapFile(bytes, map_, frameCount) && i < |map_|
    ensures ReadU32Le(bytes, 16 + 4 * i).Some? && ReadU32Le(bytes, 16 + 4 * i).value < frameCount
  {
    MapFields(bytes, map_, frameCount);
    assert ReadU32Le(bytes, 16 + 4 * i) == Some(map_[i]);
  }

  datatype Want = Nothing | Want(map_: seq<U32>, frameCount: U32)

  method ReadIndices(bytes: Bytes, count: nat, frameCount: U32, ghost want: Want) returns (r: Result<seq<U32>, MapError>)
    requires |bytes| == 16 + 4 * count
    requires want.Want? ==> IsMapFile(bytes, want.map_, want.frameCount) && want.frameCount == frameCount && |want.map_| == count
    ensures r.Ok? ==> |r.value| == count && ReadsAs(bytes, 16, r.value) && InRange(r.value, frameCount)
    ensures want.Want? ==> r.Ok?
  {
    hide IsMapFile, ReadU32Le;
    var read: seq<U32> := [];
    for i := 0 to count
      invariant |read| == i && ReadsAs(bytes, 16, read) && InRange(read, frameCount)
    {
      var frame := ReadU32Le(bytes, 16 + 4 * i).value;
      if want.Want? {
        BadIndex(bytes, i, frameCount, want.map_);
      }
      if frame >= frameCount {
        return Err(FrameOutOfRange);
      }
      read := read + [frame];
    }
    return Ok(read);
  }

  /** `read_frame_map` accepts exactly the files that a write produces, and returns what was written. */
  method ReadFrameMap(bytes: Bytes) returns (r: Result<seq<U32>, MapError>)
    ensures r.Ok? <==> exists map_, frameCount: U32 :: IsMapFile(bytes, map_, frameCount)
    ensures forall map_, frameCount: U32 | IsMapFile(bytes, map_, frameCount) :: r == Ok(map_)
  {
    ghost var want := Nothing;
    if map_, frameCount: U32 :| IsMapFile(bytes, map_, frameCount) {
      MapFields(bytes, map_, frameCount);
      want := Want(map_, frameCount);
    }
    hide IsMapFile, ReadU32Le, ReadsAs, MapFile, InRange;
    if |bytes| < 16 {
      return Err(MapTooShort);
    }
    if bytes[..4] != FRAME_MAP_MAGIC {
      return Err(NotAMap);
    }
    if ReadU32Le(bytes, 4).value != FRAME_MAP_VERSION {
      return Err(WrongVersion);
    }
    var packageCount, frameCount := ReadU32Le(bytes, 8).value, ReadU32Le(bytes, 12).value;
    var count: nat := packageCount;
    if |bytes| != 16 + count * 4 {
      return Err(WrongLength);
    }
    r := ReadIndices(bytes, count, frameCount, want);
    if r.Ok? {
      MapFound(bytes, r.value, frameCount);
      forall map_, n: U32 | IsMapFile(bytes, map_, n) ensures r == Ok(map_) {
        MapUnique(bytes, r.value, frameCount, map_, n);
      }
    }
  }

  lemma MapFound(bytes: Bytes, map_: seq<U32>, frameCount: U32)
    requires |map_| < U32_LIMIT && InRange(map_, frameCount) && |bytes| == 16 + 4 * |map_| && bytes[..4] == FRAME_MAP_MAGIC
    requires ReadU32Le(bytes, 4) == Some(FRAME_MAP_VERSION) && ReadU32Le(bytes, 8) == Some(|map_|)
    requires ReadU32Le(bytes, 12) == Some(frameCount) && ReadsAs(bytes, 16, map_)
    ensures IsMapFile(bytes, map_, frameCount)
  {
    MapFileReads(bytes, map_, frameCount);
  }
}
