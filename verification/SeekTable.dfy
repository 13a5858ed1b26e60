/**
 * The seek table: a skippable frame (section 3.1.2 of RFC 8878) behind the compressed frames that
 * lists their lengths, framed by its own payload length so that it can be found from the end.
 */
module SeekTable {
  import opened Wrappers
  import opened Bytes
  import opened FrameWriter

  const SKIPPABLE_MAGIC: U32 := 0x184D_2A50
  const DATA_START := 12

  datatype SeekError =
    | TooShort | Truncated | MagicMismatch | SizeMismatch | PayloadTooShort
    | TooManyFrames | LengthMismatch | TrailingMismatch | CompressedMismatch

  /** Where a compressed frame lies in the file. */
  datatype Slot = Slot(offset: nat, len: nat)

  // ---------- lists of little-endian words ----------

  function Words(words: seq<U32>): (r: Bytes)
    ensures |r| == 4 * |words|
  {
    if words == [] then [] else Words(words[..|words| - 1]) + U32Le(words[|words| - 1])
  }

  /** The words are what one reads from `at` on. */
  predicate ReadsAs(data: Bytes, at: nat, words: seq<U32>) {
    at + 4 * |words| <= |data| && forall i | 0 <= i < |words| :: ReadU32Le(data, at + 4 * i) == Some(words[i])
  }

  lemma WordBytes(data: Bytes, at: nat, n: U32)
    requires at + 4 <= |data|
    ensures ReadU32Le(data, at) == Some(n) <==> data[at..at + 4] == U32Le(n)
  {
    if data[at..at + 4] == U32Le(n) {
      U32RoundTrip(data, at, n);
    }
    if ReadU32Le(data, at) == Some(n) {
      var b0: int, b1: int, b2: int, b3: int := data[at], data[at + 1], data[at + 2], data[at + 3];
      var q1 := b1 + 256 * b2 + 65536 * b3;
      var q2 := b2 + 256 * b3;
      assert n == b0 + 256 * q1 && n % 256 == b0 && n / 256 == q1;
      assert q1 == b1 + 256 * q2 && q1 % 256 == b1 && q1 / 256 == q2;
    }
  }

  lemma SplitEqual(s: Bytes, n: nat, a: Bytes, b: Bytes)
    requires n == |a| && n + |b| == |s|
    ensures s == a + b <==> s[..n] == a && s[n..] == b
  {
    assert s == s[..n] + s[n..];
  }

  lemma ReadsNext(data: Bytes, at: nat, words: seq<U32>)
    requires words != [] && at + 4 * |words| <= |data|
    ensures var n := |words| - 1;
            ReadsAs(data, at, words) <==> ReadsAs(data, at, words[..n]) && ReadU32Le(data, at + 4 * n) == Some(words[n])
  {
    hide ReadU32Le;
    var front := words[..|words| - 1];
    assert forall i | 0 <= i < |front| :: front[i] == words[i];
  }

  /** Reading a list of words and finding its bytes are the same thing. */
  lemma {:induction false} ReadsWords(data: Bytes, at: nat, words: seq<U32>)
    requires at + 4 * |words| <= |data|
    ensures ReadsAs(data, at, words) <==> data[at..at + 4 * |words|] == Words(words)
  {
    hide ReadU32Le, U32Le;
    if words == [] {
      assert data[at..at] == [];
    } else {
      hide ReadsAs;
      var n := |words| - 1;
      ReadsNext(data, at, words);
      ReadsWords(data, at, words[..n]);
      WordBytes(data, at + 4 * n, words[n]);
      var slice := data[at..at + 4 * |words|];
      SplitEqual(slice, 4 * n, Words(words[..n]), U32Le(words[n]));
      assert slice[..4 * n] == data[at..at + 4 * n] && slice[4 * n..] == data[at + 4 * n..at + 4 * n + 4];
    }
  }

  // ---------- the table ----------

  function PayloadLen(frames: nat): nat {
    4 + 4 * frames + 4
  }

  predicate TableFits(lens: seq<U32>) {
    PayloadLen(|lens|) < U32_LIMIT
  }

  function TableWords(lens: seq<U32>): seq<U32>
    requires TableFits(lens)
  {
    [SKIPPABLE_MAGIC, PayloadLen(|lens|), |lens|] + lens + [PayloadLen(|lens|)]
  }

  /** The whole skippable frame. */
  function Table(lens: seq<U32>): (r: Bytes)
    requires TableFits(lens)
    ensures |r| == 8 + PayloadLen(|lens|)
  {
    Words(TableWords(lens))
  }

  /** Print the table word by word. */
  method WriteTable(lens: seq<U32>) returns (table: Bytes)
    requires TableFits(lens)
    ensures table == Table(lens)
  {
    var payloadLen := 4 + 4 * |lens| + 4;
    table := U32Le(SKIPPABLE_MAGIC);
    table := table + U32Le(payloadLen);
    table := table + U32Le(|lens|);
    ghost var head := [SKIPPABLE_MAGIC, payloadLen, |lens|];
    WordsThree(SKIPPABLE_MAGIC, payloadLen, |lens|);
    assert head + lens[..0] == head;
    for i := 0 to |lens|
      invariant table == Words(head + lens[..i])
    {
      assert (head + lens[..i + 1])[..3 + i] == head + lens[..i];
      table := table + U32Le(lens[i]);
    }
    assert lens[..|lens|] == lens && TableWords(lens)[..3 + |lens|] == head + lens;
    table := table + U32Le(payloadLen);
  }

  lemma WordsOne(n: U32)
    ensures Words([n]) == U32Le(n)
  {
    assert [n][..0] == [] && [] + U32Le(n) == U32Le(n);
  }

  lemma WordsThree(a: U32, b: U32, c: U32)
    ensures Words([a, b, c]) == U32Le(a) + U32Le(b) + U32Le(c)
  {
    assert [a, b, c][..2] == [a, b] && [a, b][..1] == [a] && [a][..0] == [];
    assert Words([a]) == [] + U32Le(a) == U32Le(a);
    assert Words([a, b]) == Words([a]) + U32Le(b);
  }

  function Sum(lens: seq<U32>): nat {
    if lens == [] then 0 else Sum(lens[..|lens| - 1]) + lens[|lens| - 1]
  }

  /** Consecutive slots from `start` on. */
  function Slots(start: nat, lens: seq<U32>): (r: seq<Slot>)
    ensures |r| == |lens|
  {
    if lens == [] then []
    else
      var n := |lens| - 1;
      Slots(start, lens[..n]) + [Slot(start + Sum(lens[..n]), lens[n])]
  }

  /** Slots without gap or overlap from `start` to `end`. */
  predicate Tile(slots: seq<Slot>, start: nat, end: nat) {
    && (if slots == [] then start == end
        else slots[0].offset == start && slots[|slots| - 1].offset + slots[|slots| - 1].len == end)
    && forall i | 0 < i < |slots| :: slots[i].offset == slots[i - 1].offset + slots[i - 1].len
  }

  lemma {:induction false} SlotsTile(start: nat, lens: seq<U32>)
    ensures Tile(Slots(start, lens), start, start + Sum(lens))
  {
    if lens != [] {
      SlotsTile(start, lens[..|lens| - 1]);
      assert |lens| == 1 ==> lens[..0] == [];
    }
  }

  /** The file ends with the table of these lengths, and they fill the space between header and table. */
  ghost predicate HasTable(data: Bytes, start: nat, lens: seq<U32>) {
    && |lens| <= MAX_FRAME_COUNT
    && start + Sum(lens) + |Table(lens)| == |data|
    && data[|data| - |Table(lens)|..] == Table(lens)
  }

  /** The same, as the words that the parser reads. */
  ghost predicate HasTableWords(data: Bytes, start: nat, lens: seq<U32>) {
    && |lens| <= MAX_FRAME_COUNT
    && start + Sum(lens) + 8 + PayloadLen(|lens|) == |data|
    && ReadsAs(data, |data| - 8 - PayloadLen(|lens|), TableWords(lens))
  }

  lemma TableIsWords(data: Bytes, start: nat, lens: seq<U32>)
    ensures HasTable(data, start, lens) <==> HasTableWords(data, start, lens)
  {
    if |lens| <= MAX_FRAME_COUNT && start + Sum(lens) + 8 + PayloadLen(|lens|) == |data| {
      var at := |data| - 8 - PayloadLen(|lens|);
      ReadsWords(data, at, TableWords(lens));
      assert data[at..at + 4 * |TableWords(lens)|] == data[at..];
    }
  }

  /** What the parser finds where, when the table is there. */
  lemma TableFields(data: Bytes, start: nat, lens: seq<U32>)
    requires HasTableWords(data, start, lens)
    ensures var p := PayloadLen(|lens|);
            var at := |data| - 8 - p;
            && ReadU32Le(data, at) == Some(SKIPPABLE_MAGIC) && ReadU32Le(data, at + 4) == Some(p)
            && ReadU32Le(data, at + 8) == Some(|lens|) && ReadU32Le(data, |data| - 4) == Some(p)
            && forall i | 0 <= i < |lens| :: ReadU32Le(data, at + 12 + 4 * i) == Some(lens[i])
  {
    var words, p := TableWords(lens), PayloadLen(|lens|);
    var at := |data| - 8 - p;
    assert words[0] == SKIPPABLE_MAGIC && words[1] == p && words[2] == |lens| && words[3 + |lens|] == p;
    assert ReadU32Le(data, at + 4 * 0) == Some(words[0]) && ReadU32Le(data, at + 4 * 1) == Some(words[1]);
    assert ReadU32Le(data, at + 4 * 2) == Some(words[2]) && ReadU32Le(data, at + 4 * (3 + |lens|)) == Some(p);
    forall i | 0 <= i < |lens| ensures ReadU32Le(data, at + 12 + 4 * i) == Some(lens[i]) {
      assert words[3 + i] == lens[i] && ReadU32Le(data, at + 4 * (3 + i)) == Some(words[3 + i]);
    }
  }

  // ---------- the parser ----------

  /** The checks on the skippable frame itself: where its payload starts, and how long it is. */
  method FindPayload(data: Bytes, ghost want: Option<seq<U32>>)
    returns (r: Option<nat>, error: SeekError, payloadLen: U32)
    requires want.Some? ==> HasTableWords(data, DATA_START, want.value)
    ensures r.Some? ==>
              && r.value >= DATA_START + 8 && r.value + payloadLen == |data| && payloadLen >= 4
              && ReadsAs(data, r.value - 8, [SKIPPABLE_MAGIC, payloadLen])
              && ReadU32Le(data, |data| - 4) == Some(payloadLen)
    ensures want.Some? ==> r.Some? && payloadLen == PayloadLen(|want.value|)
  {
    if want.Some? {
      TableFields(data, DATA_START, want.value);
    }
    hide HasTableWords, ReadU32Le;
    error, payloadLen := TooShort, 0;
    if |data| < DATA_START + 8 {
      return None, error, payloadLen;
    }
    payloadLen := ReadU32Le(data, |data| - 4).value;
    var size := 8 + payloadLen;
    if |data| < DATA_START + size {
      return None, Truncated, payloadLen;
    }
    var at := |data| - size;
    if ReadU32Le(data, at).value != SKIPPABLE_MAGIC {
      return None, MagicMismatch, payloadLen;
    }
    if ReadU32Le(data, at + 4).value != payloadLen {
      return None, SizeMismatch, payloadLen;
    }
    if payloadLen < 4 {
      return None, PayloadTooShort, payloadLen;
    }
    return Some(at + 8), error, payloadLen;
  }

  /** The frame lengths listed from `at` on. */
  method ReadLengths(data: Bytes, at: nat, count: nat) returns (lens: seq<U32>, total: nat)
    requires at + 4 * count <= |data|
    ensures |lens| == count && ReadsAs(data, at, lens) && total == Sum(lens)
  {
    hide ReadU32Le;
    lens := [];
    for i := 0 to count
      invariant |lens| == i && ReadsAs(data, at, lens)
    {
      lens := lens + [ReadU32Le(data, at + 4 * i).value];
    }
    total := 0;
    assert lens[..0] == [];
    for i := 0 to count
      invariant total == Sum(lens[..i])
    {
      assert lens[..i + 1][..i] == lens[..i];
      total := total + lens[i];
    }
    assert lens[..count] == lens;
  }

  /** Slots one behind the other. */
  method LayOut(lens: seq<U32>) returns (slots: seq<Slot>)
    ensures slots == Slots(DATA_START, lens)
  {
    slots := [];
    var offset := DATA_START;
    for i := 0 to |lens|
      invariant slots == Slots(DATA_START, lens[..i]) && offset == DATA_START + Sum(lens[..i])
    {
      assert lens[..i + 1][..i] == lens[..i];
      slots := slots + [Slot(offset, lens[i])];
      offset := offset + lens[i];
    }
    assert lens[..|lens|] == lens;
  }

  /** Lists of words that are read from the same place are equal. */
  lemma ReadsUnique(data: Bytes, at: nat, a: seq<U32>, b: seq<U32>)
    requires ReadsAs(data, at, a) && ReadsAs(data, at, b) && |a| == |b|
    ensures a == b
  {
  }

  lemma LengthsOf(data: Bytes, lens: seq<U32>)
    requires HasTableWords(data, DATA_START, lens)
    ensures ReadU32Le(data, |data| - PayloadLen(|lens|)) == Some(|lens|)
    ensures ReadsAs(data, |data| - PayloadLen(|lens|) + 4, lens)
    ensures |lens| <= MAX_FRAME_COUNT && DATA_START + Sum(lens) + 8 + PayloadLen(|lens|) == |data|
  {
    TableFields(data, DATA_START, lens);
  }

  lemma TableFound(data: Bytes, payload: nat, payloadLen: nat, lens: seq<U32>)
    requires payload >= DATA_START + 8 && payload + payloadLen == |data| && payloadLen == PayloadLen(|lens|)
    requires |lens| <= MAX_FRAME_COUNT && DATA_START + Sum(lens) + 8 == payload
    requires ReadsAs(data, payload - 8, [SKIPPABLE_MAGIC, payloadLen]) && ReadU32Le(data, payload) == Some(|lens|)
    requires ReadsAs(data, payload + 4, lens) && ReadU32Le(data, |data| - 4) == Some(payloadLen)
    ensures HasTable(data, DATA_START, lens)
  {
    hide ReadU32Le, HasTable, Sum;
    WordsFound(data, payload, payloadLen, lens);
    hide ReadsAs, TableWords;
    TableIsWords(data, DATA_START, lens);
  }

  lemma WordsFound(data: Bytes, payload: nat, payloadLen: nat, lens: seq<U32>)
    requires payload >= 8 && payload + payloadLen == |data| && payloadLen == PayloadLen(|lens|) && TableFits(lens)
    requires ReadsAs(data, payload - 8, [SKIPPABLE_MAGIC, payloadLen]) && ReadU32Le(data, payload) == Some(|lens|)
    requires ReadsAs(data, payload + 4, lens) && ReadU32Le(data, |data| - 4) == Some(payloadLen)
    ensures ReadsAs(data, payload - 8, TableWords(lens))
  {
    hide ReadU32Le;
    var words, at := TableWords(lens), payload - 8;
    var head := [SKIPPABLE_MAGIC, payloadLen];
    assert ReadU32Le(data, at + 4 * 0) == Some(head[0]) && ReadU32Le(data, at + 4 * 1) == Some(head[1]);
    forall i | 0 <= i < |words| ensures ReadU32Le(data, at + 4 * i) == Some(words[i]) {
      if 3 <= i < 3 + |lens| {
        assert words[i] == lens[i - 3] && ReadU32Le(data, payload + 4 + 4 * (i - 3)) == Some(lens[i - 3]);
      }
    }
  }

  /** No file ends with two different tables. */
  lemma TableUnique(data: Bytes, a: seq<U32>, b: seq<U32>)
    requires HasTable(data, DATA_START, a) && HasTable(data, DATA_START, b)
    ensures a == b
  {
    TableIsWords(data, DATA_START, a);
    TableIsWords(data, DATA_START, b);
    TableFields(data, DATA_START, a);
    TableFields(data, DATA_START, b);
    LengthsOf(data, a);
    LengthsOf(data, b);
    ReadsUnique(data, |data| - PayloadLen(|a|) + 4, a, b);
  }

  /** Read the payload: the number of frames, their lengths, and the payload length once more. */
  method ParsePayload(data: Bytes, payload: nat, payloadLen: U32, ghost want: Option<seq<U32>>)
    returns (r: Result<seq<Slot>, SeekError>, ghost lens: seq<U32>)
    requires payload >= DATA_START + 8 && payload + payloadLen == |data| && payloadLen >= 4
    requires ReadsAs(data, payload - 8, [SKIPPABLE_MAGIC, payloadLen]) && ReadU32Le(data, |data| - 4) == Some(payloadLen)
    requires want.Some? ==> HasTableWords(data, DATA_START, want.value) && payloadLen == PayloadLen(|want.value|)
    ensures r.Ok? ==> HasTable(data, DATA_START, lens) && r.value == Slots(DATA_START, lens)
    ensures want.Some? ==> r.Ok?
  {
    if want.Some? {
      LengthsOf(data, want.value);
    }
    hide HasTable, HasTableWords, ReadU32Le, ReadsAs, Sum, Slots, TableWords;
    lens := [];
    var count := ReadU32Le(data, payload).value;
    if count > MAX_FRAME_COUNT {
      return Err(TooManyFrames), lens;
    }
    if 4 + 4 * count + 4 != payloadLen {
      return Err(LengthMismatch), lens;
    }
    var read, total := ReadLengths(data, payload + 4, count);
    lens := read;
    if ReadU32Le(data, |data| - 4).value != payloadLen {
      return Err(TrailingMismatch), lens;
    }
    if want.Some? {
      ReadsUnique(data, payload + 4, want.value, read);
    }
    if total != payload - 8 - DATA_START {
      return Err(CompressedMismatch), lens;
    }
    TableFound(data, payload, payloadLen, read);
    var slots := LayOut(read);
    return Ok(slots), lens;
  }

  /**
   * `parse_seek_table`. On any bytes whatsoever the parser reads within bounds, and it accepts exactly
   * the files that end with a printed table whose lengths fill the space behind the header; it
   * then returns those consecutive slots.
   */
  method ParseTable(data: Bytes) returns (r: Result<seq<Slot>, SeekError>)
    ensures r.Ok? <==> exists lens :: HasTable(data, DATA_START, lens)
    ensures forall lens | HasTable(data, DATA_START, lens) :: r == Ok(Slots(DATA_START, lens))
  {
    ghost var want: Option<seq<U32>> := None;
    if lens :| HasTable(data, DATA_START, lens) {
      TableIsWords(data, DATA_START, lens);
      want := Some(lens);
    }
    hide HasTable, Slots, ReadU32Le, ReadsAs, HasTableWords;
    var found, error, payloadLen := FindPayload(data, want);
    if found.None? {
      return Err(error);
    }
    ghost var lens;
    r, lens := ParsePayload(data, found.value, payloadLen, want);
    forall other | HasTable(data, DATA_START, other) ensures r == Ok(Slots(DATA_START, other)) {
      TableUnique(data, lens, other);
    }
  }
}
