/** The path table on disk: blobs behind an offset table that is patched in place, and a string table. */
module PathTableFile {
  import opened Wrappers
  import opened Bytes
  import opened StorePaths
  import opened ByteOrder
  import opened FrcodeStream
  import opened FrameWriter
  import opened SeekTable
  import opened PathTable

  const ENTRIES_MAGIC: Bytes := [78, 78, 80, 69]
  const STRINGS_MAGIC: Bytes := [78, 78, 80, 83]
  const OFFSETS_MAGIC: Bytes := [78, 78, 79, 70]
  const SIDE_VERSION: U32 := 1
  const MAX_BLOB_BYTES := 0x1000_0000

  /** The ordered map from paths to ids, the three byte tables, and the store paths. */
  datatype Table = Table(ids: map<Bytes, nat>, entries: Bytes, strings: Bytes, offsets: Bytes, stores: seq<StorePath>)

  // ---------- the layout ----------

  /** Where blob `i` starts in the entries file, or where the last one ends. */
  function BlobStart(blobs: seq<Bytes>, i: nat): nat
    requires i <= |blobs|
  {
    16 + 4 * |blobs| + |Concat(blobs[..i])|
  }

  /** Every path followed by a NUL. */
  function Terminated(keys: seq<Bytes>): Bytes {
    if keys == [] then [] else Terminated(keys[..|keys| - 1]) + (keys[|keys| - 1] + [NUL])
  }

  /** The offset table after the first `n` blobs: the starts are there up to the end of the last blob. */
  ghost predicate StartsUpTo(table: seq<U32>, blobs: seq<Bytes>, n: nat) {
    n <= |blobs| && |table| == |blobs| + 1 && (n > 0 ==> forall i | 0 <= i <= n :: table[i] == BlobStart(blobs, i))
  }

  function EntriesFile(table: seq<U32>, count: U32, body: Bytes): Bytes {
    ENTRIES_MAGIC + Words([SIDE_VERSION, count] + table) + body
  }

  function OffsetsFile(offsets: seq<U32>, count: U32): Bytes {
    OFFSETS_MAGIC + Words([SIDE_VERSION, count] + offsets)
  }

  ghost predicate StringOffsets(offsets: seq<U32>, keys: seq<Bytes>, n: nat) {
    n <= |keys| && |offsets| == n && forall i | 0 <= i < n :: offsets[i] == |Terminated(keys[..i])|
  }

  /** The tables hold these blobs under these keys, the offset tables being these. */
  ghost predicate HoldsWith(t: Table, keys: seq<Bytes>, blobs: seq<Bytes>, table: seq<U32>, offsets: seq<U32>) {
    && |keys| == |blobs| < U32_LIMIT
    && (forall k :: k in t.ids <==> k in keys) && (forall i | 0 <= i < |keys| :: keys[i] in t.ids && t.ids[keys[i]] == i)
    && StartsUpTo(table, blobs, |blobs|) && t.entries == EntriesFile(table, |keys|, Concat(blobs))
    && StringOffsets(offsets, keys, |keys|) && t.offsets == OffsetsFile(offsets, |keys|)
    && t.strings == STRINGS_MAGIC + U32Le(SIDE_VERSION) + Terminated(keys)
  }

  ghost predicate Holds(t: Table, keys: seq<Bytes>, blobs: seq<Bytes>) {
    exists table, offsets :: HoldsWith(t, keys, blobs, table, offsets)
  }

  // ---------- patching ----------

  lemma {:induction false} WordsConcat(a: seq<U32>, b: seq<U32>)
    ensures Words(a + b) == Words(a) + Words(b)
    decreases |b|
  {
    if b == [] {
      assert a + b == a;
    } else {
      var n := |b| - 1;
      assert (a + b)[..|a| + n] == a + b[..n];
      WordsConcat(a, b[..n]);
      Assoc(Words(a), Words(b[..n]), U32Le(b[n]));
    }
  }

  lemma WordsSplit(front: seq<U32>, x: U32, back: seq<U32>)
    ensures Words(front + [x] + back) == Words(front) + U32Le(x) + Words(back)
  {
    WordsConcat(front + [x], back);
    WordsConcat(front, [x]);
    WordsOne(x);
  }

  /** `copy_from_slice` into four bytes of a buffer. */
  function Patch(raw: Bytes, at: nat, x: U32): Bytes
    requires at + 4 <= |raw|
  {
    raw[..at] + U32Le(x) + raw[at + 4..]
  }

  /** Patching word `k` of a list of words changes that word. */
  lemma PatchWord(head: Bytes, words: seq<U32>, tail: Bytes, k: nat, x: U32)
    requires k < |words|
    ensures |head| + 4 * k + 4 <= |head + Words(words) + tail|
    ensures Patch(head + Words(words) + tail, |head| + 4 * k, x) == head + Words(words[k := x]) + tail
  {
    hide *;
    var front, back := words[..k], words[k + 1..];
    assert words == front + [words[k]] + back && words[k := x] == front + [x] + back;
    WordsSplit(front, words[k], back);
    WordsSplit(front, x, back);
    PatchMiddle(head, Words(front), U32Le(words[k]), Words(back), tail, x);
  }

  lemma PatchMiddle(head: Bytes, front: Bytes, word: Bytes, back: Bytes, tail: Bytes, x: U32)
    requires |word| == 4
    ensures Patch(head + (front + word + back) + tail, |head| + |front|, x) == head + (front + U32Le(x) + back) + tail
  {
    hide U32Le;
    var raw, at := head + (front + word + back) + tail, |head| + |front|;
    assert raw[..at] == head + front;
    assert raw[at + 4..] == back + tail;
    assert (head + front) + U32Le(x) + (back + tail) == head + (front + U32Le(x) + back) + tail;
  }

  /** Patching an entry of the offset table. */
  lemma PatchTable(table: seq<U32>, count: U32, body: Bytes, k: nat, x: U32)
    requires k < |table|
    ensures 12 + 4 * k + 4 <= |EntriesFile(table, count, body)|
    ensures Patch(EntriesFile(table, count, body), 12 + 4 * k, x) == EntriesFile(table[k := x], count, body)
  {
    hide Words;
    var words := [SIDE_VERSION, count] + table;
    assert words[2 + k := x] == [SIDE_VERSION, count] + table[k := x];
    PatchWord(ENTRIES_MAGIC, words, body, 2 + k, x);
  }

  // ---------- writing ----------

  /** What the loop has built after the first `n` paths. */
  ghost predicate Progress(entries: Bytes, strings: Bytes, offsets: seq<U32>, ids: map<Bytes, nat>,
                           keys: seq<Bytes>, blobs: seq<Bytes>, table: seq<U32>, n: nat)
  {
    && n <= |keys| == |blobs| < U32_LIMIT
    && StartsUpTo(table, blobs, n) && entries == EntriesFile(table, |keys|, Concat(blobs[..n]))
    && strings == STRINGS_MAGIC + U32Le(SIDE_VERSION) + Terminated(keys[..n])
    && StringOffsets(offsets, keys, n)
    && (forall k :: k in ids <==> k in keys[..n]) && (forall i | 0 <= i < n :: keys[i] in ids && ids[keys[i]] == i)
  }

  lemma ConcatNext(blobs: seq<Bytes>, n: nat)
    requires n < |blobs|
    ensures Concat(blobs[..n + 1]) == Concat(blobs[..n]) + blobs[n]
  {
    assert blobs[..n + 1][..n] == blobs[..n];
  }

  lemma TerminatedNext(keys: seq<Bytes>, n: nat)
    requires n < |keys|
    ensures Terminated(keys[..n + 1]) == Terminated(keys[..n]) + (keys[n] + [NUL])
  {
    assert keys[..n + 1][..n] == keys[..n];
  }

  /** Append a blob and patch its start and its end into the offset table. */
  method AddBlob(entries: Bytes, n: nat, blob: Bytes, ghost blobs: seq<Bytes>, ghost table: seq<U32>)
    returns (r: Result<Bytes, TableError>, ghost patched: seq<U32>)
    requires n < |blobs| < U32_LIMIT && blob == blobs[n] && StartsUpTo(table, blobs, n)
    requires entries == EntriesFile(table, |blobs|, Concat(blobs[..n]))
    ensures r.Ok? <==> |blob| <= MAX_BLOB_BYTES && BlobStart(blobs, n + 1) < U32_LIMIT
    ensures r.Ok? ==> StartsUpTo(patched, blobs, n + 1) && r.value == EntriesFile(patched, |blobs|, Concat(blobs[..n + 1]))
  {
    hide Words, U32Le, Concat;
    patched := table;
    if |blob| > MAX_BLOB_BYTES {
      return Err(BlobTooLarge), patched;
    }
    ConcatNext(blobs, n);
    var start := |entries|;
    var raw := entries + blob;
    var end := |raw|;
    assert start == BlobStart(blobs, n) && end == BlobStart(blobs, n + 1);
    if start >= U32_LIMIT || end >= U32_LIMIT {
      return Err(OffsetOverflow), patched;
    }
    EntriesGrow(table, |blobs|, Concat(blobs[..n]), blob);
    ghost var count: U32 := |blobs|;
    PatchTable(table, count, Concat(blobs[..n + 1]), n, start);
    raw := Patch(raw, 12 + 4 * n, start);
    patched := table[n := start];
    PatchTable(patched, count, Concat(blobs[..n + 1]), n + 1, end);
    raw := Patch(raw, 12 + 4 * n + 4, end);
    patched := patched[n + 1 := end];
    return Ok(raw), patched;
  }

  lemma EntriesGrow(table: seq<U32>, count: U32, body: Bytes, blob: Bytes)
    ensures EntriesFile(table, count, body) + blob == EntriesFile(table, count, body + blob)
  {
    hide Words;
    Assoc(ENTRIES_MAGIC + Words([SIDE_VERSION, count] + table), body, blob);
  }

  lemma ProgressNext(entries: Bytes, strings: Bytes, offsets: seq<U32>, ids: map<Bytes, nat>, keys: seq<Bytes>,
                     blobs: seq<Bytes>, table: seq<U32>, n: nat, longer: Bytes, patched: seq<U32>)
    requires Progress(entries, strings, offsets, ids, keys, blobs, table, n) && n < |keys| && Sorted(keys)
    requires StartsUpTo(patched, blobs, n + 1) && longer == EntriesFile(patched, |blobs|, Concat(blobs[..n + 1]))
    requires |Terminated(keys[..n])| < U32_LIMIT
    ensures Progress(longer, strings + keys[n] + [NUL], offsets + [|Terminated(keys[..n])|], ids[keys[n] := n],
                     keys, blobs, patched, n + 1)
  {
    hide Words, U32Le, Concat, Terminated, Less, StartsUpTo, EntriesFile;
    TerminatedNext(keys, n);
    Assoc4(strings[..8], Terminated(keys[..n]), keys[n], [NUL]);
    StringsGrow(strings, Terminated(keys[..n]), keys[n]);
    assert keys[..n + 1] == keys[..n] + [keys[n]];
    forall i | 0 <= i < n ensures keys[i] != keys[n] {
      DistinctKeys(keys, i, n);
    }
  }

  lemma StringsGrow(strings: Bytes, before: Bytes, key: Bytes)
    requires strings == STRINGS_MAGIC + U32Le(SIDE_VERSION) + before
    ensures strings + key + [NUL] == STRINGS_MAGIC + U32Le(SIDE_VERSION) + (before + (key + [NUL]))
  {
    hide U32Le;
    Assoc(STRINGS_MAGIC + U32Le(SIDE_VERSION), before, key + [NUL]);
    Assoc(strings, key, [NUL]);
  }

  lemma DistinctKeys(keys: seq<Bytes>, i: nat, j: nat)
    requires Sorted(keys) && i < j < |keys|
    ensures keys[i] != keys[j]
  {
    if keys[i] == keys[j] {
      SortedDistinct(keys, i, j);
    }
  }

  /** The blobs that the table will hold. */
  function Blobs(codec: Codec, paths: map<Bytes, seq<Record>>, keys: seq<Bytes>): seq<Bytes> {
    seq(|keys|, i requires 0 <= i < |keys| => codec.encode(RecordsOf(paths, keys[i])))
  }

  lemma NoProgress(keys: seq<Bytes>, blobs: seq<Bytes>)
    requires |keys| == |blobs| < U32_LIMIT
    ensures Progress(EntriesFile(Zeros(|keys| + 1), |keys|, []), STRINGS_MAGIC + U32Le(SIDE_VERSION), [], map[],
                     keys, blobs, Zeros(|keys| + 1), 0)
  {
    assert blobs[..0] == [] && keys[..0] == [];
    assert STRINGS_MAGIC + U32Le(SIDE_VERSION) + [] == STRINGS_MAGIC + U32Le(SIDE_VERSION);
  }

  function Zeros(n: nat): seq<U32> {
    seq(n, _ => 0)
  }

  /** The header of the entries file, with room for the offset table. */
  method EntriesHeader(count: U32) returns (raw: Bytes)
    ensures raw == EntriesFile(Zeros(count + 1), count, [])
  {
    raw := ENTRIES_MAGIC + U32Le(SIDE_VERSION) + U32Le(count);
    ghost var head := [SIDE_VERSION, count];
    assert head == [SIDE_VERSION] + [count];
    WordsConcat([SIDE_VERSION], [count]);
    WordsOne(SIDE_VERSION);
    WordsOne(count);
    Assoc(ENTRIES_MAGIC, U32Le(SIDE_VERSION), U32Le(count));
    assert head + Zeros(0) == head;
    for n := 0 to count + 1
      invariant raw == ENTRIES_MAGIC + Words(head + Zeros(n))
    {
      assert head + Zeros(n + 1) == head + Zeros(n) + [0];
      WordsConcat(head + Zeros(n), [0]);
      WordsOne(0);
      Assoc(ENTRIES_MAGIC, Words(head + Zeros(n)), U32Le(0));
      raw := raw + U32Le(0);
    }
    assert raw + [] == raw;
  }

  method WriteOffsets(offsets: seq<U32>, count: U32) returns (raw: Bytes)
    ensures raw == OffsetsFile(offsets, count)
  {
    raw := OFFSETS_MAGIC + U32Le(SIDE_VERSION) + U32Le(count);
    ghost var head := [SIDE_VERSION, count];
    assert head == [SIDE_VERSION] + [count];
    WordsConcat([SIDE_VERSION], [count]);
    WordsOne(SIDE_VERSION);
    WordsOne(count);
    Assoc(OFFSETS_MAGIC, U32Le(SIDE_VERSION), U32Le(count));
    assert head + offsets[..0] == head;
    for n := 0 to |offsets|
      invariant raw == OFFSETS_MAGIC + Words(head + offsets[..n])
    {
      assert head + offsets[..n + 1] == head + offsets[..n] + [offsets[n]];
      WordsConcat(head + offsets[..n], [offsets[n]]);
      WordsOne(offsets[n]);
      Assoc(OFFSETS_MAGIC, Words(head + offsets[..n]), U32Le(offsets[n]));
      raw := raw + U32Le(offsets[n]);
    }
    assert offsets[..|offsets|] == offsets;
  }

  /** No check failed for the first `n` paths. */
  ghost predicate FitsUpTo(keys: seq<Bytes>, blobs: seq<Bytes>, n: nat) {
    && |keys| == |blobs| && n <= |keys|
    && (forall i | 0 <= i < n :: |blobs[i]| <= MAX_BLOB_BYTES && BlobStart(blobs, i + 1) < U32_LIMIT)
    && (forall i | 0 <= i < n :: |Terminated(keys[..i])| < U32_LIMIT)
  }

  /**
   * `write_sidecars`: the sorted paths get consecutive ids, their blobs go behind the offset table,
   * and each turn patches the start and the end of its blob, the end being the start of the next.
   */
  method WriteTable(stores: seq<StorePath>, paths: map<Bytes, seq<Record>>, codec: Codec)
    returns (r: Result<Table, TableError>)
    ensures var keys := Ordered(paths.Keys);
            var blobs := Blobs(codec, paths, keys);
            && (r.Ok? <==> |keys| < U32_LIMIT && FitsUpTo(keys, blobs, |keys|))
            && (r.Ok? ==> Holds(r.value, keys, blobs) && r.value.stores == stores)
  {
    var sorted := SortKeys(paths.Keys);
    ghost var keys := sorted;
    OneOrder(keys, Ordered(paths.Keys), paths.Keys);
    ghost var blobs := Blobs(codec, paths, keys);
    if |sorted| >= U32_LIMIT {
      return Err(OffsetOverflow);
    }
    var count: U32 := |sorted|;
    var entries := EntriesHeader(count);
    var strings := STRINGS_MAGIC + U32Le(SIDE_VERSION);
    var stringOffsets: seq<U32> := [];
    var ids: map<Bytes, nat> := map[];
    ghost var table := Zeros(|keys| + 1);
    NoProgress(keys, blobs);
    assert FitsUpTo(keys, blobs, 0) && Sorted(keys);
    hide Progress, FitsUpTo, Sorted, InOrder, Ordered, Holds, EntriesFile, OffsetsFile, U32Le, Words;
    for n := 0 to count
      invariant Progress(entries, strings, stringOffsets, ids, keys, blobs, table, n) && FitsUpTo(keys, blobs, n)
    {
      var added, turn;
      added, turn, table := AddPath(entries, strings, stringOffsets, ids, sorted[n], codec.encode(RecordsOf(paths, sorted[n])),
                                    n, keys, blobs, table);
      if !added {
        return Err(OffsetOverflow);
      }
      entries, strings, stringOffsets, ids := turn.entries, turn.strings, turn.offsets, turn.ids;
    }
    var offsetFile := WriteOffsets(stringOffsets, count);
    r := Ok(Table(ids, entries, strings, offsetFile, stores));
    Done(r.value, keys, blobs, table, stringOffsets);
  }

  /** The state of the writing loop. */
  datatype Turn = Turn(entries: Bytes, strings: Bytes, offsets: seq<U32>, ids: map<Bytes, nat>)

  /** One path: its blob, its id, its string. */
  method AddPath(entries: Bytes, strings: Bytes, offsets: seq<U32>, ids: map<Bytes, nat>, key: Bytes, blob: Bytes, n: nat,
                 ghost keys: seq<Bytes>, ghost blobs: seq<Bytes>, ghost table: seq<U32>)
    returns (ok: bool, turn: Turn, ghost patched: seq<U32>)
    requires Progress(entries, strings, offsets, ids, keys, blobs, table, n) && n < |keys| && Sorted(keys)
    requires key == keys[n] && blob == blobs[n] && FitsUpTo(keys, blobs, n)
    ensures ok <==> FitsUpTo(keys, blobs, n + 1)
    ensures !ok ==> !FitsUpTo(keys, blobs, |keys|)
    ensures ok ==> Progress(turn.entries, turn.strings, turn.offsets, turn.ids, keys, blobs, patched, n + 1)
  {
    hide Words, U32Le, Concat, Terminated, Sorted, EntriesFile, StartsUpTo;
    var added;
    added, patched := AddBlob(entries, n, blob, blobs, table);
    turn := Turn(entries, strings, offsets, ids);
    if added.Err? {
      return false, turn, patched;
    }
    var offset := |strings| - 8;
    StringsLength(strings, Terminated(keys[..n]));
    if offset >= U32_LIMIT {
      return false, turn, patched;
    }
    ProgressNext(entries, strings, offsets, ids, keys, blobs, table, n, added.value, patched);
    turn := Turn(added.value, strings + key + [NUL], offsets + [offset], ids[key := n]);
    return true, turn, patched;
  }

  lemma StringsLength(strings: Bytes, before: Bytes)
    requires strings == STRINGS_MAGIC + U32Le(SIDE_VERSION) + before
    ensures |strings| - 8 == |before|
  {
  }

  lemma Done(t: Table, keys: seq<Bytes>, blobs: seq<Bytes>, table: seq<U32>, offsets: seq<U32>)
    requires Progress(t.entries, t.strings, offsets, t.ids, keys, blobs, table, |keys|)
    requires t.offsets == OffsetsFile(offsets, |keys|)
    ensures Holds(t, keys, blobs)
  {
    assert keys[..|keys|] == keys && blobs[..|blobs|] == blobs;
    assert HoldsWith(t, keys, blobs, table, offsets);
  }
}
