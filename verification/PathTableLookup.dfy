/** Looking things up in a path table: the path of an id, the id of a path, the hits of either. */
module PathTableLookup {
  import opened Wrappers
  import opened Bytes
  import opened Files
  import opened StorePaths
  import opened SearchSpec
  import opened ByteOrder
  import opened FrcodeStream
  import opened FrameWriter
  import opened SeekTable
  import opened PathTable
  import opened PathTableFile

  /** The words of a file that starts with four magic bytes. */
  lemma FileWords(magic: Bytes, words: seq<U32>, tail: Bytes)
    requires |magic| == 4
    ensures ReadsAs(magic + Words(words) + tail, 4, words)
  {
    hide ReadsAs, Words;
    var data := magic + Words(words) + tail;
    assert data[4..4 + 4 * |words|] == Words(words);
    ReadsWords(data, 4, words);
  }

  lemma EntriesWords(table: seq<U32>, count: U32, body: Bytes)
    ensures var data := EntriesFile(table, count, body);
            ReadU32Le(data, 8) == Some(count) && |data| == 12 + 4 * |table| + |body| && ReadsAs(data, 12, table)
            && data[12 + 4 * |table|..] == body
  {
    hide ReadU32Le, Words;
    var words := [SIDE_VERSION, count] + table;
    var data := EntriesFile(table, count, body);
    FileWords(ENTRIES_MAGIC, words, body);
    assert ReadU32Le(data, 4 + 4 * 1) == Some(words[1]);
    forall i | 0 <= i < |table| ensures ReadU32Le(data, 12 + 4 * i) == Some(table[i]) {
      assert ReadU32Le(data, 4 + 4 * (2 + i)) == Some(words[2 + i]);
    }
    assert data == (ENTRIES_MAGIC + Words(words)) + body;
  }

  lemma OffsetsWords(offsets: seq<U32>, count: U32)
    ensures var data := OffsetsFile(offsets, count);
            ReadU32Le(data, 8) == Some(count) && ReadsAs(data, 12, offsets)
  {
    hide ReadU32Le, Words;
    var words := [SIDE_VERSION, count] + offsets;
    var data := OffsetsFile(offsets, count);
    FileWords(OFFSETS_MAGIC, words, []);
    assert OFFSETS_MAGIC + Words(words) + [] == data;
    assert ReadU32Le(data, 4 + 4 * 1) == Some(words[1]);
    forall i | 0 <= i < |offsets| ensures ReadU32Le(data, 12 + 4 * i) == Some(offsets[i]) {
      assert ReadU32Le(data, 4 + 4 * (2 + i)) == Some(words[2 + i]);
    }
  }

  lemma ReadWord(data: Bytes, table: seq<U32>, i: nat)
    requires ReadsAs(data, 12, table) && i < |table|
    ensures ReadU32Le(data, 12 + 4 * i) == Some(table[i])
  {
    hide ReadU32Le;
  }

  /** Blob `i` lies between its start and the next. */
  lemma BlobInFile(table: seq<U32>, count: U32, blobs: seq<Bytes>, i: nat)
    requires StartsUpTo(table, blobs, |blobs|) && i < |blobs|
    ensures var data := EntriesFile(table, count, Concat(blobs));
            var start, end := ReadU32Le(data, 12 + 4 * i), ReadU32Le(data, 12 + 4 * i + 4);
            start.Some? && end.Some? && start.value <= end.value <= |data| && data[start.value..end.value] == blobs[i]
  {
    hide ReadU32Le, EntriesFile, Concat, BlobStart, ReadsAs;
    BlobBetween(table, count, blobs, i);
    EntriesWords(table, count, Concat(blobs));
    var data := EntriesFile(table, count, Concat(blobs));
    ReadWord(data, table, i);
    ReadWord(data, table, i + 1);
    assert 12 + 4 * (i + 1) == 12 + 4 * i + 4;
  }

  lemma CountInFile(table: seq<U32>, count: U32, blobs: seq<Bytes>)
    ensures ReadU32Le(EntriesFile(table, count, Concat(blobs)), 8) == Some(count)
  {
    EntriesWords(table, count, Concat(blobs));
  }

  lemma BlobBetween(table: seq<U32>, count: U32, blobs: seq<Bytes>, i: nat)
    requires StartsUpTo(table, blobs, |blobs|) && i < |blobs|
    ensures var data := EntriesFile(table, count, Concat(blobs));
            var start, end := BlobStart(blobs, i), BlobStart(blobs, i + 1);
            start <= end <= |data| && data[start..end] == blobs[i]
  {
    hide *;
    TableLength(table, blobs);
    BodyBehind(table, count, Concat(blobs), |blobs|);
    ConcatAround(blobs, i);
    StartAndEnd(blobs, i);
    PartBehind(EntriesFile(table, count, Concat(blobs)), 16 + 4 * |blobs|,
               Concat(blobs[..i]), blobs[i], Concat(blobs[i + 1..]));
  }

  lemma TableLength(table: seq<U32>, blobs: seq<Bytes>)
    requires StartsUpTo(table, blobs, |blobs|)
    ensures |table| == |blobs| + 1
  {
  }

  lemma StartAndEnd(blobs: seq<Bytes>, i: nat)
    requires i < |blobs|
    ensures BlobStart(blobs, i) == 16 + 4 * |blobs| + |Concat(blobs[..i])|
    ensures BlobStart(blobs, i + 1) == 16 + 4 * |blobs| + |Concat(blobs[..i])| + |blobs[i]|
  {
    hide Concat;
    ConcatNext(blobs, i);
  }

  lemma BodyBehind(table: seq<U32>, count: U32, body: Bytes, n: nat)
    requires |table| == n + 1
    ensures var data := EntriesFile(table, count, body);
            |data| == 16 + 4 * n + |body| && data[16 + 4 * n..] == body
  {
    EntriesWords(table, count, body);
    hide EntriesFile, ReadsAs, ReadU32Le;
  }

  lemma ConcatAround(blobs: seq<Bytes>, i: nat)
    requires i < |blobs|
    ensures Concat(blobs) == Concat(blobs[..i]) + blobs[i] + Concat(blobs[i + 1..])
    ensures Concat(blobs[..i + 1]) == Concat(blobs[..i]) + blobs[i]
  {
    hide Concat;
    assert blobs == blobs[..i + 1] + blobs[i + 1..];
    ConcatAppend(blobs[..i + 1], blobs[i + 1..]);
    ConcatNext(blobs, i);
  }

  lemma PartBehind(data: Bytes, base: nat, before: Bytes, part: Bytes, after: Bytes)
    requires base <= |data| && data[base..] == before + part + after
    ensures base + |before| + |part| <= |data|
    ensures data[base + |before|..base + |before| + |part|] == part
  {
    assert data[base + |before|..base + |before| + |part|] == data[base..][|before|..|before| + |part|];
  }

  /** Path `i` stands in the string table at its offset, up to the next NUL. */
  lemma StringAt(keys: seq<Bytes>, i: nat)
    requires i < |keys| && NUL !in keys[i]
    ensures |Terminated(keys[..i])| <= |Terminated(keys)|
    ensures var tail := Terminated(keys)[|Terminated(keys[..i])|..];
            var end := IndexOf(tail, NUL);
            end < |tail| && end == |keys[i]| && tail[..end] == keys[i]
  {
    hide Terminated, IndexOf;
    TerminatedSplit(keys, i + 1);
    TerminatedNext(keys, i);
    FirstString(Terminated(keys), Terminated(keys[..i]), keys[i], Terminated(keys[i + 1..]));
  }

  /** Behind what comes before it, a string ends at the first NUL. */
  lemma FirstString(whole: Bytes, before: Bytes, text: Bytes, rest: Bytes)
    requires whole == before + (text + [NUL]) + rest && NUL !in text
    ensures |before| <= |whole|
    ensures var tail := whole[|before|..]; IndexOf(tail, NUL) == |text| < |tail| && tail[..|text|] == text
  {
    hide IndexOf;
    var tail := text + [NUL] + rest;
    Assoc(before, text + [NUL], rest);
    Drop(before, tail);
    Take(text, [NUL] + rest);
    Assoc(text, [NUL], rest);
    IndexOfIs(tail, NUL, |text|);
  }

  lemma Drop(a: Bytes, b: Bytes)
    ensures (a + b)[|a|..] == b
  {
  }

  lemma Take(a: Bytes, b: Bytes)
    ensures (a + b)[..|a|] == a
  {
  }

  lemma {:induction false} TerminatedSplit(keys: seq<Bytes>, i: nat)
    requires i <= |keys|
    ensures Terminated(keys) == Terminated(keys[..i]) + Terminated(keys[i..])
    decreases |keys|
  {
    if i == |keys| {
      assert keys[..i] == keys && keys[i..] == [];
    } else {
      var n := |keys| - 1;
      TerminatedSplit(keys[..n], i);
      assert keys[..n][..i] == keys[..i] && keys[i..][..n - i] == keys[..n][i..];
      Assoc(Terminated(keys[..i]), Terminated(keys[..n][i..]), keys[n] + [NUL]);
    }
  }

  // ---------- lookups ----------

  /** The string at an offset of the string table, up to its NUL. */
  method StringFrom(strings: Bytes, off: nat, ghost keys: seq<Bytes>, ghost id: nat) returns (text: Bytes)
    requires strings == STRINGS_MAGIC + U32Le(SIDE_VERSION) + Terminated(keys) && id < |keys| && NUL !in keys[id]
    requires off == |Terminated(keys[..id])|
    ensures text == keys[id]
  {
    StringsTail(strings, keys);
    StringAt(keys, id);
    TailOf(strings, off);
    hide *;
    var start := 8 + off;
    var tail := strings[start..];
    var end := IndexOf(tail, NUL);
    text := tail[..end];
  }

  /** `path_bytes`: the i-th smallest path for id `i`, and an error for any other id. */
  method PathBytes(t: Table, id: nat, ghost keys: seq<Bytes>, ghost blobs: seq<Bytes>) returns (r: Result<Bytes, TableError>)
    requires Holds(t, keys, blobs) && forall k | k in keys :: NUL !in k
    ensures r == if id < |keys| then Ok(keys[id]) else Err(IdOutOfRange)
  {
    ghost var table, offsets :| HoldsWith(t, keys, blobs, table, offsets);
    OffsetsWords(offsets, |keys|);
    hide ReadU32Le, OffsetsFile, EntriesFile, Words, U32Le, Terminated, StartsUpTo, Concat;
    var count := ReadU32Le(t.offsets, 8).value;
    if id >= count {
      return Err(IdOutOfRange);
    }
    var off: nat := ReadU32Le(t.offsets, 12 + 4 * id).value;
    var text := StringFrom(t.strings, off, keys, id);
    return Ok(text);
  }

  lemma StringsTail(strings: Bytes, keys: seq<Bytes>)
    requires strings == STRINGS_MAGIC + U32Le(SIDE_VERSION) + Terminated(keys)
    ensures |strings| >= 8 && strings[8..] == Terminated(keys)
  {
  }

  lemma TailOf(strings: Bytes, off: nat)
    requires 8 + off <= |strings|
    ensures strings[8 + off..] == strings[8..][off..]
  {
  }

  /** `read_entry_offsets`: where the blob of an id lies. */
  method EntryOffsets(entries: Bytes, id: nat, ghost t: Table, ghost keys: seq<Bytes>, ghost blobs: seq<Bytes>)
    returns (r: Result<(nat, nat), TableError>)
    requires Holds(t, keys, blobs) && entries == t.entries
    ensures id >= |keys| ==> r == Err(IdOutOfRange)
    ensures id < |keys| ==> r.Ok? && r.value.0 <= r.value.1 <= |entries| && entries[r.value.0..r.value.1] == blobs[id]
  {
    ghost var table, offsets :| HoldsWith(t, keys, blobs, table, offsets);
    CountInFile(table, |keys|, blobs);
    hide ReadU32Le, EntriesFile, OffsetsFile, Words, Concat, U32Le, Terminated, Holds, StringOffsets, BlobStart, StartsUpTo;
    var count := ReadU32Le(entries, 8).value;
    if id >= count {
      return Err(IdOutOfRange);
    }
    BlobInFile(table, |keys|, blobs, id);
    var start, end: nat := ReadU32Le(entries, 12 + 4 * id).value, ReadU32Le(entries, 12 + 4 * id + 4).value;
    if end < start || end > |entries| {
      return Err(CorruptTable);
    }
    return Ok((start, end));
  }

  /** The logged paths, each at the place of its id. */
  ghost function PathList(log: seq<Hit>): (keys: seq<Bytes>)
    ensures InOrder(keys, LoggedPaths(log))
  {
    Ordered(LoggedPaths(log))
  }

  /** The table holds these records, and they stand for the log. */
  ghost predicate TabledFrom(t: Table, codec: Codec, paths: map<Bytes, seq<Record>>, log: seq<Hit>) {
    var keys := PathList(log);
    AllFaithful(t.stores, paths, log) && Holds(t, keys, Blobs(codec, paths, keys)) && forall k | k in keys :: NUL !in k
  }

  /** A written table of a builder that has recorded this log. */
  ghost predicate Tabled(t: Table, codec: Codec, log: seq<Hit>) {
    exists paths :: TabledFrom(t, codec, paths, log)
  }

  /** No blob and no offset is too large. */
  ghost predicate AllFit(codec: Codec, paths: map<Bytes, seq<Record>>, log: seq<Hit>) {
    var keys := PathList(log);
    FitsUpTo(keys, Blobs(codec, paths, keys), |keys|)
  }

  /** Resolve every record against the store-path table. */
  method ResolveAll(stores: seq<StorePath>, path: Bytes, records: seq<Record>) returns (r: Result<seq<Hit>, TableError>)
    requires KnownStores(stores, records)
    ensures r == Ok(Resolve(stores, path, records))
  {
    var hits: seq<Hit> := [];
    for i := 0 to |records|
      invariant |hits| == i && forall n | 0 <= n < i :: hits[n] == Resolve(stores, path, records)[n]
    {
      assert records[i] in records;
      if records[i].store >= |stores| {
        return Err(CorruptTable);
      }
      hits := hits + [(stores[records[i].store], FileTreeEntry(path, records[i].node))];
    }
    assert hits == Resolve(stores, path, records);
    return Ok(hits);
  }

  /**
   * `lookup_entries_by_id`: exactly the hits recorded for the path with this id, in the order in
   * which they were recorded, and an error for an id that is no path's.
   */
  method LookupEntriesById(t: Table, id: nat, codec: Codec, ghost log: seq<Hit>) returns (r: Result<seq<Hit>, TableError>)
    requires Tabled(t, codec, log) && Lossless(codec)
    ensures r == if id < |PathList(log)| then Ok(OnPath(log, PathList(log)[id])) else Err(IdOutOfRange)
  {
    ghost var paths :| TabledFrom(t, codec, paths, log);
    ghost var keys := PathList(log);
    ghost var blobs := Blobs(codec, paths, keys);
    hide AllFaithful, Sorted, Holds, Resolve, KnownStores, OnPath, Ordered, LoggedPaths;
    var range := EntryOffsets(t.entries, id, t, keys, blobs);
    if range.Err? {
      return Err(range.error);
    }
    OnePath(t.stores, codec, paths, log, keys, id);
    var decoded := codec.decode(t.entries[range.value.0..range.value.1]);
    if decoded.None? {
      return Err(CorruptTable);
    }
    var path := PathBytes(t, id, keys, blobs);
    r := ResolveAll(t.stores, path.value, decoded.value);
  }

  lemma OnePath(stores: seq<StorePath>, codec: Codec, paths: map<Bytes, seq<Record>>, log: seq<Hit>, keys: seq<Bytes>, id: nat)
    requires AllFaithful(stores, paths, log) && Lossless(codec) && id < |keys|
    ensures var records := RecordsOf(paths, keys[id]);
            && KnownStores(stores, records) && Resolve(stores, keys[id], records) == OnPath(log, keys[id])
            && codec.decode(Blobs(codec, paths, keys)[id]) == Some(records)
  {
    assert Faithful(stores, paths, log, keys[id]);
  }

  /** `lookup_path_id` is the inverse of `path_bytes`: it finds the position of a recorded path. */
  method LookupPathId(t: Table, path: Bytes, ghost keys: seq<Bytes>, ghost blobs: seq<Bytes>) returns (id: Option<nat>)
    requires Holds(t, keys, blobs)
    ensures id.None? <==> path !in keys
    ensures id.Some? ==> id.value < |keys| && keys[id.value] == path
  {
    ghost var table, offsets :| HoldsWith(t, keys, blobs, table, offsets);
    hide StartsUpTo, EntriesFile, OffsetsFile, U32Le, Terminated, Concat;
    if path !in t.ids {
      return None;
    }
    ghost var i :| 0 <= i < |keys| && keys[i] == path;
    return Some(t.ids[path]);
  }

  /** `lookup_entries`: every hit recorded for a path, and none for a path that was not recorded. */
  method LookupEntries(t: Table, path: Bytes, codec: Codec, ghost log: seq<Hit>) returns (r: Result<seq<Hit>, TableError>)
    requires Tabled(t, codec, log) && Lossless(codec)
    ensures r == Ok(OnPath(log, path))
  {
    ghost var paths :| TabledFrom(t, codec, paths, log);
    ghost var keys := PathList(log);
    hide AllFaithful, Sorted, Holds, OnPath, Ordered, LoggedPaths;
    var id := LookupPathId(t, path, keys, Blobs(codec, paths, keys));
    OnPathSome(log, path);
    if id.None? {
      return Ok([]);
    }
    r := LookupEntriesById(t, id.value, codec, log);
  }

  /** Write what a builder has recorded. */
  method WriteSidecars(builder: PathEntryBuilder, codec: Codec)
    returns (r: Result<Table, TableError>)
    requires builder.Valid() && forall k | k in LoggedPaths(builder.log) :: NUL !in k
    ensures r.Ok? <==> |PathList(builder.log)| < U32_LIMIT && AllFit(codec, builder.paths, builder.log)
    ensures r.Ok? ==> Tabled(r.value, codec, builder.log)
  {
    RecordedPaths(builder.stores, builder.paths, builder.log);
    hide AllFaithful, Holds, FitsUpTo;
    r := PathTableFile.WriteTable(builder.stores, builder.paths, codec);
    assert r.Ok? ==> TabledFrom(r.value, codec, builder.paths, builder.log);
  }
}
