/** The entry index: every occurrence of a file name, with its store path, path and node. */
module EntryIndex {
  import opened Wrappers
  import opened Bytes
  import opened Files
  import opened StorePaths
  import opened SearchSpec
  import opened FrameWriter
  import opened PathTable
  import opened Blobs
  import opened BasenameIndex
  import opened LiteralSearch

  const ENTRY_MAGIC: Bytes := [78, 66, 69, 78]
  const ENTRY_VERSION: U32 := 1

  /** One occurrence of a name: which store path, which path, and the node there. */
  datatype EntryRecord = EntryRecord(store: U32, path: Bytes, node: FileNode)

  datatype EntryError = TooManyPackages | BlobTooLarge | EntriesCorrupt

  type EntryCodec = Serializer<seq<EntryRecord>>

  // ---------- recording ----------

  predicate KnownEntries(stores: seq<StorePath>, records: seq<EntryRecord>) {
    forall r | r in records :: r.store < |stores|
  }

  /** The hits that a list of records stands for. */
  function HitsOf(stores: seq<StorePath>, records: seq<EntryRecord>): seq<Hit>
    requires KnownEntries(stores, records)
  {
    seq(|records|, i requires 0 <= i < |records| =>
      assert records[i] in records; (stores[records[i].store], FileTreeEntry(records[i].path, records[i].node)))
  }

  function EntriesUnder(names: map<Bytes, seq<EntryRecord>>, base: Bytes): seq<EntryRecord> {
    if base in names then names[base] else []
  }

  /** The logged hits with this file name, in order. */
  function Named(log: seq<Hit>, base: Bytes): seq<Hit> {
    Passing(log, (h: Hit) => BasenameOf(h.1.path) == base)
  }

  /** The records of a name stand for exactly the hits logged for it; nothing is kept under the empty name. */
  ghost predicate NameFaithful(stores: seq<StorePath>, names: map<Bytes, seq<EntryRecord>>, log: seq<Hit>, base: Bytes) {
    var records := EntriesUnder(names, base);
    && KnownEntries(stores, records) && (base in names ==> base != [])
    && (base != [] ==> HitsOf(stores, records) == Named(log, base))
  }

  ghost predicate NamesFaithful(stores: seq<StorePath>, names: map<Bytes, seq<EntryRecord>>, log: seq<Hit>) {
    forall base :: NameFaithful(stores, names, log, base)
  }

  lemma OneMoreStore(stores: seq<StorePath>, store: StorePath, names: map<Bytes, seq<EntryRecord>>, log: seq<Hit>)
    requires NamesFaithful(stores, names, log)
    ensures NamesFaithful(stores + [store], names, log)
  {
    hide Named;
    forall base ensures NameFaithful(stores + [store], names, log, base) {
      assert NameFaithful(stores, names, log, base);
      var records := EntriesUnder(names, base);
      assert KnownEntries(stores + [store], records);
      assert HitsOf(stores + [store], records) == HitsOf(stores, records) by {
        forall i | 0 <= i < |records| ensures (stores + [store])[records[i].store] == stores[records[i].store] {
          assert records[i] in records;
        }
      }
    }
  }

  lemma NamedNext(log: seq<Hit>, h: Hit, base: Bytes)
    ensures Named(log + [h], base) == Named(log, base) + if BasenameOf(h.1.path) == base then [h] else []
  {
    hide BasenameOf;
    assert (log + [h])[..|log|] == log;
  }

  /** An entry that is kept under its name. */
  lemma OneMoreEntry(stores: seq<StorePath>, names: map<Bytes, seq<EntryRecord>>, log: seq<Hit>, store: U32, entry: FileTreeEntry)
    requires NamesFaithful(stores, names, log) && store < |stores| && BasenameOf(entry.path) != []
    ensures var base := BasenameOf(entry.path);
            NamesFaithful(stores, names[base := EntriesUnder(names, base) + [EntryRecord(store, entry.path, entry.node)]],
                          log + [(stores[store], entry)])
  {
    hide BasenameOf, Named;
    var name := BasenameOf(entry.path);
    var records := EntriesUnder(names, name);
    var record := EntryRecord(store, entry.path, entry.node);
    var after := names[name := records + [record]];
    forall base ensures NameFaithful(stores, after, log + [(stores[store], entry)], base) {
      assert NameFaithful(stores, names, log, base);
      NamedNext(log, (stores[store], entry), base);
      if base == name {
        assert HitsOf(stores, records + [record]) == HitsOf(stores, records) + [(stores[store], entry)];
      }
    }
  }

  /** An entry without a name, which is dropped. */
  lemma NamelessEntry(stores: seq<StorePath>, names: map<Bytes, seq<EntryRecord>>, log: seq<Hit>, h: Hit)
    requires NamesFaithful(stores, names, log) && BasenameOf(h.1.path) == []
    ensures NamesFaithful(stores, names, log + [h])
  {
    hide BasenameOf, Named;
    forall base ensures NameFaithful(stores, names, log + [h], base) {
      assert NameFaithful(stores, names, log, base);
      NamedNext(log, h, base);
    }
  }

  class EntryIndexBuilder {
    var stores: seq<StorePath>
    var names: map<Bytes, seq<EntryRecord>>

    /** Every entry with a path recorded so far, in order. */
    ghost var log: seq<Hit>

    ghost predicate Valid()
      reads this
    {
      |stores| <= U32_LIMIT && NamesFaithful(stores, names, log)
    }

    constructor ()
      ensures Valid() && log == [] && stores == []
    {
      stores, names, log := [], map[], [];
    }

    /** Record every entry of a package under its name. */
    method RecordPackage(store: StorePath, entries: seq<FileTreeEntry>) returns (r: Result<(), EntryError>)
      requires Valid()
      modifies this
      ensures Valid()
      ensures r.Ok? <==> entries == [] || |old(stores)| < U32_LIMIT
      ensures |stores| <= |old(stores)| + 1
      ensures log == if r.Ok? then old(log) + Attach(store, WithPath(entries)) else old(log)
    {
      assert log + Attach(store, []) == log;
      if entries == [] {
        return Ok(());
      }
      if |stores| >= U32_LIMIT {
        return Err(EntryError.TooManyPackages);
      }
      var idx: U32 := |stores|;
      OneMoreStore(stores, store, names, log);
      stores := stores + [store];
      assert entries[..0] == [];
      hide NamesFaithful, BasenameOf;
      for n := 0 to |entries|
        invariant idx < |stores| == |old(stores)| + 1 <= U32_LIMIT && stores[idx] == store && NamesFaithful(stores, names, log)
        invariant log == old(log) + Attach(store, WithPath(entries[..n]))
      {
        assert entries[..n + 1][..n] == entries[..n];
        RecordEntry(idx, entries[n], store);
        ghost var more := if entries[n].path != [] then [entries[n]] else [];
        assert Attach(store, WithPath(entries[..n]) + more) == Attach(store, WithPath(entries[..n])) + Attach(store, more);
      }
      assert entries[..|entries|] == entries;
      return Ok(());
    }

    /** One entry: it is kept under its name, if it has one. */
    method RecordEntry(idx: U32, entry: FileTreeEntry, ghost store: StorePath)
      requires idx < |stores| && stores[idx] == store && NamesFaithful(stores, names, log)
      modifies this`names, this`log
      ensures NamesFaithful(stores, names, log)
      ensures log == old(log) + Attach(store, if entry.path != [] then [entry] else [])
    {
      assert BasenameOf([]) == [];
      hide NamesFaithful, BasenameOf;
      var base := BasenameOf(entry.path);
      if entry.path != [] && base == [] {
        NamelessEntry(stores, names, log, (store, entry));
        log := log + [(store, entry)];
      } else if base != [] {
        OneMoreEntry(stores, names, log, idx, entry);
        names := names[base := EntriesUnder(names, base) + [EntryRecord(idx, entry.path, entry.node)]];
        log := log + [(store, entry)];
      }
    }

    /** The posting blobs behind their names, and the store paths. */
    method WriteSidecars(codec: EntryCodec) returns (r: Result<EntryTable, EntryError>)
      requires Valid() && Exact(codec)
      ensures r.Ok? <==> forall k | k in names :: |codec.serialize(names[k])| <= MAX_SERIALIZED_BYTES
      ensures r.Ok? ==> EntriesOver(r.value, codec, log)
    {
      hide NamesFaithful, Gives, Exact;
      var written := WriteBlobs(names, codec, ENTRY_MAGIC, ENTRY_VERSION);
      if written.None? {
        return Err(EntryError.BlobTooLarge);
      }
      assert EntriesFrom(EntryTable(written.value, stores), codec, names, log);
      return Ok(EntryTable(written.value, stores));
    }
  }

  // ---------- lookups ----------

  /** The written files. */
  datatype EntryTable = EntryTable(blobs: BlobIndex, stores: seq<StorePath>)

  ghost predicate EntriesFrom(t: EntryTable, codec: EntryCodec, names: map<Bytes, seq<EntryRecord>>, log: seq<Hit>) {
    NamesFaithful(t.stores, names, log) && Gives(t.blobs, codec, names)
  }

  /** The written files of a builder that has recorded this log. */
  ghost predicate EntriesOver(t: EntryTable, codec: EntryCodec, log: seq<Hit>) {
    exists names :: EntriesFrom(t, codec, names, log)
  }

  /** `lookup_entries`: exactly the hits recorded for the name, in recording order, and none for an unknown one. */
  method LookupName(t: EntryTable, base: Bytes, codec: EntryCodec, ghost log: seq<Hit>) returns (r: Result<seq<Hit>, EntryError>)
    requires EntriesOver(t, codec, log)
    ensures r == Ok(if base == [] then [] else Named(log, base))
  {
    ghost var names :| EntriesFrom(t, codec, names, log);
    assert NameFaithful(t.stores, names, log, base);
    hide NamesFaithful, Named, BlobAt;
    if base !in t.blobs.cookies {
      assert base !in names;
      assert HitsOf(t.stores, []) == [];
      return Ok([]);
    }
    var records := BlobAt(t.blobs.postings, t.blobs.cookies[base], codec);
    if records.None? {
      return Err(EntriesCorrupt);
    }
    r := HitsAt(t.stores, records.value);
  }

  /** Look every record's store path up. */
  method HitsAt(stores: seq<StorePath>, records: seq<EntryRecord>) returns (r: Result<seq<Hit>, EntryError>)
    ensures r.Ok? <==> KnownEntries(stores, records)
    ensures r.Ok? ==> r.value == HitsOf(stores, records)
  {
    var hits: seq<Hit> := [];
    for i := 0 to |records|
      invariant |hits| == i && forall n | 0 <= n < i ::
                  records[n].store < |stores| && hits[n] == (stores[records[n].store], FileTreeEntry(records[n].path, records[n].node))
    {
      assert records[i] in records;
      if records[i].store >= |stores| {
        return Err(EntriesCorrupt);
      }
      hits := hits + [(stores[records[i].store], FileTreeEntry(records[i].path, records[i].node))];
    }
    assert KnownEntries(stores, records);
    return Ok(hits);
  }
}
