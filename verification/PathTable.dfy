/**
 * The path table: every distinct path has an id, its position among the sorted paths, and the table
 * gives the path of an id, the id of a path, and what was recorded under it.
 */
module PathTable {
  import opened Wrappers
  import opened Bytes
  import opened Files
  import opened StorePaths
  import opened SearchSpec
  import opened FrameWriter

  /** One occurrence of a path: which store path, and the node there. */
  datatype Record = Record(store: U32, node: FileNode)

  datatype TableError = TooManyPackages | BlobTooLarge | OffsetOverflow | IdOutOfRange | CorruptTable

  /** A serializer that is known only by its round trip. */
  datatype Codec = Codec(encode: seq<Record> -> Bytes, decode: Bytes -> Option<seq<Record>>)

  ghost predicate Lossless(codec: Codec) {
    forall x :: codec.decode(codec.encode(x)) == Some(x)
  }

  // ---------- recording ----------

  /** The hits with this path, in order. */
  function OnPath(log: seq<Hit>, path: Bytes): seq<Hit> {
    if log == [] then []
    else
      var n := |log| - 1;
      OnPath(log[..n], path) + if log[n].1.path == path then [log[n]] else []
  }

  predicate KnownStores(stores: seq<StorePath>, records: seq<Record>) {
    forall r | r in records :: r.store < |stores|
  }

  /** The hits that a list of records stands for. */
  function Resolve(stores: seq<StorePath>, path: Bytes, records: seq<Record>): seq<Hit>
    requires KnownStores(stores, records)
  {
    seq(|records|, i requires 0 <= i < |records| =>
      assert records[i] in records; (stores[records[i].store], FileTreeEntry(path, records[i].node)))
  }

  function RecordsOf(paths: map<Bytes, seq<Record>>, path: Bytes): seq<Record> {
    if path in paths then paths[path] else []
  }

  /** The records of a path stand for exactly the hits logged for it. */
  ghost predicate Faithful(stores: seq<StorePath>, paths: map<Bytes, seq<Record>>, log: seq<Hit>, path: Bytes) {
    var records := RecordsOf(paths, path);
    && KnownStores(stores, records) && Resolve(stores, path, records) == OnPath(log, path)
    && (path in paths ==> path != [] && records != [])
  }

  ghost predicate AllFaithful(stores: seq<StorePath>, paths: map<Bytes, seq<Record>>, log: seq<Hit>) {
    forall path :: Faithful(stores, paths, log, path)
  }

  lemma MoreStores(stores: seq<StorePath>, store: StorePath, paths: map<Bytes, seq<Record>>, log: seq<Hit>)
    requires AllFaithful(stores, paths, log)
    ensures AllFaithful(stores + [store], paths, log)
  {
    forall path ensures Faithful(stores + [store], paths, log, path) {
      assert Faithful(stores, paths, log, path);
      var records := RecordsOf(paths, path);
      assert KnownStores(stores + [store], records);
      assert Resolve(stores + [store], path, records) == Resolve(stores, path, records) by {
        forall i | 0 <= i < |records| ensures (stores + [store])[records[i].store] == stores[records[i].store] {
          assert records[i] in records;
        }
      }
    }
  }

  lemma OneMore(stores: seq<StorePath>, paths: map<Bytes, seq<Record>>, log: seq<Hit>, store: U32, entry: FileTreeEntry)
    requires AllFaithful(stores, paths, log) && store < |stores| && entry.path != []
    ensures AllFaithful(stores, paths[entry.path := RecordsOf(paths, entry.path) + [Record(store, entry.node)]],
                        log + [(stores[store], entry)])
  {
    var records := RecordsOf(paths, entry.path);
    var after := paths[entry.path := records + [Record(store, entry.node)]];
    var longer := log + [(stores[store], entry)];
    assert longer[..|log|] == log;
    forall path ensures Faithful(stores, after, longer, path) {
      assert Faithful(stores, paths, log, path);
      if path == entry.path {
        var more := records + [Record(store, entry.node)];
        assert KnownStores(stores, more);
        assert Resolve(stores, path, more) == Resolve(stores, path, records) + [(stores[store], entry)];
      }
    }
  }

  /** The distinct paths of a log. */
  function LoggedPaths(log: seq<Hit>): set<Bytes> {
    set h | h in log :: h.1.path
  }

  lemma {:induction false} OnPathSome(log: seq<Hit>, path: Bytes)
    ensures OnPath(log, path) != [] <==> path in LoggedPaths(log)
  {
    if log != [] {
      var n := |log| - 1;
      OnPathSome(log[..n], path);
      assert log == log[..n] + [log[n]];
    }
  }

  /** What is recorded are exactly the paths of the log. */
  lemma RecordedPaths(stores: seq<StorePath>, paths: map<Bytes, seq<Record>>, log: seq<Hit>)
    requires AllFaithful(stores, paths, log)
    ensures paths.Keys == LoggedPaths(log)
  {
    hide AllFaithful, Resolve;
    forall path ensures path in paths <==> path in LoggedPaths(log) {
      OnPathSome(log, path);
      SomeRecorded(stores, paths, log, path);
    }
  }

  lemma SomeRecorded(stores: seq<StorePath>, paths: map<Bytes, seq<Record>>, log: seq<Hit>, path: Bytes)
    requires AllFaithful(stores, paths, log)
    ensures path in paths <==> OnPath(log, path) != []
  {
    assert Faithful(stores, paths, log, path);
  }

  /** The entries that a package contributes: those with a non-empty path. */
  function WithPath(entries: seq<FileTreeEntry>): seq<FileTreeEntry> {
    if entries == [] then []
    else
      var n := |entries| - 1;
      WithPath(entries[..n]) + if entries[n].path != [] then [entries[n]] else []
  }

  class PathEntryBuilder {
    var stores: seq<StorePath>
    var paths: map<Bytes, seq<Record>>

    /** Everything recorded so far, in order. */
    ghost var log: seq<Hit>

    ghost predicate Valid()
      reads this
    {
      |stores| <= U32_LIMIT && AllFaithful(stores, paths, log)
    }

    constructor ()
      ensures Valid() && log == [] && stores == []
    {
      stores, paths, log := [], map[], [];
    }

    /** Record every entry of a package under its path; entries without a path are dropped. */
    method RecordPackage(store: StorePath, entries: seq<FileTreeEntry>) returns (r: Result<(), TableError>)
      requires Valid()
      modifies this
      ensures Valid()
      ensures r.Ok? <==> entries == [] || |old(stores)| < U32_LIMIT
      ensures |stores| <= |old(stores)| + 1
      ensures log == if r.Ok? then old(log) + Attach(store, WithPath(entries)) else old(log)
    {
      assert log + Attach(store, []) == log;
      if entries == [] {
        return Ok(());
      }
      if |stores| >= U32_LIMIT {
        return Err(TooManyPackages);
      }
      var idx: U32 := |stores|;
      MoreStores(stores, store, paths, log);
      stores := stores + [store];
      assert entries[..0] == [];
      hide AllFaithful;
      for n := 0 to |entries|
        invariant idx < |stores| == |old(stores)| + 1 <= U32_LIMIT && stores[idx] == store && AllFaithful(stores, paths, log)
        invariant log == old(log) + Attach(store, WithPath(entries[..n]))
      {
        var entry := entries[n];
        assert entries[..n + 1][..n] == entries[..n];
        if entry.path != [] {
          OneMore(stores, paths, log, idx, entry);
          AttachMore(store, WithPath(entries[..n]), entry, old(log));
          paths := paths[entry.path := RecordsOf(paths, entry.path) + [Record(idx, entry.node)]];
          log := log + [(store, entry)];
        } else {
          assert WithPath(entries[..n]) + [] == WithPath(entries[..n]);
        }
      }
      assert entries[..|entries|] == entries;
      return Ok(());
    }
  }

  lemma AttachMore(store: StorePath, entries: seq<FileTreeEntry>, entry: FileTreeEntry, before: seq<Hit>)
    ensures before + Attach(store, entries + [entry]) == before + Attach(store, entries) + [(store, entry)]
  {
    assert Attach(store, entries + [entry]) == Attach(store, entries) + [(store, entry)];
  }
}
