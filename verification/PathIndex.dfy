/** The path index: which packages hold a path, or any path with a given prefix. */
module PathIndex {
  import opened Wrappers
  import opened Bytes
  import opened ByteOrder
  import opened FrameWriter
  import opened Postings

  const PATH_MAGIC: Bytes := [78, 80, 80, 79]
  const PATH_VERSION: U32 := 1
  const MAX_ORDINALS_PER_PATH := 1_000_000

  /** Add an id to the set kept under a key, which starts out empty. */
  function Insert(table: map<Bytes, set<U32>>, key: Bytes, id: U32): map<Bytes, set<U32>> {
    table[key := (if key in table then table[key] else {}) + {id}]
  }

  predicate Has(table: map<Bytes, set<U32>>, key: Bytes, id: U32) {
    key in table && id in table[key]
  }

  /** No key is kept for nothing. */
  ghost predicate Inhabited(table: map<Bytes, set<U32>>) {
    forall k | k in table :: table[k] != {}
  }

  lemma InsertAdds(table: map<Bytes, set<U32>>, key: Bytes, id: U32)
    requires Inhabited(table)
    ensures Inhabited(Insert(table, key, id))
    ensures forall k: Bytes, i: U32 :: Has(Insert(table, key, id), k, i) <==> Has(table, k, i) || (k == key && i == id)
  {
  }

  class PathIndexBuilder {
    var paths: map<Bytes, set<U32>>

    constructor ()
      ensures paths == map[]
    {
      paths := map[];
    }

    /** Record the non-empty paths of one package. */
    method RecordPackage(ordinal: U32, recorded: seq<Bytes>)
      requires Inhabited(paths)
      modifies this
      ensures Inhabited(paths)
      ensures forall k: Bytes, i: U32 ::
                Has(paths, k, i) <==> Has(old(paths), k, i) || (i == ordinal && k != [] && k in recorded)
    {
      assert recorded[..0] == [];
      for n := 0 to |recorded|
        invariant Inhabited(paths)
        invariant forall k: Bytes, i: U32 ::
                    Has(paths, k, i) <==> Has(old(paths), k, i) || (i == ordinal && k != [] && k in recorded[..n])
      {
        assert recorded[..n + 1] == recorded[..n] + [recorded[n]];
        if recorded[n] != [] {
          InsertAdds(paths, recorded[n], ordinal);
          paths := Insert(paths, recorded[n], ordinal);
        }
      }
      assert recorded[..|recorded|] == recorded;
    }

    method WriteSidecars() returns (r: Result<Index, PostingError>)
      ensures r.Ok? <==> forall k | k in paths :: |paths[k]| < U32_LIMIT
      ensures r.Ok? ==> StandsFor(r.value, paths)
    {
      r := WritePostings(paths, PATH_MAGIC, PATH_VERSION);
    }
  }

  // ---------- an index of packages ----------

  /** A package is listed under exactly its non-empty paths. */
  ghost predicate IndexesPaths(table: map<Bytes, set<U32>>, packages: seq<seq<Bytes>>) {
    forall k: Bytes, i: U32 :: Has(table, k, i) <==> k != [] && i < |packages| && k in packages[i]
  }

  /** No list is longer than the list of packages. */
  lemma PathsShort(table: map<Bytes, set<U32>>, packages: seq<seq<Bytes>>)
    requires IndexesPaths(table, packages)
    ensures forall k | k in table :: |table[k]| <= |packages|
  {
    forall k | k in table ensures |table[k]| <= |packages| {
      forall i | i in table[k] ensures i < |packages| {
        assert Has(table, k, i);
      }
      FewBelow(table[k], |packages|);
    }
  }

  /** A written index of these packages. */
  ghost predicate PathsOver(index: Index, packages: seq<seq<Bytes>>) {
    exists table :: StandsFor(index, table) && IndexesPaths(table, packages)
  }

  lemma OnePackageMore(before: map<Bytes, set<U32>>, after: map<Bytes, set<U32>>, packages: seq<seq<Bytes>>, paths: seq<Bytes>)
    requires IndexesPaths(before, packages) && |packages| < U32_LIMIT
    requires forall k: Bytes, i: U32 :: Has(after, k, i) <==> Has(before, k, i) || (i == |packages| && k != [] && k in paths)
    ensures IndexesPaths(after, packages + [paths])
  {
    hide Has;
  }

  /** Record every package under its ordinal. */
  method RecordPackages(packages: seq<seq<Bytes>>) returns (builder: PathIndexBuilder)
    requires |packages| <= U32_LIMIT
    ensures fresh(builder) && IndexesPaths(builder.paths, packages)
  {
    builder := new PathIndexBuilder();
    assert packages[..0] == [];
    hide Has;
    for n := 0 to |packages|
      invariant fresh(builder) && Inhabited(builder.paths) && IndexesPaths(builder.paths, packages[..n])
    {
      ghost var before := builder.paths;
      builder.RecordPackage(n, packages[n]);
      OnePackageMore(before, builder.paths, packages[..n], packages[n]);
      assert packages[..n + 1] == packages[..n] + [packages[n]];
    }
    assert packages[..|packages|] == packages;
  }

  // ---------- lookups ----------

  /** The packages recorded under exactly this path, smallest ordinal first. */
  method LookupPath(index: Index, path: Bytes, ghost table: map<Bytes, set<U32>>) returns (r: Result<seq<U32>, PostingError>)
    requires StandsFor(index, table)
    ensures r.Ok? <==> path !in table || |table[path]| <= MAX_ORDINALS_PER_PATH
    ensures r.Ok? ==> Ascending(r.value) && forall id: U32 :: id in r.value <==> Has(table, path, id)
  {
    if path !in index.cookies {
      return Ok([]);
    }
    r := ListOf(index, path, MAX_ORDINALS_PER_PATH, table);
  }

  /** Some of these keys starts with the prefix and holds the id. */
  ghost predicate Under(table: map<Bytes, set<U32>>, keys: seq<Bytes>, prefix: Bytes, id: U32) {
    exists i :: 0 <= i < |keys| && StartsWith(keys[i], prefix) && Has(table, keys[i], id)
  }

  lemma UnderNext(table: map<Bytes, set<U32>>, keys: seq<Bytes>, n: nat, prefix: Bytes, id: U32)
    requires n < |keys|
    ensures Under(table, keys[..n + 1], prefix, id)
       <==> Under(table, keys[..n], prefix, id) || (StartsWith(keys[n], prefix) && Has(table, keys[n], id))
  {
    hide StartsWith, Has;
    var before, after := keys[..n], keys[..n + 1];
    assert after == before + [keys[n]];
    if Under(table, before, prefix, id) {
      var i :| 0 <= i < |before| && StartsWith(before[i], prefix) && Has(table, before[i], id);
      assert after[i] == before[i];
    }
    if StartsWith(keys[n], prefix) && Has(table, keys[n], id) {
      assert after[n] == keys[n];
    }
  }

  /** Once a key is past the prefix, all later keys are too, so nothing is missed by stopping. */
  lemma NothingLater(table: map<Bytes, set<U32>>, keys: seq<Bytes>, n: nat, prefix: Bytes, id: U32)
    requires Sorted(keys) && n < |keys| && !StartsWith(keys[n], prefix) && Less(prefix, keys[n])
    ensures Under(table, keys, prefix, id) <==> Under(table, keys[..n], prefix, id)
  {
    forall i | n <= i < |keys| ensures !StartsWith(keys[i], prefix) {
      if n < i {
        PastPrefix(prefix, keys[n], keys[i]);
      }
    }
    hide StartsWith, Has, Less, Sorted;
    var before := keys[..n];
    if Under(table, before, prefix, id) {
      var i :| 0 <= i < |before| && StartsWith(before[i], prefix) && Has(table, before[i], id);
      assert keys[i] == before[i];
    }
    if Under(table, keys, prefix, id) {
      var i :| 0 <= i < |keys| && StartsWith(keys[i], prefix) && Has(table, keys[i], id);
      assert before[i] == keys[i];
    }
  }

  ghost predicate Matched(table: map<Bytes, set<U32>>, keys: seq<Bytes>, prefix: Bytes, matched: set<U32>) {
    forall id: U32 :: id in matched <==> Under(table, keys, prefix, id)
  }

  lemma MatchedNext(table: map<Bytes, set<U32>>, keys: seq<Bytes>, n: nat, prefix: Bytes, matched: set<U32>, more: set<U32>)
    requires n < |keys| && Matched(table, keys[..n], prefix, matched)
    requires forall id: U32 :: id in more <==> StartsWith(keys[n], prefix) && Has(table, keys[n], id)
    ensures Matched(table, keys[..n + 1], prefix, matched + more)
  {
    hide StartsWith, Has, Under;
    forall id: U32 ensures id in matched + more <==> Under(table, keys[..n + 1], prefix, id) {
      UnderNext(table, keys, n, prefix, id);
    }
  }

  lemma MatchedAll(table: map<Bytes, set<U32>>, keys: seq<Bytes>, n: nat, prefix: Bytes, matched: set<U32>)
    requires Sorted(keys) && n < |keys| && !StartsWith(keys[n], prefix) && Less(prefix, keys[n])
    requires Matched(table, keys[..n], prefix, matched)
    ensures Matched(table, keys, prefix, matched)
  {
    hide StartsWith, Less, Under, Sorted;
    forall id: U32 ensures id in matched <==> Under(table, keys, prefix, id) {
      NothingLater(table, keys, n, prefix, id);
    }
  }

  /** No list that a prefix lookup reads among the first keys is longer than allowed. */
  ghost predicate Capped(table: map<Bytes, set<U32>>, keys: seq<Bytes>, prefix: Bytes, n: nat) {
    n <= |keys| && forall i | 0 <= i < n && StartsWith(keys[i], prefix) ::
      keys[i] in table ==> |table[keys[i]]| <= MAX_ORDINALS_PER_PATH
  }

  /** One turn: the ids under key `n` when it starts with the prefix. */
  method TakeKey(index: Index, n: nat, prefix: Bytes, matched: set<U32>, ghost table: map<Bytes, set<U32>>)
    returns (r: Result<set<U32>, PostingError>)
    requires StandsFor(index, table) && n < |index.keys| && StartsWith(index.keys[n], prefix)
    requires Matched(table, index.keys[..n], prefix, matched)
    ensures r.Ok? ==> Matched(table, index.keys[..n + 1], prefix, r.value)
    ensures Capped(table, index.keys, prefix, n) ==> (r.Ok? <==> Capped(table, index.keys, prefix, n + 1))
    ensures r.Err? ==> !Capped(table, index.keys, prefix, |index.keys|)
  {
    hide Matched, StartsWith;
    var key := index.keys[n];
    assert key in index.keys;
    var ids := ListOf(index, key, MAX_ORDINALS_PER_PATH, table);
    if ids.Err? {
      return Err(ids.error);
    }
    var more := set id | id in ids.value;
    MatchedNext(table, index.keys, n, prefix, matched, more);
    return Ok(matched + more);
  }

  /** A key behind the prefix that does not start with it. */
  predicate Behind(key: Bytes, prefix: Bytes) {
    !StartsWith(key, prefix) && key != [] && Less(prefix, key)
  }

  /** What the first keys have contributed. */
  ghost predicate SoFar(table: map<Bytes, set<U32>>, keys: seq<Bytes>, n: nat, prefix: Bytes, matched: set<U32>) {
    n <= |keys| && Matched(table, keys[..n], prefix, matched) && Capped(table, keys, prefix, n)
  }

  /** One key: its ids when it starts with the prefix, and nothing otherwise. */
  method WalkKey(index: Index, n: nat, prefix: Bytes, matched: set<U32>, ghost table: map<Bytes, set<U32>>)
    returns (error: Option<PostingError>, more: set<U32>)
    requires StandsFor(index, table) && n < |index.keys| && SoFar(table, index.keys, n, prefix, matched)
    ensures error.None? ==> SoFar(table, index.keys, n + 1, prefix, more)
    ensures error.Some? ==> !Capped(table, index.keys, prefix, |index.keys|)
  {
    hide StandsFor, Matched, Capped, StartsWith;
    if StartsWith(index.keys[n], prefix) {
      var taken := TakeKey(index, n, prefix, matched, table);
      if taken.Err? {
        return Some(taken.error), matched;
      }
      return None, taken.value;
    }
    PassKey(table, index.keys, n, prefix, matched);
    return None, matched;
  }

  /** Walk the keys in order, and stop at the first non-matching key behind the prefix. */
  method WalkKeys(index: Index, prefix: Bytes, ghost table: map<Bytes, set<U32>>) returns (error: Option<PostingError>, matched: set<U32>)
    requires StandsFor(index, table)
    ensures error.None? <==> Capped(table, index.keys, prefix, |index.keys|)
    ensures error.None? ==> Matched(table, index.keys, prefix, matched)
  {
    hide *;
    error, matched := None, {};
    NothingMatched(index, table, prefix);
    var n := 0;
    while n < |index.keys| && !Behind(index.keys[n], prefix)
      invariant error.None? && n <= |index.keys| && SoFar(table, index.keys, n, prefix, matched)
      decreases |index.keys| - n
    {
      error, matched := WalkKey(index, n, prefix, matched, table);
      if error.Some? {
        return;
      }
      n := n + 1;
    }
    Stopped(table, index.keys, n, prefix, matched);
  }

  /**
   * `lookup_prefix_ordinals`: walk the keys in order and stop at the first non-matching key behind
   * the prefix. The result is every package that holds some path with the prefix, each once.
   */
  method LookupPrefix(index: Index, prefix: Bytes, ghost table: map<Bytes, set<U32>>) returns (r: Result<seq<U32>, PostingError>)
    requires StandsFor(index, table)
    ensures r.Ok? <==> Capped(table, index.keys, prefix, |index.keys|)
    ensures r.Ok? ==> Ascending(r.value)
    ensures r.Ok? ==> forall id: U32 :: id in r.value <==> Under(table, index.keys, prefix, id)
  {
    hide *;
    var error, matched := WalkKeys(index, prefix, table);
    if error.Some? {
      return Err(error.value);
    }
    var sorted := SortIds(matched);
    Reported(table, index.keys, prefix, matched, sorted);
    return Ok(sorted);
  }

  lemma NothingMatched(index: Index, table: map<Bytes, set<U32>>, prefix: Bytes)
    requires StandsFor(index, table)
    ensures Sorted(index.keys) && SoFar(table, index.keys, 0, prefix, {})
  {
  }

  lemma PassKey(table: map<Bytes, set<U32>>, keys: seq<Bytes>, n: nat, prefix: Bytes, matched: set<U32>)
    requires n < |keys| && !StartsWith(keys[n], prefix)
    requires Matched(table, keys[..n], prefix, matched) && Capped(table, keys, prefix, n)
    ensures Matched(table, keys[..n + 1], prefix, matched) && Capped(table, keys, prefix, n + 1)
  {
    MatchedNext(table, keys, n, prefix, matched, {});
    assert matched + {} == matched;
  }

  lemma Reported(table: map<Bytes, set<U32>>, keys: seq<Bytes>, prefix: Bytes, matched: set<U32>, ids: seq<U32>)
    requires Matched(table, keys, prefix, matched) && Lists(ids, matched)
    ensures Ascending(ids) && forall id: U32 :: id in ids <==> Under(table, keys, prefix, id)
  {
  }

  lemma Stopped(table: map<Bytes, set<U32>>, keys: seq<Bytes>, n: nat, prefix: Bytes, matched: set<U32>)
    requires Sorted(keys) && SoFar(table, keys, n, prefix, matched) && (n < |keys| ==> Behind(keys[n], prefix))
    ensures Matched(table, keys, prefix, matched) && Capped(table, keys, prefix, |keys|)
  {
    if n < |keys| {
      MatchedAll(table, keys, n, prefix, matched);
      forall i | n <= i < |keys| ensures !StartsWith(keys[i], prefix) {
        if n < i {
          PastPrefix(prefix, keys[n], keys[i]);
        }
      }
    } else {
      assert keys[..n] == keys;
    }
  }

  /** The keys of the index are the keys of the table, so the result speaks of the table alone. */
  lemma UnderTable(index: Index, table: map<Bytes, set<U32>>, prefix: Bytes, id: U32)
    requires StandsFor(index, table)
    ensures Under(table, index.keys, prefix, id) <==> exists k :: StartsWith(k, prefix) && Has(table, k, id)
  {
    hide StartsWith;
    if k :| StartsWith(k, prefix) && Has(table, k, id) {
      assert k in index.keys;
      var i :| 0 <= i < |index.keys| && index.keys[i] == k;
      assert StartsWith(index.keys[i], prefix);
    }
  }
}
