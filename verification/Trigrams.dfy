/**
 * Trigram indexes: every overlapping three-byte window of a document is a key, and the candidates for
 * a pattern are the documents in the lists of all its windows.
 */
module Trigrams {
  import opened Wrappers
  import opened Bytes
  import opened FrameWriter
  import opened Postings
  import opened PathIndex

  const PATH_TRIGRAM_MAGIC: Bytes := [78, 78, 80, 84]
  const PATH_TRIGRAM_VERSION: U32 := 1
  const MAX_IDS_PER_TRIGRAM := 20_000_000

  /** Where a document has a three-byte window. */
  predicate HasWindow(doc: Bytes, t: Bytes) {
    |t| == 3 && Contains(doc, t)
  }

  /** The window of a document at a position. */
  function Window(doc: Bytes, i: nat): Bytes
    requires i + 3 <= |doc|
  {
    doc[i..i + 3]
  }

  /** Some window before position `n`. */
  ghost predicate WindowBefore(doc: Bytes, n: nat, t: Bytes) {
    exists i :: 0 <= i < n && i + 3 <= |doc| && Window(doc, i) == t
  }

  lemma WindowsAll(doc: Bytes, n: nat, t: Bytes)
    requires n + 2 == |doc| || (|doc| < 3 && n == 0)
    ensures WindowBefore(doc, n, t) <==> HasWindow(doc, t)
  {
    if HasWindow(doc, t) {
      var i :| 0 <= i <= |doc| && OccursAt(doc, t, i);
      assert Window(doc, i) == t;
    }
    if WindowBefore(doc, n, t) {
      var i :| 0 <= i < n && i + 3 <= |doc| && Window(doc, i) == t;
      assert OccursAt(doc, t, i);
    }
  }

  lemma WindowNext(doc: Bytes, n: nat, t: Bytes)
    requires n + 3 <= |doc|
    ensures WindowBefore(doc, n + 1, t) <==> WindowBefore(doc, n, t) || t == Window(doc, n)
  {
    hide Window;
    if WindowBefore(doc, n, t) {
      var i :| 0 <= i < n && i + 3 <= |doc| && Window(doc, i) == t;
      assert 0 <= i < n + 1;
    }
  }

  /** The ids recorded under a window: those before, and this one under every window of the document. */
  ghost predicate Added(before: map<Bytes, set<U32>>, after: map<Bytes, set<U32>>, id: U32, doc: Bytes, n: nat) {
    forall t: Bytes, i: U32 :: Has(after, t, i) <==> Has(before, t, i) || (i == id && WindowBefore(doc, n, t))
  }

  lemma AddedNext(before: map<Bytes, set<U32>>, after: map<Bytes, set<U32>>, id: U32, doc: Bytes, n: nat)
    requires Added(before, after, id, doc, n) && n + 3 <= |doc| && Inhabited(after)
    ensures Added(before, Insert(after, Window(doc, n), id), id, doc, n + 1)
  {
    hide WindowBefore, Window;
    InsertAdds(after, Window(doc, n), id);
    forall t: Bytes, i: U32
      ensures Has(Insert(after, Window(doc, n), id), t, i) <==> Has(before, t, i) || (i == id && WindowBefore(doc, n + 1, t))
    {
      WindowNext(doc, n, t);
      assert Has(after, t, i) <==> Has(before, t, i) || (i == id && WindowBefore(doc, n, t));
    }
  }

  /** Record every window of a document; documents shorter than a window have none. */
  method RecordWindows(table: map<Bytes, set<U32>>, id: U32, doc: Bytes) returns (after: map<Bytes, set<U32>>)
    requires Inhabited(table)
    ensures Inhabited(after)
    ensures forall t: Bytes, i: U32 :: Has(after, t, i) <==> Has(table, t, i) || (i == id && HasWindow(doc, t))
  {
    after := table;
    var end := if |doc| < 3 then 0 else |doc| - 2;
    assert Added(table, after, id, doc, 0);
    hide Added, HasWindow, Inhabited;
    for n := 0 to end
      invariant Inhabited(after) && Added(table, after, id, doc, n)
    {
      AddedNext(table, after, id, doc, n);
      InsertAdds(after, Window(doc, n), id);
      after := Insert(after, Window(doc, n), id);
    }
    AddedAll(table, after, id, doc, end);
  }

  lemma AddedAll(before: map<Bytes, set<U32>>, after: map<Bytes, set<U32>>, id: U32, doc: Bytes, n: nat)
    requires Added(before, after, id, doc, n) && (n + 2 == |doc| || (|doc| < 3 && n == 0))
    ensures forall t: Bytes, i: U32 :: Has(after, t, i) <==> Has(before, t, i) || (i == id && HasWindow(doc, t))
  {
    hide HasWindow, WindowBefore;
    forall t: Bytes, i: U32 ensures Has(after, t, i) <==> Has(before, t, i) || (i == id && HasWindow(doc, t)) {
      WindowsAll(doc, n, t);
    }
  }

  /** The builder of the path-level index: documents are single paths. */
  class PathTrigramBuilder {
    var trigrams: map<Bytes, set<U32>>

    constructor ()
      ensures trigrams == map[]
    {
      trigrams := map[];
    }

    method RecordPath(pathId: U32, path: Bytes)
      requires Inhabited(trigrams)
      modifies this
      ensures Inhabited(trigrams)
      ensures forall t: Bytes, i: U32 :: Has(trigrams, t, i) <==> Has(old(trigrams), t, i) || (i == pathId && HasWindow(path, t))
    {
      trigrams := RecordWindows(trigrams, pathId, path);
    }

    method WriteSidecars() returns (r: Result<Index, PostingError>)
      ensures r.Ok? <==> forall k | k in trigrams :: |trigrams[k]| < U32_LIMIT
      ensures r.Ok? ==> StandsFor(r.value, trigrams)
    {
      r := WritePostings(trigrams, PATH_TRIGRAM_MAGIC, PATH_TRIGRAM_VERSION);
    }
  }

  /** The builder of the package-level index: a package holds the windows of all its paths. */
  class NgramBuilder {
    var trigrams: map<Bytes, set<U32>>

    constructor ()
      ensures trigrams == map[]
    {
      trigrams := map[];
    }

    method RecordPackage(ordinal: U32, paths: seq<Bytes>)
      requires Inhabited(trigrams)
      modifies this
      ensures Inhabited(trigrams)
      ensures forall t: Bytes, i: U32 ::
                Has(trigrams, t, i) <==> Has(old(trigrams), t, i) || (i == ordinal && exists p :: p in paths && HasWindow(p, t))
    {
      hide HasWindow, Inhabited, Has;
      assert paths[..0] == [];
      for n := 0 to |paths|
        invariant Inhabited(trigrams)
        invariant forall t: Bytes, i: U32 ::
                    Has(trigrams, t, i) <==> Has(old(trigrams), t, i) || (i == ordinal && exists p :: p in paths[..n] && HasWindow(p, t))
      {
        assert paths[..n + 1] == paths[..n] + [paths[n]];
        assert forall p :: p in paths[..n + 1] <==> p in paths[..n] || p == paths[n];
        trigrams := RecordWindows(trigrams, ordinal, paths[n]);
      }
      assert paths[..|paths|] == paths;
    }
  }

  // ---------- candidates ----------

  /** The id is in the list of every window of the pattern. */
  ghost predicate InAllWindows(table: map<Bytes, set<U32>>, pattern: Bytes, id: U32) {
    forall i | 0 <= i && i + 3 <= |pattern| :: Has(table, Window(pattern, i), id)
  }

  /** The keys looked up so far: the distinct windows before position `n`, all of them present. */
  ghost predicate Looked(table: map<Bytes, set<U32>>, pattern: Bytes, n: nat, keys: seq<Bytes>) {
    && (forall k | k in keys :: k in table && WindowBefore(pattern, n, k))
    && forall i | 0 <= i < n && i + 3 <= |pattern| :: Window(pattern, i) in keys
  }

  lemma LookedNext(table: map<Bytes, set<U32>>, pattern: Bytes, n: nat, keys: seq<Bytes>, more: seq<Bytes>)
    requires Looked(table, pattern, n, keys) && n + 3 <= |pattern| && Window(pattern, n) in keys + more
    requires forall k | k in more :: k in table && k == Window(pattern, n)
    ensures Looked(table, pattern, n + 1, keys + more)
  {
    hide Window, WindowBefore;
    forall k | k in keys + more ensures k in table && WindowBefore(pattern, n + 1, k) {
      WindowNext(pattern, n, k);
    }
  }

  /** An absent window leaves no candidate. */
  lemma AbsentWindow(table: map<Bytes, set<U32>>, pattern: Bytes, n: nat)
    requires n + 3 <= |pattern| && Window(pattern, n) !in table
    ensures forall id: U32 :: !InAllWindows(table, pattern, id)
  {
    hide Window;
    forall id: U32 ensures !InAllWindows(table, pattern, id) {
      assert !Has(table, Window(pattern, n), id);
    }
  }

  /** Collect the distinct windows of a pattern, or stop at one that no document has. */
  method WindowKeys(index: Index, pattern: Bytes, ghost table: map<Bytes, set<U32>>) returns (r: Option<seq<Bytes>>)
    requires StandsFor(index, table) && |pattern| >= 3
    ensures r.None? ==> forall id: U32 :: !InAllWindows(table, pattern, id)
    ensures r.Some? ==> r.value != [] && Looked(table, pattern, |pattern| - 2, r.value)
  {
    var keys: seq<Bytes> := [];
    assert index.cookies.Keys == table.Keys;
    hide StandsFor, Window, InAllWindows, WindowBefore;
    for n := 0 to |pattern| - 2
      invariant Looked(table, pattern, n, keys) && (n > 0 ==> keys != [])
    {
      var t := Window(pattern, n);
      if t !in keys {
        if t !in index.cookies {
          AbsentWindow(table, pattern, n);
          return None;
        }
        LookedNext(table, pattern, n, keys, [t]);
        keys := keys + [t];
      } else {
        LookedNext(table, pattern, n, keys, []);
        assert keys + [] == keys;
      }
    }
    return Some(keys);
  }

  /** The id is in every one of these sets. */
  ghost predicate InAll(lists: seq<set<U32>>, id: U32) {
    forall l | l in lists :: id in l
  }

  /** The sets kept under the keys. */
  function ListsOf(table: map<Bytes, set<U32>>, keys: seq<Bytes>): seq<set<U32>>
    requires forall k | k in keys :: k in table
  {
    seq(|keys|, i requires 0 <= i < |keys| => table[keys[i]])
  }

  /** Being in the lists of the distinct windows is being in the lists of all windows. */
  lemma DistinctEnough(table: map<Bytes, set<U32>>, pattern: Bytes, keys: seq<Bytes>, id: U32)
    requires |pattern| >= 3 && Looked(table, pattern, |pattern| - 2, keys)
    ensures InAll(ListsOf(table, keys), id) <==> InAllWindows(table, pattern, id)
  {
    hide Window;
    var lists := ListsOf(table, keys);
    if InAll(lists, id) {
      forall i | 0 <= i && i + 3 <= |pattern| ensures Has(table, Window(pattern, i), id) {
        var j :| 0 <= j < |keys| && keys[j] == Window(pattern, i);
        assert lists[j] in lists;
      }
    }
    if InAllWindows(table, pattern, id) {
      forall l | l in lists ensures id in l {
        var j :| 0 <= j < |lists| && lists[j] == l;
        assert keys[j] in keys;
        var i :| 0 <= i < |pattern| - 2 && Window(pattern, i) == keys[j];
        assert Has(table, Window(pattern, i), id);
      }
    }
  }

  ghost predicate BySize(lists: seq<set<U32>>) {
    forall i, j | 0 <= i < j < |lists| :: |lists[i]| <= |lists[j]|
  }

  lemma InsertBySize(sorted: seq<set<U32>>, at: nat, list: set<U32>)
    requires BySize(sorted) && at <= |sorted| && forall i | 0 <= i < at :: |sorted[i]| <= |list|
    requires at < |sorted| ==> |list| < |sorted[at]|
    ensures BySize(sorted[..at] + [list] + sorted[at..])
    ensures multiset(sorted[..at] + [list] + sorted[at..]) == multiset(sorted) + multiset{list}
  {
    hide BySize;
    InsertSorted(sorted, at, list);
    assert sorted == sorted[..at] + sorted[at..];
  }

  lemma InsertSorted(sorted: seq<set<U32>>, at: nat, list: set<U32>)
    requires BySize(sorted) && at <= |sorted| && forall i | 0 <= i < at :: |sorted[i]| <= |list|
    requires at < |sorted| ==> |list| < |sorted[at]|
    ensures BySize(sorted[..at] + [list] + sorted[at..])
  {
    var s := sorted[..at] + [list] + sorted[at..];
    forall i, j | 0 <= i < j < |s| ensures |s[i]| <= |s[j]| {
      assert i < at ==> s[i] == sorted[i];
      assert i > at ==> s[i] == sorted[i - 1];
      assert j < at ==> s[j] == sorted[j];
      assert j > at ==> s[j] == sorted[j - 1];
    }
  }

  /** Sort the lists by their size: each goes in front of the first larger one. */
  method SortBySize(lists: seq<set<U32>>) returns (sorted: seq<set<U32>>)
    ensures multiset(sorted) == multiset(lists) && BySize(sorted)
  {
    sorted := [];
    for n := 0 to |lists|
      invariant multiset(sorted) == multiset(lists[..n]) && BySize(sorted)
    {
      var at := 0;
      while at < |sorted| && |sorted[at]| <= |lists[n]|
        invariant at <= |sorted| && forall i | 0 <= i < at :: |sorted[i]| <= |lists[n]|
      {
        at := at + 1;
      }
      assert lists[..n + 1] == lists[..n] + [lists[n]];
      InsertBySize(sorted, at, lists[n]);
      sorted := sorted[..at] + [lists[n]] + sorted[at..];
    }
    assert lists[..|lists|] == lists;
  }

  lemma SortedAlike(a: seq<set<U32>>, b: seq<set<U32>>, id: U32)
    requires multiset(a) == multiset(b)
    ensures InAll(a, id) <==> InAll(b, id)
  {
    forall l ensures l in a <==> l in b {
      assert l in a <==> l in multiset(a);
      assert l in b <==> l in multiset(b);
    }
  }

  // ---------- the path-level lookup ----------

  /** No list behind a window of the pattern is longer than allowed. */
  ghost predicate WithinCap(table: map<Bytes, set<U32>>, pattern: Bytes) {
    forall i | 0 <= i && i + 3 <= |pattern| && Window(pattern, i) in table :: |table[Window(pattern, i)]| <= MAX_IDS_PER_TRIGRAM
  }

  /** Read the list of every key. */
  method ReadLists(index: Index, keys: seq<Bytes>, ghost table: map<Bytes, set<U32>>) returns (r: Result<seq<set<U32>>, PostingError>)
    requires StandsFor(index, table) && forall k | k in keys :: k in table
    ensures r.Ok? ==> r.value == ListsOf(table, keys)
    ensures (forall k | k in keys :: |table[k]| <= MAX_IDS_PER_TRIGRAM) ==> r.Ok?
  {
    hide StandsFor;
    var lists: seq<set<U32>> := [];
    for n := 0 to |keys|
      invariant |lists| == n && forall i | 0 <= i < n :: lists[i] == table[keys[i]]
    {
      assert keys[n] in keys;
      var ids := ListOf(index, keys[n], MAX_IDS_PER_TRIGRAM, table);
      if ids.Err? {
        return Err(ids.error);
      }
      var bitmap := set id | id in ids.value;
      assert bitmap == table[keys[n]];
      lists := lists + [bitmap];
    }
    assert lists == ListsOf(table, keys);
    return Ok(lists);
  }

  /** Intersect the lists one after the other. */
  method IntersectAll(lists: seq<set<U32>>) returns (acc: set<U32>)
    requires lists != []
    ensures forall id: U32 :: id in acc <==> InAll(lists, id)
  {
    acc := lists[0];
    for n := 1 to |lists|
      invariant forall id: U32 :: id in acc <==> forall l | l in lists[..n] :: id in l
    {
      assert lists[..n + 1] == lists[..n] + [lists[n]];
      acc := acc * lists[n];
    }
    assert lists[..|lists|] == lists;
  }

  /**
   * `candidate_path_ids`: nothing for a pattern shorter than a window, and otherwise exactly the ids
   * that are recorded under every window of the pattern, whatever the windows repeat, whichever list
   * is smallest, and also when the lookup stops early at an absent window.
   */
  method CandidatePathIds(index: Index, pattern: Bytes, ghost table: map<Bytes, set<U32>>)
    returns (r: Result<Option<set<U32>>, PostingError>)
    requires StandsFor(index, table)
    ensures |pattern| < 3 ==> r == Ok(None)
    ensures r.Ok? && |pattern| >= 3 ==> r.value.Some? && forall id: U32 :: id in r.value.value <==> InAllWindows(table, pattern, id)
    ensures WithinCap(table, pattern) ==> r.Ok?
  {
    if |pattern| < 3 {
      return Ok(None);
    }
    hide StandsFor, InAllWindows, Window;
    var keys := WindowKeys(index, pattern, table);
    if keys.None? {
      return Ok(Some({}));
    }
    CapOfKeys(table, pattern, keys.value);
    var lists := ReadLists(index, keys.value, table);
    if lists.Err? {
      return Err(lists.error);
    }
    var sorted := SortBySize(lists.value);
    assert |sorted| == |lists.value| by { assert |multiset(sorted)| == |multiset(lists.value)|; }
    var acc := IntersectAll(sorted);
    forall id: U32 ensures id in acc <==> InAllWindows(table, pattern, id) {
      SortedAlike(sorted, lists.value, id);
      DistinctEnough(table, pattern, keys.value, id);
    }
    return Ok(Some(acc));
  }

  lemma CapOfKeys(table: map<Bytes, set<U32>>, pattern: Bytes, keys: seq<Bytes>)
    requires |pattern| >= 3 && Looked(table, pattern, |pattern| - 2, keys)
    ensures (forall k | k in keys :: k in table)
    ensures WithinCap(table, pattern) ==> forall k | k in keys :: |table[k]| <= MAX_IDS_PER_TRIGRAM
  {
    hide Window;
  }

  // ---------- exactness ----------

  /** The table records exactly the windows of these documents. */
  ghost predicate Indexes(table: map<Bytes, set<U32>>, docs: seq<Bytes>) {
    forall t: Bytes, i: U32 :: Has(table, t, i) <==> i < |docs| && HasWindow(docs[i], t)
  }

  /** A document that contains the pattern has all its windows. */
  lemma ContainsWindows(doc: Bytes, pattern: Bytes, i: nat)
    requires Contains(doc, pattern) && i + 3 <= |pattern|
    ensures HasWindow(doc, Window(pattern, i))
  {
    var at :| 0 <= at <= |doc| && OccursAt(doc, pattern, at);
    var part := doc[at..at + |pattern|];
    var window := doc[at + i..at + i + 3];
    assert forall k | 0 <= k < 3 :: window[k] == part[i + k];
    assert window == pattern[i..i + 3];
    assert OccursAt(doc, Window(pattern, i), at + i);
  }

  /** No document that contains the pattern is missing among the candidates. */
  lemma CandidatesComplete(table: map<Bytes, set<U32>>, docs: seq<Bytes>, pattern: Bytes, id: U32)
    requires Indexes(table, docs) && id < |docs| && Contains(docs[id], pattern)
    ensures InAllWindows(table, pattern, id)
  {
    hide Window, HasWindow, Contains;
    forall i | 0 <= i && i + 3 <= |pattern| ensures Has(table, Window(pattern, i), id) {
      ContainsWindows(docs[id], pattern, i);
    }
  }

  /** Candidates are documents. */
  lemma CandidatesAreDocuments(table: map<Bytes, set<U32>>, docs: seq<Bytes>, pattern: Bytes, id: U32)
    requires Indexes(table, docs) && |pattern| >= 3 && InAllWindows(table, pattern, id)
    ensures id < |docs|
  {
    hide HasWindow;
    assert Has(table, Window(pattern, 0), id);
  }

  /** No list of an index over a list of documents is longer than that. */
  lemma ListsFit(table: map<Bytes, set<U32>>, docs: seq<Bytes>)
    requires Indexes(table, docs)
    ensures forall k | k in table :: |table[k]| <= |docs|
  {
    forall k | k in table ensures |table[k]| <= |docs| {
      forall id | id in table[k] ensures id < |docs| {
        assert Has(table, k, id);
      }
      FewBelow(table[k], |docs|);
    }
  }

  /** Recording one more document keeps the index exact. */
  lemma IndexesNext(before: map<Bytes, set<U32>>, after: map<Bytes, set<U32>>, docs: seq<Bytes>, doc: Bytes)
    requires Indexes(before, docs) && |docs| < 0xFFFF_FFFF
    requires forall t: Bytes, i: U32 :: Has(after, t, i) <==> Has(before, t, i) || (i == |docs| && HasWindow(doc, t))
    ensures Indexes(after, docs + [doc])
  {
    hide HasWindow, Has;
  }

  /** Record every path under its position, as the sidecar generator does with the sorted paths. */
  method IndexPaths(paths: seq<Bytes>) returns (builder: PathTrigramBuilder)
    requires |paths| <= 0xFFFF_FFFF
    ensures fresh(builder) && Indexes(builder.trigrams, paths)
  {
    builder := new PathTrigramBuilder();
    assert paths[..0] == [];
    hide HasWindow, Has;
    for n := 0 to |paths|
      invariant fresh(builder) && Inhabited(builder.trigrams) && Indexes(builder.trigrams, paths[..n])
    {
      ghost var before := builder.trigrams;
      builder.RecordPath(n, paths[n]);
      IndexesNext(before, builder.trigrams, paths[..n], paths[n]);
      assert paths[..n + 1] == paths[..n] + [paths[n]];
    }
    assert paths[..|paths|] == paths;
  }
}
