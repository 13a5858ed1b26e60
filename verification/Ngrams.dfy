/**
 * The package-level trigram index: serialized bitmaps behind their byte length, and a lookup that
 * takes the smallest bitmap first and stops as soon as nothing is left.
 */
module Ngrams {
  import opened Wrappers
  import opened Bytes
  import opened PathIndex
  import opened Blobs
  import opened Trigrams

  const NGRAM_MAGIC: Bytes := [78, 78, 80, 79]
  const NGRAM_VERSION: U32 := 2

  datatype NgramError = BitmapTooLarge | ReadPastEnd | BitmapCorrupt

  /** Bitmap serialization is known only by its round trip. */
  type BitmapCodec = Serializer<set<U32>>

  /** Write every bitmap behind its length, in key order. */
  method WriteBitmaps(table: map<Bytes, set<U32>>, codec: BitmapCodec) returns (r: Result<BlobIndex, NgramError>)
    requires Exact(codec)
    ensures r.Ok? <==> forall k | k in table :: |codec.serialize(table[k])| <= MAX_SERIALIZED_BYTES
    ensures r.Ok? ==> Gives(r.value, codec, table)
  {
    var written := WriteBlobs(table, codec, NGRAM_MAGIC, NGRAM_VERSION);
    return if written.Some? then Ok(written.value) else Err(BitmapTooLarge);
  }

  // ---------- the lookup ----------

  /** A posting still to be read: where it is, and the length that its header declares. */
  datatype Posting = Posting(cookie: nat, header: U32)

  /** The id is in the bitmap of every posting. */
  ghost predicate InEach(raw: Bytes, codec: BitmapCodec, postings: seq<Posting>, id: U32) {
    forall p | p in postings :: BlobAt(raw, p.cookie, codec).Some? && id in BlobAt(raw, p.cookie, codec).value
  }

  ghost predicate AllReadable(raw: Bytes, codec: BitmapCodec, postings: seq<Posting>) {
    forall p | p in postings :: BlobAt(raw, p.cookie, codec).Some?
  }

  /** The postings looked up for the distinct windows before position `n`. */
  ghost predicate PostingsOf(index: BlobIndex, keys: seq<Bytes>, postings: seq<Posting>) {
    && |postings| == |keys|
    && forall i | 0 <= i < |keys| :: keys[i] in index.cookies && postings[i].cookie == index.cookies[keys[i]]
  }

  /** Collect the postings of the distinct windows, or stop at a window that no package has. */
  method WindowPostings(index: BlobIndex, pattern: Bytes, ghost codec: BitmapCodec, ghost table: map<Bytes, set<U32>>)
    returns (r: Option<seq<Posting>>, ghost keys: seq<Bytes>)
    requires Gives(index, codec, table) && |pattern| >= 3
    ensures r.None? ==> forall id: U32 :: !InAllWindows(table, pattern, id)
    ensures r.Some? ==> r.value != [] && Looked(table, pattern, |pattern| - 2, keys) && PostingsOf(index, keys, r.value)
  {
    var seen: seq<Bytes> := [];
    var postings: seq<Posting> := [];
    keys := [];
    assert index.cookies.Keys == table.Keys;
    hide Window, InAllWindows, WindowBefore, BlobAt;
    for n := 0 to |pattern| - 2
      invariant keys == seen && Looked(table, pattern, n, seen) && (n > 0 ==> seen != []) && PostingsOf(index, seen, postings)
    {
      var t := Window(pattern, n);
      if t !in seen {
        if t !in index.cookies {
          AbsentWindow(table, pattern, n);
          return None, seen;
        }
        assert t in table;
        LookedNext(table, pattern, n, seen, [t]);
        seen := seen + [t];
        keys := seen;
        postings := postings + [Posting(index.cookies[t], ReadU32Le(index.postings, index.cookies[t]).value)];
      } else {
        LookedNext(table, pattern, n, seen, []);
        assert seen + [] == seen;
      }
    }
    return Some(postings), seen;
  }

  /** The ids in every posting are the ids under every window. */
  lemma PostingsDecide(index: BlobIndex, codec: BitmapCodec, table: map<Bytes, set<U32>>, pattern: Bytes,
                       keys: seq<Bytes>, postings: seq<Posting>, id: U32)
    requires Gives(index, codec, table) && |pattern| >= 3 && Looked(table, pattern, |pattern| - 2, keys)
    requires PostingsOf(index, keys, postings)
    ensures AllReadable(index.postings, codec, postings)
    ensures InEach(index.postings, codec, postings, id) <==> InAllWindows(table, pattern, id)
  {
    hide BlobAt, Window, WindowBefore;
    forall i | 0 <= i < |keys| ensures BlobAt(index.postings, postings[i].cookie, codec) == Some(table[keys[i]]) {
      assert keys[i] in keys;
    }
    DistinctEnough(table, pattern, keys, id);
    var lists := ListsOf(table, keys);
    assert forall i | 0 <= i < |keys| :: lists[i] == table[keys[i]] && lists[i] in lists && postings[i] in postings;
  }

  ghost predicate LargestFirst(postings: seq<Posting>) {
    forall i, j | 0 <= i < j < |postings| :: postings[i].header >= postings[j].header
  }

  /** Behind every posting with a header at least as large. */
  method PlaceFor(sorted: seq<Posting>, header: U32) returns (at: nat)
    ensures at <= |sorted| && forall i | 0 <= i < at :: sorted[i].header >= header
    ensures at < |sorted| ==> sorted[at].header < header
  {
    at := 0;
    while at < |sorted| && sorted[at].header >= header
      invariant at <= |sorted| && forall i | 0 <= i < at :: sorted[i].header >= header
    {
      at := at + 1;
    }
  }

  /** Sort the postings by header, the largest first, so that the smallest is popped first. */
  method SortByHeader(postings: seq<Posting>) returns (sorted: seq<Posting>)
    ensures multiset(sorted) == multiset(postings) && LargestFirst(sorted)
  {
    sorted := [];
    assert LargestFirst(sorted);
    hide LargestFirst;
    for n := 0 to |postings|
      invariant multiset(sorted) == multiset(postings[..n]) && LargestFirst(sorted)
    {
      var at := PlaceFor(sorted, postings[n].header);
      assert postings[..n + 1] == postings[..n] + [postings[n]];
      InsertByHeader(sorted, at, postings[n]);
      InsertKeeps(sorted, at, postings[n]);
      sorted := sorted[..at] + [postings[n]] + sorted[at..];
    }
    assert postings[..|postings|] == postings;
  }

  lemma InsertByHeader(sorted: seq<Posting>, at: nat, p: Posting)
    requires LargestFirst(sorted) && at <= |sorted| && forall i | 0 <= i < at :: sorted[i].header >= p.header
    requires at < |sorted| ==> sorted[at].header < p.header
    ensures LargestFirst(sorted[..at] + [p] + sorted[at..])
  {
    var s := sorted[..at] + [p] + sorted[at..];
    forall i, j | 0 <= i < j < |s| ensures s[i].header >= s[j].header {
      assert i < at ==> s[i] == sorted[i];
      assert i > at ==> s[i] == sorted[i - 1];
      assert j < at ==> s[j] == sorted[j];
      assert j > at ==> s[j] == sorted[j - 1];
    }
  }

  lemma InsertKeeps(sorted: seq<Posting>, at: nat, p: Posting)
    requires at <= |sorted|
    ensures multiset(sorted[..at] + [p] + sorted[at..]) == multiset(sorted) + multiset{p}
  {
    assert sorted == sorted[..at] + sorted[at..];
  }

  lemma SameMembers(a: seq<Posting>, b: seq<Posting>)
    requires multiset(a) == multiset(b)
    ensures |a| == |b| && forall p :: p in a <==> p in b
  {
    assert |multiset(a)| == |a| && |multiset(b)| == |b|;
    forall p ensures p in a <==> p in b {
      assert p in a <==> p in multiset(a);
      assert p in b <==> p in multiset(b);
    }
  }

  /** Pop the smallest posting and intersect, until none is left or no id is. */
  method IntersectSmallest(raw: Bytes, codec: BitmapCodec, sorted: seq<Posting>) returns (r: Result<set<U32>, NgramError>)
    requires sorted != [] && AllReadable(raw, codec, sorted)
    ensures r.Ok? && forall id: U32 :: id in r.value <==> InEach(raw, codec, sorted, id)
  {
    hide BlobAt;
    var entries := sorted;
    var smallest := entries[|entries| - 1];
    assert smallest in sorted;
    entries := entries[..|entries| - 1];
    assert sorted == entries + [smallest];
    var acc := BlobAt(raw, smallest.cookie, codec).value;
    while entries != []
      invariant forall p | p in entries :: p in sorted
      invariant forall id: U32 :: InEach(raw, codec, sorted, id) <==> id in acc && InEach(raw, codec, entries, id)
      decreases |entries|
    {
      var last := entries[|entries| - 1];
      var rest := entries[..|entries| - 1];
      assert entries == rest + [last] && last in sorted;
      var bitmap := BlobAt(raw, last.cookie, codec);
      if bitmap.None? {
        return Err(BitmapCorrupt);
      }
      acc := acc * bitmap.value;
      entries := rest;
      if acc == {} {
        break;
      }
    }
    return Ok(acc);
  }

  /**
   * `candidate_ordinals`: exactly the packages recorded under every window of the pattern, although
   * the order of intersection depends on the sizes and the intersection stops when it is empty.
   */
  method CandidateOrdinals(index: BlobIndex, pattern: Bytes, codec: BitmapCodec, ghost table: map<Bytes, set<U32>>)
    returns (r: Result<Option<set<U32>>, NgramError>)
    requires Gives(index, codec, table)
    ensures r.Ok? && (r.value.None? <==> |pattern| < 3)
    ensures |pattern| >= 3 ==> forall id: U32 :: id in r.value.value <==> InAllWindows(table, pattern, id)
  {
    if |pattern| < 3 {
      return Ok(None);
    }
    hide Gives, InAllWindows, InEach, AllReadable, Looked, PostingsOf;
    var postings, keys := WindowPostings(index, pattern, codec, table);
    if postings.None? {
      return Ok(Some({}));
    }
    var sorted := SortByHeader(postings.value);
    Agree(index, codec, table, pattern, keys, postings.value, sorted);
    var found := IntersectSmallest(index.postings, codec, sorted);
    return Ok(Some(found.value));
  }

  lemma Agree(index: BlobIndex, codec: BitmapCodec, table: map<Bytes, set<U32>>, pattern: Bytes,
              keys: seq<Bytes>, postings: seq<Posting>, sorted: seq<Posting>)
    requires Gives(index, codec, table) && |pattern| >= 3 && Looked(table, pattern, |pattern| - 2, keys)
    requires PostingsOf(index, keys, postings) && multiset(sorted) == multiset(postings) && postings != []
    ensures sorted != [] && AllReadable(index.postings, codec, sorted)
    ensures forall id: U32 :: InEach(index.postings, codec, sorted, id) <==> InAllWindows(table, pattern, id)
  {
    hide Gives, InAllWindows, Looked, PostingsOf, BlobAt;
    SameMembers(sorted, postings);
    PostingsDecide(index, codec, table, pattern, keys, postings, 0);
    forall id: U32 ensures InEach(index.postings, codec, sorted, id) <==> InAllWindows(table, pattern, id) {
      PostingsDecide(index, codec, table, pattern, keys, postings, id);
    }
  }

  // ---------- no package is missed ----------

  /** The table records exactly the windows of the paths of these packages. */
  ghost predicate IndexesPackages(table: map<Bytes, set<U32>>, packages: seq<seq<Bytes>>) {
    forall t: Bytes, i: U32 :: Has(table, t, i) <==> i < |packages| && exists p :: p in packages[i] && HasWindow(p, t)
  }

  /** A package with a path that contains the pattern is a candidate. */
  lemma PackageIsCandidate(table: map<Bytes, set<U32>>, packages: seq<seq<Bytes>>, pattern: Bytes, id: U32, path: Bytes)
    requires IndexesPackages(table, packages) && id < |packages| && path in packages[id] && Contains(path, pattern)
    ensures InAllWindows(table, pattern, id)
  {
    hide Window, HasWindow, Contains;
    forall i | 0 <= i && i + 3 <= |pattern| ensures Has(table, Window(pattern, i), id) {
      ContainsWindows(path, pattern, i);
    }
  }

  /** Record every package under its ordinal. */
  method IndexPackages(packages: seq<seq<Bytes>>) returns (builder: NgramBuilder)
    requires |packages| <= 0xFFFF_FFFF
    ensures fresh(builder) && IndexesPackages(builder.trigrams, packages)
  {
    builder := new NgramBuilder();
    assert packages[..0] == [];
    hide HasWindow, Has;
    for n := 0 to |packages|
      invariant fresh(builder) && Inhabited(builder.trigrams) && IndexesPackages(builder.trigrams, packages[..n])
    {
      ghost var before := builder.trigrams;
      builder.RecordPackage(n, packages[n]);
      NextPackage(before, builder.trigrams, packages[..n], packages[n]);
      assert packages[..n + 1] == packages[..n] + [packages[n]];
    }
    assert packages[..|packages|] == packages;
  }

  lemma NextPackage(before: map<Bytes, set<U32>>, after: map<Bytes, set<U32>>, packages: seq<seq<Bytes>>, paths: seq<Bytes>)
    requires IndexesPackages(before, packages) && |packages| < 0xFFFF_FFFF
    requires forall t: Bytes, i: U32 ::
               Has(after, t, i) <==> Has(before, t, i) || (i == |packages| && exists p :: p in paths && HasWindow(p, t))
    ensures IndexesPackages(after, packages + [paths])
  {
    hide HasWindow, Has;
  }
}
