/**
 * Posting lists: sets of ids kept under byte-string keys, written as one blob of counted lists and an
 * ordered map from key to the place of its list.
 */
module Postings {
  import opened Wrappers
  import opened Bytes
  import opened ByteOrder
  import opened FrameWriter
  import opened SeekTable

  datatype PostingError = TooManyIds | ReadPastEnd | ListTruncated

  /** An ordered map from keys to cookies, and the blob that the cookies point into. */
  datatype Index = Index(keys: seq<Bytes>, cookies: map<Bytes, nat>, postings: Bytes)

  predicate Ascending(ids: seq<U32>) {
    forall i, j | 0 <= i < j < |ids| :: ids[i] < ids[j]
  }

  /** A counted list at a place of the blob. */
  predicate RecordAt(raw: Bytes, at: nat, ids: seq<U32>) {
    && |ids| < U32_LIMIT && at + 4 + 4 * |ids| <= |raw|
    && ReadU32Le(raw, at) == Some(|ids|) && ReadsAs(raw, at + 4, ids)
  }

  /** The ids of a set, each once, smallest first. */
  ghost predicate Lists(ids: seq<U32>, all: set<U32>) {
    Ascending(ids) && forall id :: id in ids <==> id in all
  }

  /** The index holds exactly the sets of the table. */
  ghost predicate StandsFor(index: Index, table: map<Bytes, set<U32>>) {
    && InOrder(index.keys, table.Keys) && index.cookies.Keys == table.Keys
    && forall k | k in table :: HoldsAt(index.postings, index.cookies[k], table[k])
  }

  ghost predicate HoldsAt(raw: Bytes, at: nat, all: set<U32>) {
    exists ids :: Lists(ids, all) && |ids| == |all| && RecordAt(raw, at, ids)
  }

  /** A list of ids below a bound is no longer than the bound. */
  lemma {:induction false} FewBelow(ids: set<U32>, n: nat)
    requires forall id | id in ids :: id < n
    ensures |ids| <= n
  {
    if n == 0 {
      assert ids == {};
    } else if n <= 0xFFFF_FFFF + 1 {
      var last: U32 := n - 1;
      FewBelow(ids - {last}, n - 1);
    } else {
      FewBelow(ids, n - 1);
    }
  }

  // ---------- writing ----------

  lemma {:induction false} LeastId(all: set<U32>) returns (least: U32)
    requires all != {}
    ensures least in all && forall id | id in all :: least <= id
    decreases |all|
  {
    var some: U32 :| some in all;
    var rest := all - {some};
    if rest == {} {
      least := some;
      assert all == rest + {some} == {some};
    } else {
      var other := LeastId(rest);
      least := if some < other then some else other;
      forall id: U32 | id in all ensures least <= id {
        assert id == some || id in rest;
      }
    }
  }

  /** A bitmap iterates its ids from the smallest to the largest. */
  method SortIds(all: set<U32>) returns (ids: seq<U32>)
    ensures Lists(ids, all) && |ids| == |all|
  {
    ids := [];
    var rest := all;
    while rest != {}
      invariant rest <= all && |ids| + |rest| == |all| && Ascending(ids)
      invariant forall id: U32 :: id in ids <==> id in all && id !in rest
      invariant forall i, id | 0 <= i < |ids| && id in rest :: ids[i] < id
      decreases |rest|
    {
      ghost var smallest := LeastId(rest);
      var least: U32 :| least in rest && forall id | id in rest :: least <= id;
      ids := ids + [least];
      rest := rest - {least};
    }
  }

  lemma ListKept(raw: Bytes, more: Bytes, at: nat, words: seq<U32>)
    requires ReadsAs(raw, at, words)
    ensures ReadsAs(raw + more, at, words)
  {
  }

  lemma RecordKept(raw: Bytes, more: Bytes, at: nat, ids: seq<U32>)
    requires RecordAt(raw, at, ids)
    ensures RecordAt(raw + more, at, ids)
  {
    ListKept(raw, more, at + 4, ids);
  }

  lemma HeldKept(raw: Bytes, more: Bytes, at: nat, all: set<U32>)
    requires HoldsAt(raw, at, all)
    ensures HoldsAt(raw + more, at, all)
  {
    var ids :| Lists(ids, all) && |ids| == |all| && RecordAt(raw, at, ids);
    RecordKept(raw, more, at, ids);
  }

  /** Append one counted list to the blob. */
  method AppendList(raw: Bytes, ids: seq<U32>) returns (longer: Bytes)
    requires |ids| < U32_LIMIT
    ensures raw <= longer && RecordAt(longer, |raw|, ids)
  {
    longer := raw + U32Le(|ids|);
    ghost var head := [|ids|];
    WordsOne(|ids|);
    assert head + ids[..0] == head;
    for i := 0 to |ids|
      invariant longer == raw + Words(head + ids[..i])
    {
      assert (head + ids[..i + 1])[..1 + i] == head + ids[..i];
      Assoc(raw, Words(head + ids[..i]), U32Le(ids[i]));
      longer := longer + U32Le(ids[i]);
    }
    assert ids[..|ids|] == ids;
    ReadsWords(longer, |raw|, head + ids);
    assert longer[|raw|..|raw| + 4 * |head + ids|] == Words(head + ids);
    Counted(longer, |raw|, ids);
  }

  lemma Counted(raw: Bytes, at: nat, ids: seq<U32>)
    requires |ids| < U32_LIMIT && ReadsAs(raw, at, [|ids|] + ids)
    ensures RecordAt(raw, at, ids)
  {
    hide ReadU32Le;
    var words := [|ids|] + ids;
    assert ReadU32Le(raw, at + 4 * 0) == Some(words[0]);
    forall i | 0 <= i < |ids| ensures ReadU32Le(raw, at + 4 + 4 * i) == Some(ids[i]) {
      assert ReadU32Le(raw, at + 4 * (i + 1)) == Some(words[i + 1]);
    }
  }

  /** What is done after the first keys. */
  ghost predicate Written(raw: Bytes, cookies: map<Bytes, nat>, keys: seq<Bytes>, table: map<Bytes, set<U32>>) {
    && (forall k :: k in cookies <==> k in keys) && (forall k | k in keys :: k in table)
    && forall k | k in cookies :: HoldsAt(raw, cookies[k], table[k])
  }

  lemma WrittenNext(raw: Bytes, longer: Bytes, cookies: map<Bytes, nat>, keys: seq<Bytes>, key: Bytes,
                    ids: seq<U32>, table: map<Bytes, set<U32>>)
    requires Written(raw, cookies, keys, table) && key in table && key !in keys
    requires raw <= longer && RecordAt(longer, |raw|, ids) && Lists(ids, table[key]) && |ids| == |table[key]|
    ensures Written(longer, cookies[key := |raw|], keys + [key], table)
  {
    hide RecordAt, Lists;
    assert longer == raw + longer[|raw|..];
    forall k | k in cookies ensures HoldsAt(longer, cookies[k], table[k]) {
      HeldKept(raw, longer[|raw|..], cookies[k], table[k]);
    }
  }

  /** Append the list of one more key. */
  method WriteKey(raw: Bytes, key: Bytes, table: map<Bytes, set<U32>>, ghost cookies: map<Bytes, nat>, ghost keys: seq<Bytes>)
    returns (longer: Option<Bytes>)
    requires Written(raw, cookies, keys, table) && key in table && key !in keys
    ensures longer.Some? <==> |table[key]| < U32_LIMIT
    ensures longer.Some? ==> Written(longer.value, cookies[key := |raw|], keys + [key], table) && raw <= longer.value
  {
    hide *;
    var ids := SortIds(table[key]);
    if |ids| >= U32_LIMIT {
      return None;
    }
    var appended := AppendList(raw, ids);
    WrittenNext(raw, appended, cookies, keys, key, ids, table);
    return Some(appended);
  }

  /** Write every list and its cookie, in key order, behind the magic number and the version. */
  method WritePostings(table: map<Bytes, set<U32>>, magic: Bytes, version: U32) returns (r: Result<Index, PostingError>)
    ensures r.Ok? <==> forall k | k in table :: |table[k]| < U32_LIMIT
    ensures r.Ok? ==> StandsFor(r.value, table) && magic + U32Le(version) <= r.value.postings
  {
    hide *;
    var keys := SortKeys(table.Keys);
    var raw := magic + U32Le(version);
    var cookies: map<Bytes, nat> := map[];
    NothingWritten(raw, cookies, keys, table);
    for i := 0 to |keys|
      invariant Written(raw, cookies, keys[..i], table) && magic + U32Le(version) <= raw
      invariant forall k | k in keys[..i] :: |table[k]| < U32_LIMIT
    {
      var key := keys[i];
      assert keys[..i + 1] == keys[..i] + [key];
      KeyOf(keys, table, i);
      var longer := WriteKey(raw, key, table, cookies, keys[..i]);
      if longer.None? {
        return Err(TooManyIds);
      }
      cookies := cookies[key := |raw|];
      raw := longer.value;
    }
    assert keys[..|keys|] == keys;
    AllWritten(raw, cookies, keys, table);
    return Ok(Index(keys, cookies, raw));
  }

  lemma NothingWritten(raw: Bytes, cookies: map<Bytes, nat>, keys: seq<Bytes>, table: map<Bytes, set<U32>>)
    requires cookies == map[]
    ensures Written(raw, cookies, keys[..0], table)
  {
  }

  lemma AllWritten(raw: Bytes, cookies: map<Bytes, nat>, keys: seq<Bytes>, table: map<Bytes, set<U32>>)
    requires Written(raw, cookies, keys, table) && InOrder(keys, table.Keys)
    ensures StandsFor(Index(keys, cookies, raw), table) && forall k | k in table :: k in keys
  {
    hide HoldsAt, Sorted;
  }

  // ---------- reading ----------

  /** Read the list at a cookie; on any blob and any cookie it reads within bounds. */
  method ReadList(raw: Bytes, cookie: nat, cap: nat) returns (r: Result<seq<U32>, PostingError>)
    ensures r.Ok? ==> RecordAt(raw, cookie, r.value) && |r.value| <= cap
    ensures forall ids | RecordAt(raw, cookie, ids) :: if |ids| <= cap then r == Ok(ids) else r.Err?
  {
    hide ReadU32Le;
    var count := ReadU32Le(raw, cookie);
    if count.None? {
      return Err(ReadPastEnd);
    }
    var n: nat := count.value;
    if n > cap {
      return Err(TooManyIds);
    }
    if cookie + 4 + 4 * n > |raw| {
      return Err(ListTruncated);
    }
    var ids: seq<U32> := [];
    for i := 0 to n
      invariant |ids| == i && ReadsAs(raw, cookie + 4, ids)
    {
      ids := ids + [ReadU32Le(raw, cookie + 4 + 4 * i).value];
    }
    forall other | RecordAt(raw, cookie, other) ensures other == ids {
      ReadsUnique(raw, cookie + 4, other, ids);
    }
    return Ok(ids);
  }

  /** The list kept under a key of the table. */
  method ListOf(index: Index, key: Bytes, cap: nat, ghost table: map<Bytes, set<U32>>) returns (r: Result<seq<U32>, PostingError>)
    requires StandsFor(index, table) && key in table
    ensures r.Ok? <==> |table[key]| <= cap
    ensures r.Ok? ==> Lists(r.value, table[key])
  {
    ghost var ids :| Lists(ids, table[key]) && |ids| == |table[key]| && RecordAt(index.postings, index.cookies[key], ids);
    r := ReadList(index.postings, index.cookies[key], cap);
  }
}
