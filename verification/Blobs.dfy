/** Serialized values kept under byte-string keys: each behind its length, and a map from key to place. */
module Blobs {
  import opened Wrappers
  import opened Bytes
  import opened ByteOrder

  const MAX_SERIALIZED_BYTES := 0x1000_0000

  /** A serializer that is known only by its round trip. */
  datatype Serializer<!T> = Serializer(serialize: T -> Bytes, deserialize: Bytes -> Option<T>)

  ghost predicate Exact<T(!new)>(codec: Serializer<T>) {
    forall x :: codec.deserialize(codec.serialize(x)) == Some(x)
  }

  datatype BlobIndex = BlobIndex(cookies: map<Bytes, nat>, postings: Bytes)

  /** The value at a cookie, or nothing when it is too large, cut off or corrupt. */
  function BlobAt<T>(raw: Bytes, cookie: nat, codec: Serializer<T>): Option<T> {
    match ReadU32Le(raw, cookie)
    case None => None
    case Some(len) =>
      var n: nat := len;
      if n > MAX_SERIALIZED_BYTES || cookie + 4 + n > |raw| then None
      else codec.deserialize(raw[cookie + 4..cookie + 4 + n])
  }

  /** The index gives the value of every key of the table, and knows no other keys. */
  ghost predicate Gives<T>(index: BlobIndex, codec: Serializer<T>, table: map<Bytes, T>) {
    && index.cookies.Keys == table.Keys
    && forall k | k in table :: index.cookies[k] + 4 <= |index.postings|
                                && BlobAt(index.postings, index.cookies[k], codec) == Some(table[k])
  }

  lemma BlobKept<T>(raw: Bytes, more: Bytes, cookie: nat, codec: Serializer<T>)
    requires BlobAt(raw, cookie, codec).Some?
    ensures BlobAt(raw + more, cookie, codec) == BlobAt(raw, cookie, codec)
  {
    var n: nat := ReadU32Le(raw, cookie).value;
    assert ReadU32Le(raw + more, cookie) == ReadU32Le(raw, cookie);
    assert (raw + more)[cookie + 4..cookie + 4 + n] == raw[cookie + 4..cookie + 4 + n];
  }

  lemma BlobAppended<T(!new)>(raw: Bytes, blob: Bytes, value: T, codec: Serializer<T>)
    requires Exact(codec) && blob == codec.serialize(value) && |blob| <= MAX_SERIALIZED_BYTES
    ensures BlobAt(raw + U32Le(|blob|) + blob, |raw|, codec) == Some(value)
  {
    var longer := raw + U32Le(|blob|) + blob;
    assert longer[|raw|..|raw| + 4] == U32Le(|blob|);
    U32RoundTrip(longer, |raw|, |blob|);
    assert longer[|raw| + 4..|raw| + 4 + |blob|] == blob;
  }

  ghost predicate WrittenBlobs<T>(raw: Bytes, cookies: map<Bytes, nat>, keys: seq<Bytes>, table: map<Bytes, T>, codec: Serializer<T>) {
    && (forall k :: k in cookies <==> k in keys) && (forall k | k in keys :: k in table)
    && forall k | k in cookies :: cookies[k] + 4 <= |raw| && BlobAt(raw, cookies[k], codec) == Some(table[k])
  }

  lemma WrittenMore<T>(raw: Bytes, more: Bytes, cookies: map<Bytes, nat>, keys: seq<Bytes>, key: Bytes,
                       table: map<Bytes, T>, codec: Serializer<T>)
    requires WrittenBlobs(raw, cookies, keys, table, codec) && key in table && key !in keys && |more| >= 4
    requires BlobAt(raw + more, |raw|, codec) == Some(table[key])
    ensures WrittenBlobs(raw + more, cookies[key := |raw|], keys + [key], table, codec)
  {
    hide BlobAt;
    forall k | k in cookies ensures BlobAt(raw + more, cookies[k], codec) == Some(table[k]) {
      BlobKept(raw, more, cookies[k], codec);
    }
  }

  /** Write every value behind its length, in key order, behind the magic number and the version. */
  method WriteBlobs<T(!new)>(table: map<Bytes, T>, codec: Serializer<T>, magic: Bytes, version: U32) returns (r: Option<BlobIndex>)
    requires Exact(codec)
    ensures r.Some? <==> forall k | k in table :: |codec.serialize(table[k])| <= MAX_SERIALIZED_BYTES
    ensures r.Some? ==> Gives(r.value, codec, table) && magic + U32Le(version) <= r.value.postings
  {
    var keys := SortKeys(table.Keys);
    var raw := magic + U32Le(version);
    var cookies: map<Bytes, nat> := map[];
    hide BlobAt, Exact, InOrder, Gives;
    for i := 0 to |keys|
      invariant WrittenBlobs(raw, cookies, keys[..i], table, codec) && magic + U32Le(version) <= raw
      invariant forall k | k in keys[..i] :: |codec.serialize(table[k])| <= MAX_SERIALIZED_BYTES
    {
      var key := keys[i];
      assert keys[..i + 1] == keys[..i] + [key];
      KeyOf(keys, table, i);
      var blob := codec.serialize(table[key]);
      if |blob| > MAX_SERIALIZED_BYTES {
        return None;
      }
      BlobAppended(raw, blob, table[key], codec);
      Assoc(raw, U32Le(|blob|), blob);
      WrittenMore(raw, U32Le(|blob|) + blob, cookies, keys[..i], key, table, codec);
      cookies := cookies[key := |raw|];
      raw := raw + U32Le(|blob|) + blob;
    }
    assert keys[..|keys|] == keys;
    AllBlobs(raw, cookies, keys, table, codec);
    return Some(BlobIndex(cookies, raw));
  }

  lemma AllBlobs<T>(raw: Bytes, cookies: map<Bytes, nat>, keys: seq<Bytes>, table: map<Bytes, T>, codec: Serializer<T>)
    requires WrittenBlobs(raw, cookies, keys, table, codec) && InOrder(keys, table.Keys)
    ensures Gives(BlobIndex(cookies, raw), codec, table) && forall k | k in table :: k in keys
  {
    hide BlobAt, Sorted;
  }
}
