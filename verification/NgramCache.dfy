/** The cache of candidate sets: a true least-recently-used cache, and transparent to queries. */
module NgramCache {
  import opened Wrappers
  import opened Bytes

  const NGRAM_CACHE_CAPACITY := 256

  // ---------- recency ----------

  function Without(keys: seq<Bytes>, key: Bytes): seq<Bytes> {
    if keys == [] then []
    else (if keys[0] == key then [] else [keys[0]]) + Without(keys[1..], key)
  }

  /** Every key that was used, the most recently used first. */
  function Recency(uses: seq<Bytes>): seq<Bytes> {
    if uses == [] then []
    else
      var n := |uses| - 1;
      [uses[n]] + Without(Recency(uses[..n]), uses[n])
  }

  function Take(keys: seq<Bytes>, n: nat): seq<Bytes> {
    if |keys| <= n then keys else keys[..n]
  }

  predicate Distinct(keys: seq<Bytes>) {
    forall i, j | 0 <= i < j < |keys| :: keys[i] != keys[j]
  }

  lemma {:induction false} WithoutFacts(keys: seq<Bytes>, key: Bytes)
    ensures forall k :: k in Without(keys, key) <==> k in keys && k != key
    ensures |Without(keys, key)| <= |keys|
    ensures key !in keys ==> Without(keys, key) == keys
  {
    if keys != [] {
      WithoutFacts(keys[1..], key);
      assert keys == [keys[0]] + keys[1..];
    }
  }

  lemma {:induction false} WithoutDistinct(keys: seq<Bytes>, key: Bytes)
    requires Distinct(keys)
    ensures Distinct(Without(keys, key))
  {
    if keys != [] {
      var rest := keys[1..];
      assert forall i | 0 <= i < |rest| :: rest[i] == keys[i + 1];
      WithoutDistinct(rest, key);
      WithoutFacts(rest, key);
      var without := Without(rest, key);
      forall i | 0 <= i < |without| ensures without[i] != keys[0] {
        assert without[i] in without && without[i] in rest;
      }
    }
  }

  /** Keys used are listed once each. */
  lemma {:induction false} RecencyFacts(uses: seq<Bytes>)
    ensures Distinct(Recency(uses)) && forall k :: k in Recency(uses) <==> k in uses
  {
    if uses != [] {
      var n := |uses| - 1;
      RecencyFacts(uses[..n]);
      WithoutFacts(Recency(uses[..n]), uses[n]);
      WithoutDistinct(Recency(uses[..n]), uses[n]);
      assert uses == uses[..n] + [uses[n]];
    }
  }

  /** Taking one key out of a list that holds it once. */
  lemma {:induction false} WithoutAt(keys: seq<Bytes>, i: nat)
    requires Distinct(keys) && i < |keys|
    ensures Without(keys, keys[i]) == keys[..i] + keys[i + 1..]
  {
    assert keys == [keys[0]] + keys[1..];
    if i == 0 {
      WithoutFacts(keys[1..], keys[0]);
    } else {
      WithoutAt(keys[1..], i - 1);
      assert keys[..i] == [keys[0]] + keys[1..][..i - 1] && keys[1..][i..] == keys[i + 1..];
      Assoc([keys[0]], keys[1..][..i - 1], keys[i + 1..]);
    }
  }

  /** Using a cached key again: the cached ones stay the most recent ones. */
  lemma PromoteTake(recent: seq<Bytes>, n: nat, i: nat)
    requires Distinct(recent) && i < |Take(recent, n)|
    ensures var order := Take(recent, n); var key := order[i];
            Take([key] + Without(recent, key), n) == [key] + order[..i] + order[i + 1..]
  {
    var order := Take(recent, n);
    var key := order[i];
    assert recent[i] == key;
    WithoutAt(recent, i);
    var rest := recent[..i] + recent[i + 1..];
    assert [key] + rest == ([key] + order[..i]) + recent[i + 1..];
    if |recent| > n {
      assert ([key] + rest)[..n] == [key] + order[..i] + order[i + 1..];
    }
  }

  /** Using a key that is not cached: the least recently used one makes room. */
  lemma FreshTake(recent: seq<Bytes>, n: nat, key: Bytes)
    requires Distinct(recent) && n > 0 && key !in Take(recent, n)
    ensures var order := Take(recent, n);
            Take([key] + Without(recent, key), n) == [key] + if |order| >= n then order[..n - 1] else order
  {
    var order := Take(recent, n);
    if key in recent {
      var i :| 0 <= i < |recent| && recent[i] == key;
      assert forall j | 0 <= j < |order| :: recent[j] == order[j] && order[j] in order;
      WithoutAt(recent, i);
      assert ([key] + (recent[..i] + recent[i + 1..]))[..n] == [key] + recent[..n - 1];
    } else {
      WithoutFacts(recent, key);
      if |recent| >= n {
        assert ([key] + recent)[..n] == [key] + recent[..n - 1];
      }
    }
  }

  lemma UsedNow(uses: seq<Bytes>, key: Bytes)
    ensures Recency(uses + [key]) == [key] + Without(Recency(uses), key)
  {
    assert (uses + [key])[..|uses|] == uses;
  }

  /** Moving a cached key to the front makes the order that of its new use. */
  lemma Promoted(uses: seq<Bytes>, order: seq<Bytes>, pos: nat)
    requires order == Take(Recency(uses), NGRAM_CACHE_CAPACITY) && pos < |order|
    ensures Take(Recency(uses + [order[pos]]), NGRAM_CACHE_CAPACITY) == [order[pos]] + order[..pos] + order[pos + 1..]
    ensures forall k :: k in [order[pos]] + order[..pos] + order[pos + 1..] <==> k in order
  {
    hide Recency, Take, Distinct, Without;
    RecencyFacts(uses);
    PromoteTake(Recency(uses), NGRAM_CACHE_CAPACITY, pos);
    UsedNow(uses, order[pos]);
    SameKeys(order, pos);
    InTaken(Recency(uses), NGRAM_CACHE_CAPACITY, pos);
  }

  lemma InTaken(keys: seq<Bytes>, n: nat, i: nat)
    requires i < |Take(keys, n)|
    ensures i < |keys| && Take(keys, n)[i] == keys[i]
  {
  }

  lemma SameKeys(order: seq<Bytes>, pos: nat)
    requires pos < |order|
    ensures forall k :: k in [order[pos]] + order[..pos] + order[pos + 1..] <==> k in order
  {
    assert order == order[..pos] + [order[pos]] + order[pos + 1..];
  }

  // ---------- the cache ----------

  class Cache {
    var entries: map<Bytes, set<nat>>
    var order: seq<Bytes>

    /** The keys of all successful lookups and all insertions, oldest first. */
    ghost var uses: seq<Bytes>

    /** The keys kept are the most recently used ones, in order of recency, as many as fit. */
    ghost predicate Valid()
      reads this
    {
      && order == Take(Recency(uses), NGRAM_CACHE_CAPACITY)
      && forall k :: k in entries <==> k in order
    }

    constructor ()
      ensures Valid() && entries == map[] && uses == []
    {
      entries, order, uses := map[], [], [];
    }

    lemma OrderFacts()
      requires Valid()
      ensures Distinct(order) && |order| <= NGRAM_CACHE_CAPACITY && |entries| == |order|
    {
      RecencyFacts(uses);
      CountKeys(order);
      assert entries.Keys == set k | k in order;
    }

    lemma UseOne(key: Bytes)
      ensures Recency(uses + [key]) == [key] + Without(Recency(uses), key)
    {
      UsedNow(uses, key);
    }

    method Position(key: Bytes) returns (pos: nat)
      requires key in order
      ensures pos < |order| && order[pos] == key
    {
      ghost var at :| 0 <= at < |order| && order[at] == key;
      pos := 0;
      while order[pos] != key
        invariant pos <= at
        decreases at - pos
      {
        pos := pos + 1;
      }
    }

    /** Move a cached key to the front. */
    method Promote(key: Bytes)
      requires Valid() && key in order
      modifies this`order, this`uses
      ensures Valid() && uses == old(uses) + [key]
    {
      var pos := Position(key);
      Promoted(uses, order, pos);
      hide Recency, Take;
      order := [key] + order[..pos] + order[pos + 1..];
      uses := uses + [key];
    }

    /** A hit is a use, a miss changes nothing. */
    method Get(key: Bytes) returns (value: Option<set<nat>>)
      requires Valid()
      modifies this`order, this`uses
      ensures Valid()
      ensures value == if key in entries then Some(entries[key]) else None
      ensures uses == if key in entries then old(uses) + [key] else old(uses)
    {
      if key !in entries {
        return None;
      }
      Promote(key);
      return Some(entries[key]);
    }

    /** Insert or replace; only a new key in a full cache evicts, and it evicts the least recently used. */
    method Insert(key: Bytes, value: set<nat>)
      requires Valid()
      modifies this
      ensures Valid() && uses == old(uses) + [key]
      ensures key in entries && entries[key] == value
      ensures forall k | k in entries && k != key :: k in old(entries) && entries[k] == old(entries)[k]
    {
      OrderFacts();
      if key in entries {
        entries := entries[key := value];
        Promote(key);
        return;
      }
      InsertFresh(key, value);
    }

    /** Insert a key that is not cached. */
    method InsertFresh(key: Bytes, value: set<nat>)
      requires Valid() && key !in entries
      requires Distinct(order) && |order| <= NGRAM_CACHE_CAPACITY && |entries| == |order|
      modifies this
      ensures Valid() && uses == old(uses) + [key]
      ensures key in entries && entries[key] == value
      ensures forall k | k in entries && k != key :: k in old(entries) && entries[k] == old(entries)[k]
    {
      RecencyFacts(uses);
      FreshTake(Recency(uses), NGRAM_CACHE_CAPACITY, key);
      UseOne(key);
      hide Recency, Take, Distinct, Without;
      MakeRoom();
      PushFront(key, value);
    }

    /** Put a key and its value in front. */
    method PushFront(key: Bytes, value: set<nat>)
      requires forall k :: k in entries <==> k in order
      modifies this
      ensures order == [key] + old(order) && entries == old(entries)[key := value] && uses == old(uses) + [key]
      ensures forall k :: k in entries <==> k in order
    {
      order := [key] + order;
      entries := entries[key := value];
      uses := uses + [key];
    }

    /** A full cache drops its least recently used key. */
    method MakeRoom()
      requires Distinct(order) && |order| <= NGRAM_CACHE_CAPACITY && |entries| == |order|
      requires forall k :: k in entries <==> k in order
      modifies this`entries, this`order
      ensures order == if |old(order)| >= NGRAM_CACHE_CAPACITY then old(order)[..NGRAM_CACHE_CAPACITY - 1] else old(order)
      ensures forall k :: k in entries <==> k in order
      ensures forall k | k in entries :: k in old(entries) && entries[k] == old(entries)[k]
    {
      if |entries| < NGRAM_CACHE_CAPACITY {
        return;
      }
      var oldest := order[|order| - 1];
      entries := entries - {oldest};
      ghost var before := order;
      order := order[..|order| - 1];
      assert before == order + [oldest];
    }
  }

  lemma {:induction false} CountKeys(keys: seq<Bytes>)
    requires Distinct(keys)
    ensures |set k | k in keys| == |keys|
  {
    if keys != [] {
      var n := |keys| - 1;
      CountKeys(keys[..n]);
      assert keys == keys[..n] + [keys[n]];
      assert (set k | k in keys) == (set k | k in keys[..n]) + {keys[n]};
    }
  }

  // ---------- transparency ----------

  /** The key of a query: its three patterns with NULs between them, absent ones empty. */
  function CacheKey(literal: Option<Bytes>, prefix: Option<Bytes>, suffix: Option<Bytes>): Bytes {
    TextOf(literal) + [NUL] + TextOf(prefix) + [NUL] + TextOf(suffix)
  }

  function TextOf(pattern: Option<Bytes>): Bytes {
    if pattern.Some? then pattern.value else []
  }

  /** What a search asks: a literal alone, or the literals of a regex, which are at least a trigram long. */
  predicate Call(literal: Option<Bytes>, prefix: Option<Bytes>, suffix: Option<Bytes>) {
    && (literal.Some? ==> prefix.None? && suffix.None?)
    && (prefix.Some? ==> |prefix.value| >= 3) && (suffix.Some? ==> |suffix.value| >= 3)
  }

  /** Narrow a candidate set, absent at first, by the candidates of one more pattern. */
  function Narrow(result: Option<set<nat>>, pattern: Option<Bytes>, resolve: Bytes -> Option<set<nat>>): Option<set<nat>> {
    if pattern.None? || |pattern.value| < 3 then result
    else match resolve(pattern.value)
      case None => result
      case Some(candidates) => Some(if result.Some? then result.value * candidates else candidates)
  }

  /** The answer without a cache, for fixed sidecars. */
  function Answer(literal: Option<Bytes>, prefix: Option<Bytes>, suffix: Option<Bytes>,
                  resolve: Bytes -> Option<set<nat>>): Option<set<nat>> {
    Narrow(Narrow(Narrow(None, literal, resolve), prefix, resolve), suffix, resolve)
  }

  /**
   * No indexed path holds a NUL, so an index has no candidates for a pattern with one; without an index
   * there is no answer at all.
   */
  ghost predicate NothingForNul(resolve: Bytes -> Option<set<nat>>) {
    || (forall x :: resolve(x).None?)
    || forall x | |x| >= 3 && NUL in x :: resolve(x) == Some({})
  }

  /** A pattern with a NUL leaves no candidates. */
  lemma NulLeavesNothing(l: Option<Bytes>, p: Option<Bytes>, s: Option<Bytes>, resolve: Bytes -> Option<set<nat>>)
    requires forall x | |x| >= 3 && NUL in x :: resolve(x) == Some({})
    requires (|TextOf(l)| >= 3 && NUL in TextOf(l)) || (|TextOf(p)| >= 3 && NUL in TextOf(p)) || (|TextOf(s)| >= 3 && NUL in TextOf(s))
    ensures Answer(l, p, s, resolve) == Some({})
  {
    var first := Narrow(None, l, resolve);
    var second := Narrow(first, p, resolve);
    NothingStays(l, resolve, None);
    NothingStays(p, resolve, first);
    NothingStays(s, resolve, second);
  }

  lemma NothingStays(pattern: Option<Bytes>, resolve: Bytes -> Option<set<nat>>, before: Option<set<nat>>)
    requires forall x | |x| >= 3 && NUL in x :: resolve(x) == Some({})
    ensures before == Some({}) || (|TextOf(pattern)| >= 3 && NUL in TextOf(pattern)) ==> Narrow(before, pattern, resolve) == Some({})
  {
    assert forall c: set<nat> :: {} * c == {} && c * {} == {};
  }

  lemma AnswerByText(l: Option<Bytes>, p: Option<Bytes>, s: Option<Bytes>, resolve: Bytes -> Option<set<nat>>)
    ensures Answer(l, p, s, resolve) == Answer(Some(TextOf(l)), Some(TextOf(p)), Some(TextOf(s)), resolve)
    ensures Answer(l, p, s, resolve).Some? ==> |TextOf(l)| >= 3 || |TextOf(p)| >= 3 || |TextOf(s)| >= 3
    ensures (forall x :: resolve(x).None?) ==> Answer(l, p, s, resolve).None?
  {
  }

  /** The shorter of two heads that are followed by a NUL is the same head, or the longer one holds a NUL. */
  lemma HeadsAgree(a: Bytes, b: Bytes, x: Bytes, y: Bytes)
    requires a + [NUL] + x == b + [NUL] + y
    ensures (a == b && x == y) || (|a| < |b| && NUL in b && NUL in x) || (|b| < |a| && NUL in a && NUL in y)
  {
    var s := a + [NUL] + x;
    assert s[..|a|] == a && s[|a|] == NUL && s[|a| + 1..] == x;
    assert s[..|b|] == b && s[|b|] == NUL && s[|b| + 1..] == y;
    if |a| < |b| {
      assert b[|a|] == NUL && x[|b| - |a| - 1] == NUL;
    } else if |b| < |a| {
      assert a[|b|] == NUL && y[|a| - |b| - 1] == NUL;
    }
  }

  /** Two regexes with the same key ask for the same literals, or one literal of each holds a NUL. */
  lemma RegexKeys(p: Bytes, s: Bytes, p': Bytes, s': Bytes)
    requires [] + [NUL] + p + [NUL] + s == [] + [NUL] + p' + [NUL] + s'
    ensures (p == p' && s == s') || ((NUL in p || NUL in s) && (NUL in p' || NUL in s'))
  {
    Regroup([], p, s);
    Regroup([], p', s');
    Tails([NUL], p + [NUL] + s, p' + [NUL] + s');
    HeadsAgree(p, p', s, s');
  }

  lemma Tails(head: Bytes, x: Bytes, y: Bytes)
    requires [] + head + x == [] + head + y
    ensures x == y
  {
    assert ([] + head + x)[|head|..] == x && ([] + head + y)[|head|..] == y;
  }

  lemma Regroup(l: Bytes, p: Bytes, s: Bytes)
    ensures l + [NUL] + p + [NUL] + s == l + [NUL] + (p + [NUL] + s)
  {
  }

  /** A literal with the key of a regex starts with a NUL, and some literal of the regex ends with one. */
  lemma MixedKeys(l: Bytes, p: Bytes, s: Bytes)
    requires l + [NUL] + [] + [NUL] + [] == [] + [NUL] + p + [NUL] + s
    ensures l == p == s == [] || (NUL in l && (NUL in p || NUL in s))
  {
    var key := l + [NUL] + [] + [NUL] + [];
    var n := |key|;
    assert n == |l| + 2 == |p| + |s| + 2;
    assert key[0] == NUL && key[n - 1] == NUL && key[n - 2] == NUL;
    if l != [] {
      assert l[0] == key[0];
      if s != [] {
        assert s[|s| - 1] == key[n - 1];
      } else {
        assert p[|p| - 1] == key[n - 2];
      }
    }
  }

  /** Two calls with the same key have the same answer, if the first one's is kept. */
  lemma KeysAgree(l: Option<Bytes>, p: Option<Bytes>, s: Option<Bytes>, l': Option<Bytes>, p': Option<Bytes>, s': Option<Bytes>,
                  resolve: Bytes -> Option<set<nat>>)
    requires Call(l, p, s) && Call(l', p', s') && CacheKey(l, p, s) == CacheKey(l', p', s')
    requires NothingForNul(resolve) && Answer(l, p, s, resolve).Some?
    ensures Answer(l', p', s', resolve) == Answer(l, p, s, resolve)
  {
    hide Answer;
    AnswerByText(l, p, s, resolve);
    AnswerByText(l', p', s', resolve);
    if TextOf(l) == TextOf(l') && TextOf(p) == TextOf(p') && TextOf(s) == TextOf(s') {
    } else if TextOf(l) == [] && TextOf(l') == [] {
      RegexKeys(TextOf(p), TextOf(s), TextOf(p'), TextOf(s'));
      NulLeavesNothing(l, p, s, resolve);
      NulLeavesNothing(l', p', s', resolve);
    } else if TextOf(l) != [] && TextOf(l') != [] {
      LongerTail(TextOf(l), TextOf(l'));
    } else if TextOf(l) != [] {
      MixedKeys(TextOf(l), TextOf(p'), TextOf(s'));
      NulLeavesNothing(l, p, s, resolve);
      NulLeavesNothing(l', p', s', resolve);
    } else {
      MixedKeys(TextOf(l'), TextOf(p), TextOf(s));
      NulLeavesNothing(l, p, s, resolve);
      LongLiteral(TextOf(l'), TextOf(p), TextOf(s));
      NulLeavesNothing(l', p', s', resolve);
    }
  }

  lemma LongerTail(l: Bytes, l': Bytes)
    requires l + [NUL] + [] + [NUL] + [] == l' + [NUL] + [] + [NUL] + []
    ensures l == l'
  {
    assert (l + [NUL] + [] + [NUL] + [])[..|l|] == l && (l' + [NUL] + [] + [NUL] + [])[..|l'|] == l';
  }

  /** A literal is as long as the two literals of a regex with the same key. */
  lemma LongLiteral(l: Bytes, p: Bytes, s: Bytes)
    requires l + [NUL] + [] + [NUL] + [] == [] + [NUL] + p + [NUL] + s
    ensures |l| == |p| + |s|
  {
    assert |l + [NUL] + [] + [NUL] + []| == |l| + 2;
  }

  /** Every cached set is the answer to every call with its key. */
  ghost predicate Right(entries: map<Bytes, set<nat>>, resolve: Bytes -> Option<set<nat>>) {
    forall l, p, s: Option<Bytes> | Call(l, p, s) && CacheKey(l, p, s) in entries ::
      Answer(l, p, s, resolve) == Some(entries[CacheKey(l, p, s)])
  }

  lemma StaysRight(entries: map<Bytes, set<nat>>, after: map<Bytes, set<nat>>, l: Option<Bytes>, p: Option<Bytes>, s: Option<Bytes>,
                   value: set<nat>, resolve: Bytes -> Option<set<nat>>)
    requires Right(entries, resolve) && NothingForNul(resolve) && Call(l, p, s) && Answer(l, p, s, resolve) == Some(value)
    requires CacheKey(l, p, s) in after && after[CacheKey(l, p, s)] == value
    requires forall k | k in after && k != CacheKey(l, p, s) :: k in entries && after[k] == entries[k]
    ensures Right(after, resolve)
  {
    hide CacheKey, Call, Answer, NothingForNul;
    forall l', p', s': Option<Bytes> | Call(l', p', s') && CacheKey(l', p', s') in after
      ensures Answer(l', p', s', resolve) == Some(after[CacheKey(l', p', s')])
    {
      if CacheKey(l', p', s') == CacheKey(l, p, s) {
        KeysAgree(l, p, s, l', p', s', resolve);
      }
    }
  }

  /**
   * `resolve_ngram_ordinals_multi`: the answer is the one without the cache, whatever was asked before,
   * and the cache stays right for what is asked later. The keys are not injective, but where they collide the answers agree.
   */
  method ResolveMulti(cache: Cache, literal: Option<Bytes>, prefix: Option<Bytes>, suffix: Option<Bytes>,
                      resolve: Bytes -> Option<set<nat>>) returns (result: Option<set<nat>>)
    requires cache.Valid() && Right(cache.entries, resolve) && Call(literal, prefix, suffix) && NothingForNul(resolve)
    modifies cache
    ensures cache.Valid() && Right(cache.entries, resolve)
    ensures result == Answer(literal, prefix, suffix, resolve)
  {
    hide CacheKey, Call, NothingForNul, Recency, Take;
    var key := CacheKey(literal, prefix, suffix);
    var cached := cache.Get(key);
    if cached.Some? {
      return cached;
    }
    result := None;
    var patterns := [literal, prefix, suffix];
    for i := 0 to 3
      invariant result == if i == 0 then None
                          else if i == 1 then Narrow(None, literal, resolve)
                          else if i == 2 then Narrow(Narrow(None, literal, resolve), prefix, resolve)
                          else Answer(literal, prefix, suffix, resolve)
    {
      result := Narrow(result, patterns[i], resolve);
    }
    if result.Some? {
      ghost var before := cache.entries;
      cache.Insert(key, result.value);
      StaysRight(before, cache.entries, literal, prefix, suffix, result.value, resolve);
    }
  }
}
