/** The order of byte strings, and sorted lists of them: the iteration order of an ordered map. */
module ByteOrder {
  import opened Bytes

  /** Lexicographic order; a proper prefix comes first. */
  predicate Less(a: Bytes, b: Bytes) {
    b != [] && (a == [] || a[0] < b[0] || (a[0] == b[0] && Less(a[1..], b[1..])))
  }

  /** At the first position where they differ the lesser string has the smaller byte, or has ended. */
  ghost predicate DiffersAt(a: Bytes, b: Bytes, n: nat) {
    && n <= |a| && n < |b| && (forall k | 0 <= k < n :: a[k] == b[k])
    && (n < |a| ==> a[n] < b[n])
  }

  lemma {:induction false} LessMeans(a: Bytes, b: Bytes)
    ensures Less(a, b) <==> exists n: nat :: DiffersAt(a, b, n)
  {
    if a == [] || b == [] || a[0] != b[0] {
      if Less(a, b) {
        assert DiffersAt(a, b, 0);
      }
    } else {
      LessMeans(a[1..], b[1..]);
      if Less(a, b) {
        var n: nat :| DiffersAt(a[1..], b[1..], n);
        assert forall k | 1 <= k < n + 1 :: a[k] == a[1..][k - 1] && b[k] == b[1..][k - 1];
        assert DiffersAt(a, b, n + 1);
      }
      if n: nat :| DiffersAt(a, b, n) {
        assert n > 0 && DiffersAt(a[1..], b[1..], n - 1);
      }
    }
  }

  lemma {:induction false} LessTotal(a: Bytes, b: Bytes)
    ensures a == b || Less(a, b) || Less(b, a)
    ensures !(Less(a, b) && Less(b, a)) && !Less(a, a)
  {
    if a != [] && b != [] && a[0] == b[0] {
      LessTotal(a[1..], b[1..]);
      assert a == [a[0]] + a[1..] && b == [b[0]] + b[1..];
    }
    if a != [] {
      LessTotal(a[1..], a[1..]);
    }
  }

  lemma {:induction false} LessTrans(a: Bytes, b: Bytes, c: Bytes)
    requires Less(a, b) && Less(b, c)
    ensures Less(a, c)
  {
    if a != [] && a[0] == b[0] == c[0] {
      LessTrans(a[1..], b[1..], c[1..]);
    }
  }

  lemma StartsWithFirst(s: Bytes, prefix: Bytes)
    requires prefix != []
    ensures StartsWith(s, prefix) <==> s != [] && s[0] == prefix[0] && StartsWith(s[1..], prefix[1..])
  {
    if |s| >= |prefix| {
      assert s[..|prefix|] == [s[0]] + s[1..][..|prefix| - 1] && prefix == [prefix[0]] + prefix[1..];
    }
  }

  /** Behind a string that is past a prefix nothing starts with the prefix any more. */
  lemma {:induction false} PastPrefix(prefix: Bytes, a: Bytes, b: Bytes)
    requires Less(prefix, a) && !StartsWith(a, prefix) && Less(a, b)
    ensures !StartsWith(b, prefix)
  {
    if prefix != [] {
      StartsWithFirst(a, prefix);
      StartsWithFirst(b, prefix);
      if a[0] == b[0] == prefix[0] {
        PastPrefix(prefix[1..], a[1..], b[1..]);
      }
    }
  }

  predicate Sorted(keys: seq<Bytes>) {
    forall i, j | 0 <= i < j < |keys| :: Less(keys[i], keys[j])
  }

  /** The keys of an ordered map in the order in which it is iterated. */
  ghost predicate InOrder(keys: seq<Bytes>, all: set<Bytes>) {
    Sorted(keys) && forall k :: k in keys <==> k in all
  }

  lemma SortedDistinct(keys: seq<Bytes>, i: nat, j: nat)
    requires Sorted(keys) && i < |keys| && j < |keys| && keys[i] == keys[j]
    ensures i == j
  {
    LessTotal(keys[i], keys[j]);
  }

  /** Walking the keys of a map one meets each of them once. */
  lemma KeyOf<T>(keys: seq<Bytes>, table: map<Bytes, T>, i: nat)
    requires InOrder(keys, table.Keys) && i < |keys|
    ensures keys[i] in table && keys[i] !in keys[..i]
  {
    assert keys[i] in keys;
    if keys[i] in keys[..i] {
      var j :| 0 <= j < i && keys[j] == keys[i];
      SortedDistinct(keys, j, i);
    }
  }

  lemma {:induction false} LeastExists(all: set<Bytes>) returns (least: Bytes)
    requires all != {}
    ensures least in all && forall k | k in all && k != least :: Less(least, k)
    decreases |all|
  {
    var some :| some in all;
    var rest := all - {some};
    if rest == {} {
      least := some;
      assert all == rest + {some} == {some};
    } else {
      var other := LeastExists(rest);
      LessTotal(some, other);
      if Less(some, other) {
        least := some;
        forall k | k in all && k != least ensures Less(least, k) {
          if k != other {
            LessTrans(some, other, k);
          }
        }
      } else {
        least := other;
      }
    }
  }

  /** Walk the keys of an ordered map, smallest first. */
  method SortKeys(all: set<Bytes>) returns (keys: seq<Bytes>)
    ensures InOrder(keys, all) && |keys| == |all|
  {
    keys := [];
    var rest := all;
    while rest != {}
      invariant rest <= all && |keys| + |rest| == |all|
      invariant Sorted(keys) && (forall k :: k in keys <==> k in all && k !in rest)
      invariant forall i, k | 0 <= i < |keys| && k in rest :: Less(keys[i], k)
      decreases |rest|
    {
      ghost var smallest := LeastExists(rest);
      OnlyLeast(rest, smallest);
      var least: Bytes :| least in rest && forall k | k in rest && k != least :: Less(least, k);
      keys := keys + [least];
      rest := rest - {least};
    }
  }

  lemma OnlyLeast(all: set<Bytes>, least: Bytes)
    requires least in all && forall k | k in all && k != least :: Less(least, k)
    ensures exists l | l in all :: forall k | k in all && k != l :: Less(l, k)
  {
  }

  /** There is only one order in which to list the keys. */
  lemma {:induction false} OneOrder(a: seq<Bytes>, b: seq<Bytes>, all: set<Bytes>)
    requires InOrder(a, all) && InOrder(b, all)
    ensures a == b
    decreases |a|
  {
    EmptyOrder(a, all);
    EmptyOrder(b, all);
    if a != [] {
      var n, m := |a| - 1, |b| - 1;
      assert a[n] in a && b[m] in b;
      var i :| 0 <= i < |a| && a[i] == b[m];
      var j :| 0 <= j < |b| && b[j] == a[n];
      LessTotal(a[n], b[m]);
      var rest := all - {a[n]};
      LastOut(a, all);
      LastOut(b, all);
      OneOrder(a[..n], b[..m], rest);
      assert a == a[..n] + [a[n]] && b == b[..m] + [b[m]];
    }
  }

  lemma {:induction false} OrderExists(all: set<Bytes>)
    ensures exists keys :: InOrder(keys, all)
    decreases |all|
  {
    if all == {} {
      assert InOrder([], all);
    } else {
      var least := LeastExists(all);
      OrderExists(all - {least});
      var rest :| InOrder(rest, all - {least});
      forall i | 0 <= i < |rest| ensures Less(least, rest[i]) {
        assert rest[i] in rest;
      }
      assert InOrder([least] + rest, all);
    }
  }

  /** The one order in which an ordered map with these keys is iterated. */
  ghost function Ordered(all: set<Bytes>): (keys: seq<Bytes>)
    ensures InOrder(keys, all)
  {
    OrderExists(all);
    var keys :| InOrder(keys, all);
    keys
  }

  lemma EmptyOrder(a: seq<Bytes>, all: set<Bytes>)
    requires InOrder(a, all)
    ensures a == [] <==> all == {}
  {
    if a != [] {
      assert a[0] in a;
    }
  }

  lemma LastOut(a: seq<Bytes>, all: set<Bytes>)
    requires InOrder(a, all) && a != []
    ensures InOrder(a[..|a| - 1], all - {a[|a| - 1]})
  {
    var n := |a| - 1;
    var front := a[..n];
    forall k ensures k in front <==> k in all && k != a[n] {
      if k in front {
        var i :| 0 <= i < n && front[i] == k;
        LessTotal(a[i], a[n]);
        assert a[i] in a;
      }
      if k in all && k != a[n] {
        var i :| 0 <= i < |a| && a[i] == k;
        assert front[i] == k;
      }
    }
  }
}
