/** What is done with the hits that were found: they are sorted, filtered once more, and cut to a limit. */
module ResultOrder {
  import opened Wrappers
  import opened Bytes
  import opened Files
  import opened SearchSpec
  import opened ByteOrder
  import opened LiteralSearch

  /** The requested order; attributes compare by their UTF-8 bytes. */
  datatype SearchSort = Unsorted | SizeAsc | SizeDesc | AttrAsc(utf8: string -> Bytes) | Reverse

  /** The first hit must come before the second. */
  predicate Before(sort: SearchSort, a: Hit, b: Hit) {
    match sort
    case SizeAsc => a.1.node.Size() < b.1.node.Size()
    case SizeDesc => a.1.node.Size() > b.1.node.Size()
    case AttrAsc(utf8) => Less(utf8(a.0.origin.attr), utf8(b.0.origin.attr))
    case _ => false
  }

  lemma BeforeIsOrder(sort: SearchSort, a: Hit, b: Hit, c: Hit)
    ensures !(Before(sort, a, b) && Before(sort, b, a))
    ensures Before(sort, a, c) ==> Before(sort, a, b) || Before(sort, b, c)
  {
    if sort.AttrAsc? {
      var x, y, z := sort.utf8(a.0.origin.attr), sort.utf8(b.0.origin.attr), sort.utf8(c.0.origin.attr);
      LessTotal(x, y);
      LessTotal(y, z);
      if Less(x, z) && Less(y, x) {
        LessTrans(y, x, z);
      }
    }
  }

  /** Put a hit in front of those at the end that must come after it. */
  function Insert(sort: SearchSort, hits: seq<Hit>, h: Hit): seq<Hit> {
    if hits == [] then [h]
    else
      var n := |hits| - 1;
      if Before(sort, h, hits[n]) then Insert(sort, hits[..n], h) + [hits[n]] else hits + [h]
  }

  function Reversed(hits: seq<Hit>): seq<Hit> {
    if hits == [] then [] else [hits[|hits| - 1]] + Reversed(hits[..|hits| - 1])
  }

  /** The stable sort by size or attribute, or the reverse, or the hits as they are. */
  function Arranged(sort: SearchSort, hits: seq<Hit>): seq<Hit> {
    if sort.Reverse? then Reversed(hits) else StableSort(sort, hits)
  }

  function StableSort(sort: SearchSort, hits: seq<Hit>): seq<Hit> {
    if hits == [] then [] else Insert(sort, StableSort(sort, hits[..|hits| - 1]), hits[|hits| - 1])
  }

  /** No hit stands behind one that must come after it. */
  ghost predicate InSortOrder(sort: SearchSort, hits: seq<Hit>) {
    forall i, j | 0 <= i < j < |hits| :: !Before(sort, hits[j], hits[i])
  }

  lemma {:induction false} InsertFacts(sort: SearchSort, hits: seq<Hit>, h: Hit)
    requires InSortOrder(sort, hits)
    ensures InSortOrder(sort, Insert(sort, hits, h)) && multiset(Insert(sort, hits, h)) == multiset(hits) + multiset{h}
  {
    hide Before, InSortOrder;
    if hits == [] {
      OneInOrder(sort, h);
    } else {
      var n := |hits| - 1;
      var last := hits[n];
      assert hits == hits[..n] + [last];
      PrefixInOrder(sort, hits, n);
      if Before(sort, h, last) {
        InsertFacts(sort, hits[..n], h);
        LastBehind(sort, hits[..n], h, last, Insert(sort, hits[..n], h)) by { LastFacts(sort, hits); }
      } else {
        NothingAfter(sort, hits, h);
        AppendInOrder(sort, hits, h);
      }
    }
  }

  lemma OneInOrder(sort: SearchSort, h: Hit)
    ensures InSortOrder(sort, [h])
  {
    hide Before;
  }

  lemma LastFacts(sort: SearchSort, hits: seq<Hit>)
    requires InSortOrder(sort, hits) && hits != []
    ensures var front, last := hits[..|hits| - 1], hits[|hits| - 1];
            forall x | x in front :: !Before(sort, last, x)
  {
    hide Before;
  }

  lemma AppendInOrder(sort: SearchSort, hits: seq<Hit>, h: Hit)
    requires InSortOrder(sort, hits) && forall i | 0 <= i < |hits| :: !Before(sort, h, hits[i])
    ensures InSortOrder(sort, hits + [h])
  {
    hide Before;
  }

  /** A hit that comes after the one inserted, and not before any other, still stands last. */
  lemma LastBehind(sort: SearchSort, hits: seq<Hit>, h: Hit, last: Hit, longer: seq<Hit>)
    requires InSortOrder(sort, longer) && multiset(longer) == multiset(hits) + multiset{h}
    requires Before(sort, h, last) && forall x | x in hits :: !Before(sort, last, x)
    ensures InSortOrder(sort, longer + [last])
  {
    hide Before, InSortOrder;
    BeforeIsOrder(sort, h, last, h);
    forall i | 0 <= i < |longer| ensures !Before(sort, last, longer[i]) {
      assert longer[i] in multiset(longer);
      assert longer[i] == h || longer[i] in hits;
    }
    AppendInOrder(sort, longer, last);
  }

  /** When the last hit need not come after another, none of them need. */
  lemma NothingAfter(sort: SearchSort, hits: seq<Hit>, h: Hit)
    requires InSortOrder(sort, hits) && hits != [] && !Before(sort, h, hits[|hits| - 1])
    ensures forall i | 0 <= i < |hits| :: !Before(sort, h, hits[i])
  {
    hide Before;
    var n := |hits| - 1;
    forall i | 0 <= i < |hits| ensures !Before(sort, h, hits[i]) {
      BeforeIsOrder(sort, h, hits[n], hits[i]);
    }
  }

  lemma {:induction false} SortFacts(sort: SearchSort, hits: seq<Hit>)
    ensures InSortOrder(sort, StableSort(sort, hits)) && multiset(StableSort(sort, hits)) == multiset(hits)
  {
    if hits != [] {
      var n := |hits| - 1;
      SortFacts(sort, hits[..n]);
      InsertFacts(sort, StableSort(sort, hits[..n]), hits[n]);
      assert hits == hits[..n] + [hits[n]];
    }
  }

  lemma {:induction false} ReversedFacts(hits: seq<Hit>)
    ensures multiset(Reversed(hits)) == multiset(hits) && |Reversed(hits)| == |hits|
    ensures forall i | 0 <= i < |hits| :: Reversed(hits)[i] == hits[|hits| - 1 - i]
    decreases |hits|
  {
    if hits != [] {
      var n := |hits| - 1;
      ReversedFacts(hits[..n]);
      assert hits == hits[..n] + [hits[n]];
    }
  }

  /** Whatever the order, it is the same hits, and they are in that order. */
  lemma ArrangedFacts(sort: SearchSort, hits: seq<Hit>)
    ensures multiset(Arranged(sort, hits)) == multiset(hits) && |Arranged(sort, hits)| == |hits|
    ensures InSortOrder(sort, Arranged(sort, hits))
  {
    hide StableSort, Reversed, InSortOrder;
    SortFacts(sort, hits);
    ReversedFacts(hits);
    SameLength(StableSort(sort, hits), hits);
    if sort.Reverse? {
      NothingIsOrdered(sort, Reversed(hits));
    }
  }

  lemma NothingIsOrdered(sort: SearchSort, hits: seq<Hit>)
    requires sort.Reverse?
    ensures InSortOrder(sort, hits)
  {
  }

  lemma SameLength(a: seq<Hit>, b: seq<Hit>)
    requires multiset(a) == multiset(b)
    ensures |a| == |b|
  {
    assert |multiset(a)| == |a| && |multiset(b)| == |b|;
  }

  /** Hits none of which must come before another keep their order. */
  lemma {:induction false} NothingToSort(sort: SearchSort, hits: seq<Hit>)
    requires forall a, b | a in hits && b in hits :: !Before(sort, a, b)
    ensures StableSort(sort, hits) == hits
  {
    hide Before;
    if hits != [] {
      var n := |hits| - 1;
      assert hits == hits[..n] + [hits[n]] && hits[n] in hits;
      NothingToSort(sort, hits[..n]);
      if hits[..n] != [] {
        assert hits[..n][n - 1] in hits;
      }
    }
  }

  // ---------- sorting and filtering ----------

  lemma {:induction false} PassingInsert(sort: SearchSort, hits: seq<Hit>, h: Hit, keep: Hit -> bool)
    requires InSortOrder(sort, hits)
    ensures Passing(Insert(sort, hits, h), keep) ==
            if keep(h) then Insert(sort, Passing(hits, keep), h) else Passing(hits, keep)
  {
    hide Before, InSortOrder, Insert, Passing;
    if hits == [] {
      PassingInsertNone(sort, h, keep);
      assert hits == [];
    } else {
      var n := |hits| - 1;
      var last := hits[n];
      if Before(sort, h, last) {
        PrefixInOrder(sort, hits, n);
        PassingInsert(sort, hits[..n], h, keep);
        assert hits == hits[..n] + [last];
        PassingInsertFront(sort, hits[..n], h, last, keep);
      } else {
        PassingInsertLast(sort, hits, h, keep);
      }
    }
  }

  lemma PassingInsertFront(sort: SearchSort, hits: seq<Hit>, h: Hit, last: Hit, keep: Hit -> bool)
    requires Before(sort, h, last)
    requires Passing(Insert(sort, hits, h), keep) ==
             if keep(h) then Insert(sort, Passing(hits, keep), h) else Passing(hits, keep)
    ensures Passing(Insert(sort, hits + [last], h), keep) ==
            if keep(h) then Insert(sort, Passing(hits + [last], keep), h) else Passing(hits + [last], keep)
  {
    hide *;
    PassingNext(Insert(sort, hits, h), last, keep);
    PassingNext(hits, last, keep);
    InsertBefore(sort, hits, h, last);
    InsertBefore(sort, Passing(hits, keep), h, last);
  }

  lemma PassingInsertLast(sort: SearchSort, hits: seq<Hit>, h: Hit, keep: Hit -> bool)
    requires InSortOrder(sort, hits) && hits != [] && !Before(sort, h, hits[|hits| - 1])
    ensures Passing(Insert(sort, hits, h), keep) ==
            if keep(h) then Insert(sort, Passing(hits, keep), h) else Passing(hits, keep)
  {
    hide Before, InSortOrder, Passing;
    NothingAfter(sort, hits, h);
    PassingNext(hits, h, keep);
    InsertLast(sort, hits, h, keep);
  }

  lemma PassingInsertNone(sort: SearchSort, h: Hit, keep: Hit -> bool)
    ensures Passing(Insert(sort, [], h), keep) == if keep(h) then Insert(sort, Passing([], keep), h) else Passing([], keep)
  {
    PassingOne([h], keep);
  }

  lemma PassingNext(hits: seq<Hit>, h: Hit, keep: Hit -> bool)
    ensures Passing(hits + [h], keep) == if keep(h) then Passing(hits, keep) + [h] else Passing(hits, keep)
  {
    assert (hits + [h])[..|hits|] == hits;
    assert Passing(hits, keep) + [] == Passing(hits, keep);
  }

  lemma InsertBefore(sort: SearchSort, hits: seq<Hit>, h: Hit, last: Hit)
    requires Before(sort, h, last)
    ensures Insert(sort, hits + [last], h) == Insert(sort, hits, h) + [last]
  {
    assert (hits + [last])[..|hits|] == hits;
  }

  lemma InsertLast(sort: SearchSort, hits: seq<Hit>, h: Hit, keep: Hit -> bool)
    requires forall i | 0 <= i < |hits| :: !Before(sort, h, hits[i])
    ensures Insert(sort, Passing(hits, keep), h) == Passing(hits, keep) + [h]
  {
    hide Before, Passing;
    PassingWithin(hits, keep);
    var kept := Passing(hits, keep);
    if kept != [] {
      assert kept[|kept| - 1] in kept;
      var i :| 0 <= i < |hits| && hits[i] == kept[|kept| - 1];
    }
  }

  lemma SortNext(sort: SearchSort, hits: seq<Hit>, h: Hit)
    ensures StableSort(sort, hits + [h]) == Insert(sort, StableSort(sort, hits), h)
    ensures Reversed(hits + [h]) == [h] + Reversed(hits)
  {
    assert (hits + [h])[..|hits|] == hits;
  }

  lemma {:induction false} PassingWithin(hits: seq<Hit>, keep: Hit -> bool)
    ensures forall h | h in Passing(hits, keep) :: h in hits && keep(h)
  {
    if hits != [] {
      PassingWithin(hits[..|hits| - 1], keep);
    }
  }

  lemma {:induction false} PassingSorted(sort: SearchSort, hits: seq<Hit>, keep: Hit -> bool)
    ensures Passing(StableSort(sort, hits), keep) == StableSort(sort, Passing(hits, keep))
  {
    hide Before, InSortOrder, Insert;
    if hits != [] {
      var n := |hits| - 1;
      SortFacts(sort, hits[..n]);
      PassingSorted(sort, hits[..n], keep);
      PassingNext(hits[..n], hits[n], keep);
      assert hits == hits[..n] + [hits[n]];
      PassingInsert(sort, StableSort(sort, hits[..n]), hits[n], keep);
      SortNext(sort, Passing(hits[..n], keep), hits[n]);
    }
  }

  lemma {:induction false} PassingReversed(hits: seq<Hit>, keep: Hit -> bool)
    ensures Passing(Reversed(hits), keep) == Reversed(Passing(hits, keep))
  {
    if hits != [] {
      var n := |hits| - 1;
      PassingReversed(hits[..n], keep);
      PassingNext(hits[..n], hits[n], keep);
      assert hits == hits[..n] + [hits[n]];
      PassingConcat([hits[n]], Reversed(hits[..n]), keep);
      PassingOne([hits[n]], keep);
      SortNext(SearchSort.Reverse, Passing(hits[..n], keep), hits[n]);
    }
  }

  /** It does not matter whether one sorts first or filters first. */
  lemma PassingArranged(sort: SearchSort, hits: seq<Hit>, keep: Hit -> bool)
    ensures Passing(Arranged(sort, hits), keep) == Arranged(sort, Passing(hits, keep))
  {
    PassingSorted(sort, hits, keep);
    PassingReversed(hits, keep);
  }

  /** The sort is stable: hits none of which must come before another keep their order. */
  lemma ArrangedIsStable(sort: SearchSort, hits: seq<Hit>, keep: Hit -> bool)
    requires !sort.Reverse? && forall a, b | keep(a) && keep(b) :: !Before(sort, a, b)
    ensures Passing(Arranged(sort, hits), keep) == Passing(hits, keep)
  {
    PassingSorted(sort, hits, keep);
    PassingWithin(hits, keep);
    NothingToSort(sort, Passing(hits, keep));
  }

  // ---------- the order, said of sizes and bytes ----------

  /** The first node is not larger than the second; a link counts as nothing. */
  predicate NotLarger(a: FileNode, b: FileNode) {
    match a
    case Symlink(_) => true
    case Regular(size, _) => HoldsAtLeast(b, size)
    case Directory(size) => HoldsAtLeast(b, size)
  }

  /** The first hit may stand in front of the second. */
  ghost predicate MayPrecede(sort: SearchSort, a: Hit, b: Hit) {
    match sort
    case SizeAsc => NotLarger(a.1.node, b.1.node)
    case SizeDesc => NotLarger(b.1.node, a.1.node)
    case AttrAsc(utf8) => !exists n: nat :: DiffersAt(utf8(b.0.origin.attr), utf8(a.0.origin.attr), n)
    case Unsorted => true
    case Reverse => true
  }

  lemma MayPrecedeIs(sort: SearchSort, a: Hit, b: Hit)
    ensures MayPrecede(sort, a, b) <==> !Before(sort, b, a)
  {
    if sort.AttrAsc? {
      LessMeans(sort.utf8(b.0.origin.attr), sort.utf8(a.0.origin.attr));
      hide Less, DiffersAt;
    }
  }

  /** Neither hit must stand in front of the other. */
  ghost predicate Alike(sort: SearchSort, a: Hit, b: Hit) {
    MayPrecede(sort, a, b) && MayPrecede(sort, b, a)
  }

  /** Every hit may precede all that stand behind it. */
  ghost predicate InPlace(sort: SearchSort, hits: seq<Hit>) {
    forall i, j | 0 <= i < j < |hits| :: MayPrecede(sort, hits[i], hits[j])
  }

  ghost function AllAlike(sort: SearchSort, hits: seq<Hit>, one: Hit): seq<Hit> {
    Passing(hits, h => Alike(sort, one, h))
  }

  /** The same hits as they are, backwards, or in the order of the sort, which leaves like hits as they were. */
  ghost predicate IsArranged(sort: SearchSort, hits: seq<Hit>, arranged: seq<Hit>) {
    && multiset(arranged) == multiset(hits) && |arranged| == |hits|
    && (sort.Unsorted? ==> arranged == hits)
    && (sort.Reverse? ==> forall i | 0 <= i < |hits| :: arranged[i] == hits[|hits| - 1 - i])
    && (!sort.Reverse? ==>
          && InPlace(sort, arranged)
          && forall one: Hit :: AllAlike(sort, arranged, one) == AllAlike(sort, hits, one))
  }

  lemma ArrangedMeans(sort: SearchSort, hits: seq<Hit>)
    ensures IsArranged(sort, hits, Arranged(sort, hits))
  {
    hide Before, MayPrecede, Insert;
    ArrangedFacts(sort, hits);
    var arranged := Arranged(sort, hits);
    if sort.Reverse? {
      ReversedFacts(hits);
    } else {
      forall i, j | 0 <= i < j < |arranged| ensures MayPrecede(sort, arranged[i], arranged[j]) {
        MayPrecedeIs(sort, arranged[i], arranged[j]);
      }
      forall one: Hit ensures AllAlike(sort, arranged, one) == AllAlike(sort, hits, one) {
        AlikeStay(sort, hits, one);
      }
    }
    if sort.Unsorted? {
      NothingBefore(sort, hits);
    }
  }

  lemma NothingBefore(sort: SearchSort, hits: seq<Hit>)
    requires sort.Unsorted?
    ensures Arranged(sort, hits) == hits
  {
    NothingToSort(sort, hits);
  }

  lemma AlikeStay(sort: SearchSort, hits: seq<Hit>, one: Hit)
    requires !sort.Reverse?
    ensures AllAlike(sort, Arranged(sort, hits), one) == AllAlike(sort, hits, one)
  {
    hide Before, MayPrecede, Insert;
    var keep := (h: Hit) => !Before(sort, one, h) && !Before(sort, h, one);
    forall a, b | keep(a) && keep(b) ensures !Before(sort, a, b) {
      BeforeIsOrder(sort, a, one, b);
    }
    ArrangedIsStable(sort, hits, keep);
    forall h ensures keep(h) <==> Alike(sort, one, h) {
      MayPrecedeIs(sort, one, h);
      MayPrecedeIs(sort, h, one);
    }
    PassingAlike(Arranged(sort, hits), keep, h => Alike(sort, one, h));
    PassingAlike(hits, keep, h => Alike(sort, one, h));
  }

  /** The hits arranged as asked, and of these the first ones up to the limit. */
  ghost predicate IsPresented(sort: SearchSort, limit: Option<nat>, hits: seq<Hit>, shown: seq<Hit>) {
    exists all :: IsArranged(sort, hits, all) && shown == if limit.Some? && limit.value < |all| then all[..limit.value] else all
  }

  lemma PresentedIs(sort: SearchSort, limit: Option<nat>, hits: seq<Hit>)
    ensures IsPresented(sort, limit, hits, Cut(Arranged(sort, hits), limit))
  {
    ArrangedMeans(sort, hits);
  }

  /** Such hits are in order, and no hit left out belongs strictly in front of one of them. */
  lemma PresentedFirst(sort: SearchSort, limit: Option<nat>, hits: seq<Hit>, shown: seq<Hit>)
    requires IsPresented(sort, limit, hits, shown)
    ensures InPlace(sort, shown)
    ensures multiset(shown) <= multiset(hits) && (limit.None? ==> multiset(shown) == multiset(hits))
    ensures forall a, b | a in shown && b in multiset(hits) - multiset(shown) :: MayPrecede(sort, a, b)
  {
    hide MayPrecede, AllAlike, IsArranged;
    var all :| IsArranged(sort, hits, all) && shown == if limit.Some? && limit.value < |all| then all[..limit.value] else all;
    ArrangedInOrder(sort, hits, all);
    assert shown == all[..|shown|];
    FirstOnes(sort, all, |shown|);
    assert all[..|all|] == all;
  }

  lemma FirstOnes(sort: SearchSort, all: seq<Hit>, n: nat)
    requires InPlace(sort, all) && n <= |all|
    ensures InPlace(sort, all[..n]) && multiset(all[..n]) <= multiset(all)
    ensures forall a, b | a in all[..n] && b in multiset(all) - multiset(all[..n]) :: MayPrecede(sort, a, b)
  {
    hide MayPrecede;
    LeftOut(all, n);
    forall a, b | a in all[..n] && b in all[n..] ensures MayPrecede(sort, a, b) {
      Apart(sort, all, n, a, b);
    }
  }

  lemma Apart(sort: SearchSort, all: seq<Hit>, n: nat, a: Hit, b: Hit)
    requires InPlace(sort, all) && n <= |all| && a in all[..n] && b in all[n..]
    ensures MayPrecede(sort, a, b)
  {
    hide MayPrecede;
    var i :| 0 <= i < n && all[..n][i] == a;
    var j :| 0 <= j < |all| - n && all[n..][j] == b;
    assert all[i] == a && all[n + j] == b;
  }

  lemma ArrangedInOrder(sort: SearchSort, hits: seq<Hit>, all: seq<Hit>)
    requires IsArranged(sort, hits, all)
    ensures multiset(all) == multiset(hits) && InPlace(sort, all)
  {
    hide AllAlike;
  }

  lemma LeftOut(all: seq<Hit>, n: nat)
    requires n <= |all|
    ensures multiset(all[..n]) <= multiset(all) && multiset(all) - multiset(all[..n]) == multiset(all[n..])
    ensures forall h :: h in multiset(all[n..]) <==> h in all[n..]
  {
    assert all == all[..n] + all[n..];
  }

  // ---------- presenting ----------

  /** Keep the hits that are shown. */
  method FilterShown(hits: seq<Hit>, o: Options) returns (shown: seq<Hit>)
    ensures shown == Passing(hits, h => ShouldInclude(o, h)) == Passing(hits, h => MeetsOptions(o, h))
  {
    MeetsAlike(hits, o);
    ghost var keep := (h: Hit) => ShouldInclude(o, h);
    shown := [];
    assert hits[..0] == [];
    hide ShouldInclude;
    for i := 0 to |hits|
      invariant shown == Passing(hits[..i], keep)
    {
      assert hits[..i + 1][..i] == hits[..i];
      if ShouldInclude(o, hits[i]) {
        shown := shown + [hits[i]];
      } else {
        assert shown + [] == shown;
      }
    }
    assert hits[..|hits|] == hits;
  }

  lemma MeetsAlike(hits: seq<Hit>, o: Options)
    ensures Passing(hits, h => ShouldInclude(o, h)) == Passing(hits, h => MeetsOptions(o, h))
  {
    forall h ensures ShouldInclude(o, h) <==> MeetsOptions(o, h) {
      ShownMeets(o, h);
    }
    hide ShouldInclude, MeetsOptions;
    PassingAlike(hits, h => ShouldInclude(o, h), h => MeetsOptions(o, h));
  }

  /** The end of a search: the hits are sorted, then filtered, then cut. */
  method Present(results: seq<Hit>, o: Options, sort: SearchSort, limit: Option<nat>) returns (shown: seq<Hit>)
    ensures shown == Cut(Arranged(sort, Passing(results, h => ShouldInclude(o, h))), limit)
    ensures IsPresented(sort, limit, Passing(results, h => MeetsOptions(o, h)), shown)
  {
    MeetsAlike(results, o);
    PresentedIs(sort, limit, Passing(results, h => ShouldInclude(o, h)));
    hide IsPresented, Arranged, Passing, ShouldInclude, MeetsOptions;
    var filtered := FilterShown(Arranged(sort, results), o);
    PassingArranged(sort, results, h => ShouldInclude(o, h));
    return Cut(filtered, limit);
  }

  /** The shown hits in the requested order, up to the limit; their order before sorting is left open. */
  ghost predicate Presents(results: seq<Hit>, shown: seq<Hit>, sort: SearchSort, limit: Option<nat>) {
    exists all :: multiset(all) == multiset(shown) && results == Cut(Arranged(sort, all), limit)
  }

  /** Such results are in order, none of them is made up, and only the limit leaves any out. */
  lemma PresentsMeans(results: seq<Hit>, shown: seq<Hit>, sort: SearchSort, limit: Option<nat>)
    requires Presents(results, shown, sort, limit)
    ensures InSortOrder(sort, results) && multiset(results) <= multiset(shown)
    ensures |results| == if limit.Some? && limit.value < |shown| then limit.value else |shown|
    ensures limit.None? || |shown| <= limit.value ==> multiset(results) == multiset(shown)
  {
    hide Arranged, InSortOrder;
    var all :| multiset(all) == multiset(shown) && results == Cut(Arranged(sort, all), limit);
    ArrangedFacts(sort, all);
    assert |multiset(all)| == |all| && |multiset(shown)| == |shown|;
    var arranged := Arranged(sort, all);
    assert results == arranged[..|results|] && arranged == arranged[..|results|] + arranged[|results|..];
    PrefixInOrder(sort, arranged, |results|);
  }

  lemma PrefixInOrder(sort: SearchSort, hits: seq<Hit>, n: nat)
    requires InSortOrder(sort, hits) && n <= |hits|
    ensures InSortOrder(sort, hits[..n])
  {
    hide Before;
  }
}
