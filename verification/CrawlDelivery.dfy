/** What a complete crawl delivers for each hash, said of the input and the fetches alone. */
module CrawlDelivery {
  import opened Wrappers
  import opened Bytes
  import opened Files
  import opened StorePaths
  import opened CrawlModel
  import opened CrawlContent
  import opened CrawlTheorems

  // ---------- the input and the fetches ----------

  /** Input entry `n` is the first with this hash. */
  ghost predicate ComesFirst(w: World, h: Hash, n: nat) {
    n < |w.input| && w.input[n].path.hash == h && forall k | 0 <= k < n :: w.input[k].path.hash != h
  }

  /** Input entry `n` is the first with this hash that names a main program, and it names this one. */
  ghost predicate NamesFirst(w: World, h: Hash, name: Bytes, n: nat) {
    && n < |w.input| && w.input[n].path.hash == h && w.input[n].mainProgram == Some(name)
    && forall k | 0 <= k < n && w.input[k].path.hash == h :: w.input[k].mainProgram.None?
  }

  /** A file name: neither empty nor one or two dots, without a slash, a backslash or a zero byte. */
  predicate PlainName(name: Bytes) {
    && |name| > 0 && !(|name| == 1 && name[0] == 46) && !(|name| == 2 && name[0] == 46 && name[1] == 46)
    && forall i | 0 <= i < |name| :: name[i] != 47 && name[i] != 92 && name[i] != 0
  }

  /** The main program of a hash, when one is named and it is a file name. */
  ghost predicate HasProgram(w: World, h: Hash, name: Bytes) {
    PlainName(name) && exists n: nat :: NamesFirst(w, h, name, n)
  }

  /** The listing of the path is asked for, and this comes of it. */
  ghost predicate ListingIs(w: World, h: Hash, fetched: Fetched<FileTree>) {
    (w.shallow || w.narinfo(h).Fetched?) && w.listing(h) == fetched
  }

  /** The cache does not have the path, or has no listing of it. */
  ghost predicate IsMissing(w: World, h: Hash) {
    (!w.shallow && w.narinfo(h).NotFound?) || ListingIs(w, h, NotFound)
  }

  ghost predicate IsBroken(w: World, h: Hash) {
    (!w.shallow && w.narinfo(h).Failed?) || ListingIs(w, h, Fetched.Failed)
  }

  /** A tree of nothing but `/bin/<name>`, an executable of size 0. */
  ghost predicate OnlyProgram(tree: FileTree, name: Bytes) {
    Listing([], tree) == [FileTreeEntry([], Directory(1)), FileTreeEntry([47, 98, 105, 110], Directory(1)),
                          FileTreeEntry([47, 98, 105, 110, 47] + name, Regular(0, true))]
  }

  // ---------- what is received ----------

  /** The item is received once, and nothing else under its hash. */
  ghost predicate ReceivesOnce(received: seq<ListingItem>, item: ListingItem) {
    && multiset(received)[item] == 1
    && forall other | other in received && other.path.hash == item.path.hash :: other == item
  }

  ghost predicate ReceivesNothing(received: seq<ListingItem>, h: Hash) {
    forall item | item in received :: item.path.hash != h
  }

  /** The path of a hash is that of its first input entry, or a reference of a hash that was seen. */
  ghost predicate PathOf(w: World, s: State, path: StorePath) {
    && (forall n: nat | ComesFirst(w, path.hash, n) :: path == w.input[n].path)
    && ((forall k | 0 <= k < |w.input| :: w.input[k].path.hash != path.hash) ==>
          !w.shallow && exists g :: g in s.seen && w.narinfo(g).Fetched? && path in w.narinfo(g).value)
  }

  // ---------- the specification of the crawl, said in these terms ----------

  lemma {:induction false} FirstMainIs(w: World, input: seq<PackageEntry>, h: Hash)
    requires input <= w.input
    ensures FirstMain(input, h).None? ==> forall k | 0 <= k < |input| && w.input[k].path.hash == h :: w.input[k].mainProgram.None?
    ensures FirstMain(input, h).Some? ==> exists n: nat :: n < |input| && NamesFirst(w, h, FirstMain(input, h).value, n)
    decreases |input|
  {
    if input != [] {
      var n := |input| - 1;
      FirstMainIs(w, input[..n], h);
      assert input[n] == w.input[n];
      if FirstMain(input[..n], h).None? && FirstMain(input, h).Some? {
        assert NamesFirst(w, h, FirstMain(input, h).value, n);
      }
    }
  }

  lemma MainProgramIs(w: World, h: Hash)
    ensures match MainProgramOf(w, h)
            case Some(name) => HasProgram(w, h, name)
            case None => forall name :: !HasProgram(w, h, name)
    ensures forall a, b | HasProgram(w, h, a) && HasProgram(w, h, b) :: a == b
  {
    FirstMainIs(w, w.input, h);
    var main := FirstMain(w.input, h);
    if main.Some? {
      ValidIsPlain(main.value);
      var n: nat :| n < |w.input| && NamesFirst(w, h, main.value, n);
    }
    forall name, m | NamesFirst(w, h, name, m) ensures main == Some(name) {
      if main.Some? {
        var n: nat :| n < |w.input| && NamesFirst(w, h, main.value, n);
        OneFirst(w, h, name, m, main.value, n);
      }
    }
  }

  lemma OneFirst(w: World, h: Hash, a: Bytes, m: nat, b: Bytes, n: nat)
    requires NamesFirst(w, h, a, m) && NamesFirst(w, h, b, n)
    ensures a == b
  {
  }

  lemma ValidIsPlain(name: Bytes)
    ensures IsValidMainProgram(name) <==> PlainName(name)
  {
  }

  lemma SynthesizedIs(name: Bytes)
    ensures OnlyProgram(Synthesize(name), name)
  {
    var bin := DirectoryTree(1, [(BIN, DirectoryTree(1, [(name, RegularTree(0, true))]))]).contents[0].1;
    var binPath: Bytes := [47, 98, 105, 110];
    assert ChildPath([], BIN) == binPath && ChildPath(binPath, name) == [47, 98, 105, 110, 47] + name;
    assert Listing(binPath + [47] + name, RegularTree(0, true)) == [FileTreeEntry([47, 98, 105, 110, 47] + name, Regular(0, true))];
    assert ListingOf(binPath, bin, 1) == ListingOf(binPath, bin, 0) + Listing(ChildPath(binPath, name), RegularTree(0, true));
    assert ListingOf([], Synthesize(name), 1) == ListingOf([], Synthesize(name), 0) + Listing(binPath, bin);
  }

  /** What the outcome of a path is. */
  lemma OutcomeIs(w: World, path: StorePath)
    ensures var h, outcome := path.hash, Outcome(w, path);
            && (forall tree | ListingIs(w, h, Fetched.Fetched(tree)) :: outcome == Some(ListingItem(path, tree)))
            && (IsBroken(w, h) ==> outcome.None?)
            && (IsMissing(w, h) ==> forall name | HasProgram(w, h, name) ::
                 outcome.Some? && outcome.value.path == path && OnlyProgram(outcome.value.tree, name))
            && (IsMissing(w, h) && (forall name :: !HasProgram(w, h, name)) ==> outcome.None?)
  {
    MainProgramIs(w, path.hash);
    var mp := MainProgramOf(w, path.hash);
    if mp.Some? {
      SynthesizedIs(mp.value);
    }
    hide OnlyProgram, HasProgram, MainProgramOf, Synthesize;
  }

  lemma {:induction false} FirstEntryIs(w: World, input: seq<PackageEntry>, h: Hash)
    requires input <= w.input
    ensures FirstEntry(input, h).None? ==> forall k | 0 <= k < |input| :: w.input[k].path.hash != h
    ensures FirstEntry(input, h).Some? ==> exists n: nat :: n < |input| && ComesFirst(w, h, n) && w.input[n] == FirstEntry(input, h).value
    decreases |input|
  {
    if input != [] {
      var n := |input| - 1;
      FirstEntryIs(w, input[..n], h);
      assert input[n] == w.input[n];
      if FirstEntry(input[..n], h).None? && FirstEntry(input, h).Some? {
        assert ComesFirst(w, h, n);
      }
    }
  }

  lemma EntryPath(w: World, s: State, entry: PackageEntry)
    requires EntryRight(w, s.seen, entry)
    ensures PathOf(w, s, entry.path)
  {
    var h := entry.path.hash;
    FirstEntryIs(w, w.input, h);
    if FirstEntry(w.input, h).Some? {
      var n: nat :| n < |w.input| && ComesFirst(w, h, n) && w.input[n] == entry;
      assert w.input[n].path.hash == h;
    } else {
      var g :| g in s.seen && entry.path in Refs(w, g);
      assert w.narinfo(g).Fetched? && entry.path in w.narinfo(g).value;
    }
  }

  /** The entry of a hash at the end of a run. */
  lemma EntryAtEnd(w: World, steps: seq<Step>, h: Hash) returns (i: nat)
    requires Legal(w, Init(w), steps) && Quiet(w, Run(w, Init(w), steps)) && h in Run(w, Init(w), steps).seen
    ensures var s := Run(w, Init(w), steps);
            i < |s.workers| && s.workers[i].entry.path.hash == h && PathOf(w, s, s.workers[i].entry.path)
  {
    var s := Run(w, Init(w), steps);
    CompleteRunDelivers(w, steps);
    InitInvariant(w);
    RunInvariant(w, Init(w), steps);
    i :| 0 <= i < |s.workers| && s.workers[i].entry.path.hash == h;
    assert WorkerRight(w, s.seen, s.workers[i]);
    EntryPath(w, s, s.workers[i].entry);
  }

  /** Of the items of one hash only the outcome of its own path can be received. */
  lemma OnlyOutcome(w: World, s: State, i: nat)
    requires OneWorkerEach(s) && i < |s.workers|
    requires forall item :: multiset(s.received)[item]
               == if exists j | 0 <= j < |s.workers| :: Outcome(w, s.workers[j].entry.path) == Some(item) then 1 else 0
    ensures var path := s.workers[i].entry.path; var outcome := Outcome(w, path);
            if outcome.Some? then ReceivesOnce(s.received, outcome.value) && outcome.value.path == path
            else ReceivesNothing(s.received, path.hash)
  {
    var path := s.workers[i].entry.path;
    OutcomePath(w, path);
    hide Outcome;
    forall item | item in s.received && item.path.hash == path.hash ensures Outcome(w, path) == Some(item) {
      assert multiset(s.received)[item] > 0;
      var j :| 0 <= j < |s.workers| && Outcome(w, s.workers[j].entry.path) == Some(item);
      OutcomePath(w, s.workers[j].entry.path);
      assert i == j;
    }
  }

  lemma OutcomePath(w: World, path: StorePath)
    ensures Outcome(w, path).Some? ==> Outcome(w, path).value.path == path
  {
  }

  /**
   * What a complete run delivers for a hash: the tree that the cache lists; for a path that is missing there a
   * tree with its main program, if a file name is the first that the input names; otherwise nothing.
   */
  lemma CrawlDelivers(w: World, steps: seq<Step>, h: Hash) returns (path: StorePath)
    requires Legal(w, Init(w), steps) && Quiet(w, Run(w, Init(w), steps)) && h in Run(w, Init(w), steps).seen
    ensures path.hash == h && PathOf(w, Run(w, Init(w), steps), path)
    ensures var received := Run(w, Init(w), steps).received;
            && (forall tree | ListingIs(w, h, Fetched.Fetched(tree)) :: ReceivesOnce(received, ListingItem(path, tree)))
            && (IsMissing(w, h) ==> forall name | HasProgram(w, h, name) ::
                  exists tree :: OnlyProgram(tree, name) && ReceivesOnce(received, ListingItem(path, tree)))
            && (IsMissing(w, h) && (forall name :: !HasProgram(w, h, name)) ==> ReceivesNothing(received, h))
            && (IsBroken(w, h) ==> ReceivesNothing(received, h))
  {
    var s := Run(w, Init(w), steps);
    CompleteRunDelivers(w, steps);
    var i := EntryAtEnd(w, steps, h);
    path := s.workers[i].entry.path;
    OnlyOutcome(w, s, i);
    OutcomeIs(w, path);
    hide Outcome, ListingIs, IsMissing, IsBroken, HasProgram, OnlyProgram, ReceivesOnce, ReceivesNothing, PathOf, Run, Legal, Quiet;
    forall name | IsMissing(w, h) && HasProgram(w, h, name)
      ensures exists tree :: OnlyProgram(tree, name) && ReceivesOnce(s.received, ListingItem(path, tree))
    {
      var item := Outcome(w, path).value;
      assert item == ListingItem(path, item.tree);
      assert OnlyProgram(item.tree, name) && ReceivesOnce(s.received, ListingItem(path, item.tree));
    }
  }

  /** Only hashes of the closure deliver anything, and exactly those of the closure have been seen. */
  lemma NothingElseDelivered(w: World, steps: seq<Step>)
    requires Legal(w, Init(w), steps) && Quiet(w, Run(w, Init(w), steps))
    ensures var s := Run(w, Init(w), steps);
            IsClosure(w, SeenHashes(s)) && forall item | item in s.received :: item.path.hash in s.seen
  {
    var s := Run(w, Init(w), steps);
    CompleteRunDelivers(w, steps);
    InitInvariant(w);
    RunInvariant(w, Init(w), steps);
    forall item | item in s.received ensures item.path.hash in s.seen {
      assert multiset(s.received)[item] > 0;
      var j :| 0 <= j < |s.workers| && Outcome(w, s.workers[j].entry.path) == Some(item);
      OutcomePath(w, s.workers[j].entry.path);
      assert WorkerRight(w, s.seen, s.workers[j]);
    }
  }
}
