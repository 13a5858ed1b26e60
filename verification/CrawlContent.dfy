/**
 * What the crawl handles: every hash enters `seen` once and is carried by exactly one entry from
 * then on, root entries win over references, and every worker's result is fixed by its path.
 */
module CrawlContent {
  import opened Wrappers
  import opened Bytes
  import opened StorePaths
  import opened Sums
  import opened CrawlModel
  import opened CrawlCounting

  // ---------- each hash is carried once ----------

  function Is(path: StorePath, h: Hash): int {
    if path.hash == h then 1 else 0
  }

  function EntryIs(h: Hash): PackageEntry -> int {
    (entry: PackageEntry) => Is(entry.path, h)
  }

  /** How often a worker answers for a hash: by its own entry, and by a new reference it has not pushed yet. */
  function Carries(h: Hash): Worker -> int {
    (worker: Worker) => Is(worker.entry.path, h) + CarriesReference(worker.phase, h)
  }

  function CarriesReference(phase: Phase, h: Hash): int {
    match phase
    case Counting(_, found, _) => Is(found, h)
    case Pushing(_, found, _) => Is(found, h)
    case _ => 0
  }

  function FeederHeld(feeder: Feeder): seq<PackageEntry> {
    match feeder
    case Receiving(_, roots) => roots
    case Counted(roots) => roots
    case _ => []
  }

  function DispatcherHeld(dispatcher: Dispatcher): seq<PackageEntry> {
    if dispatcher.Acquiring? then [dispatcher.entry] else []
  }

  /** How many entries and new references with this hash are anywhere in the crawl. */
  ghost function CarriedBy(s: State, h: Hash): int {
    Total(FeederHeld(s.feeder), EntryIs(h)) + Total(s.queue, EntryIs(h))
    + Total(DispatcherHeld(s.dispatcher), EntryIs(h)) + Total(s.workers, Carries(h))
  }

  /** A hash is carried once when it has been seen, and not at all before. */
  ghost predicate CarriedOnce(s: State, h: Hash) {
    CarriedBy(s, h) == if h in s.seen then 1 else 0
  }

  /** One worker's step puts a new reference into its hands exactly when the hash becomes seen. */
  lemma WorkMeets(w: World, s: State, i: nat, h: Hash)
    requires Enabled(w, s, Work(i)) && !s.workers[i].phase.Pushing?
    ensures var t := WorkStep(w, s, i);
            && t.queue == s.queue
            && t.workers[i].entry == s.workers[i].entry
            && CarriesReference(t.workers[i].phase, h) - (if h in t.seen then 1 else 0)
            == CarriesReference(s.workers[i].phase, h) - (if h in s.seen then 1 else 0)
  {
    WorkFrame(w, s, i);
    WorkLeaves(w, s, i);
    if s.workers[i].phase.Scanning? {
      ScanMeets(w, s, i, h);
    } else {
      OtherMeets(w, s, i, h);
    }
    hide WorkStep, CarriesReference;
  }

  lemma ScanMeets(w: World, s: State, i: nat, h: Hash)
    requires Enabled(w, s, Work(i)) && s.workers[i].phase.Scanning?
    ensures var t := WorkStep(w, s, i);
            CarriesReference(t.workers[i].phase, h) - (if h in t.seen then 1 else 0)
            == CarriesReference(s.workers[i].phase, h) - (if h in s.seen then 1 else 0)
  {
  }

  lemma OtherMeets(w: World, s: State, i: nat, h: Hash)
    requires Enabled(w, s, Work(i)) && !s.workers[i].phase.Scanning? && !s.workers[i].phase.Pushing?
    ensures CarriesReference(WorkStep(w, s, i).workers[i].phase, h) == CarriesReference(s.workers[i].phase, h)
  {
  }

  /** Only scanning sees new hashes, only pushing fills the queue, and only sending fills the channel. */
  lemma WorkLeaves(w: World, s: State, i: nat)
    requires Enabled(w, s, Work(i))
    ensures !s.workers[i].phase.Scanning? ==> WorkStep(w, s, i).seen == s.seen
    ensures !s.workers[i].phase.Pushing? ==> WorkStep(w, s, i).queue == s.queue
    ensures !s.workers[i].phase.Sending? ==> WorkStep(w, s, i).channel == s.channel
    ensures WorkStep(w, s, i).received == s.received
  {
  }

  lemma WorkCarries(w: World, s: State, i: nat, h: Hash)
    requires Enabled(w, s, Work(i))
    ensures var t := WorkStep(w, s, i);
            && Total(t.queue, EntryIs(h)) + Carries(h)(t.workers[i]) - (if h in t.seen then 1 else 0)
            == Total(s.queue, EntryIs(h)) + Carries(h)(s.workers[i]) - (if h in s.seen then 1 else 0)
  {
    match s.workers[i].phase
    case Pushing(mp, found, refs) => TotalAppend(s.queue, PackageEntry(found, None), EntryIs(h));
    case _ => WorkMeets(w, s, i, h);
  }

  lemma WorkCarriedOnce(w: World, s: State, i: nat, h: Hash)
    requires CarriedOnce(s, h) && Enabled(w, s, Work(i))
    ensures CarriedOnce(WorkStep(w, s, i), h)
  {
    var t := WorkStep(w, s, i);
    WorkFrame(w, s, i);
    WorkCarries(w, s, i, h);
    TotalUpdate(s.workers, i, t.workers[i], Carries(h));
  }

  lemma FeedCarriedOnce(w: World, s: State, h: Hash)
    requires CarriedOnce(s, h) && Enabled(w, s, Feed)
    ensures CarriedOnce(FeedStep(w, s), h)
  {
    match s.feeder
    case Receiving(_, _) => ReceiveCarriedOnce(w, s, h);
    case Counted(roots) => TotalConcat(s.queue, roots, EntryIs(h));
    case _ =>
  }

  lemma ReceiveCarriedOnce(w: World, s: State, h: Hash)
    requires CarriedOnce(s, h) && s.feeder.Receiving?
    ensures CarriedOnce(FeedStep(w, s), h)
  {
    if s.feeder.next < |w.input| {
      TotalAppend(s.feeder.roots, w.input[s.feeder.next], EntryIs(h));
    }
  }

  lemma DispatchCarriedOnce(w: World, s: State, h: Hash)
    requires CarriedOnce(s, h) && Enabled(w, s, Dispatch)
    ensures CarriedOnce(DispatchStep(s), h)
  {
    match s.dispatcher
    case Popping =>
      if s.queue != [] {
        TotalOne(s.queue[0], EntryIs(h));
      }
    case Acquiring(entry) =>
      TotalOne(entry, EntryIs(h));
      TotalAppend(s.workers, Worker(entry, Starting), Carries(h));
    case _ =>
  }

  /** Every step keeps each seen hash carried by exactly one entry. */
  lemma CarriedOnceKept(w: World, s: State, step: Step, h: Hash)
    requires CarriedOnce(s, h) && Enabled(w, s, step)
    ensures CarriedOnce(Next(w, s, step), h)
  {
    match step
    case Feed => FeedCarriedOnce(w, s, h);
    case Dispatch => DispatchCarriedOnce(w, s, h);
    case Work(i) => WorkCarriedOnce(w, s, i, h);
    case Consume =>
  }

  // ---------- what the input says about a hash ----------

  /** The first input entry with this hash: the one that is queued. */
  function FirstEntry(input: seq<PackageEntry>, h: Hash): Option<PackageEntry> {
    if input == [] then None
    else
      var n := |input| - 1;
      var earlier := FirstEntry(input[..n], h);
      if earlier.Some? then earlier else if input[n].path.hash == h then Some(input[n]) else None
  }

  /** The first main program that any input entry with this hash names. */
  function FirstMain(input: seq<PackageEntry>, h: Hash): Option<Bytes> {
    if input == [] then None
    else
      var n := |input| - 1;
      var earlier := FirstMain(input[..n], h);
      if earlier.Some? then earlier else if input[n].path.hash == h then input[n].mainProgram else None
  }

  function AnyToplevel(input: seq<PackageEntry>, h: Hash): bool {
    input != [] && (AnyToplevel(input[..|input| - 1], h)
                    || (input[|input| - 1].path.hash == h && input[|input| - 1].path.origin.toplevel))
  }

  lemma {:induction false} FirstEntryFacts(input: seq<PackageEntry>, h: Hash)
    ensures var e := FirstEntry(input, h);
            var mp := FirstMain(input, h);
            && (e.Some? ==> e.value.path.hash == h)
            && (e.None? ==> mp.None? && !AnyToplevel(input, h))
            && (e.Some? && e.value.mainProgram.Some? ==> mp == e.value.mainProgram)
  {
    if input != [] {
      FirstEntryFacts(input[..|input| - 1], h);
    }
  }

  lemma {:induction false} FirstEntryOfPrefix(input: seq<PackageEntry>, n: nat, h: Hash)
    requires n <= |input| && FirstEntry(input[..n], h).Some?
    ensures FirstEntry(input, h) == FirstEntry(input[..n], h)
  {
    if n < |input| {
      var m := |input| - 1;
      assert input[..m][..n] == input[..n];
      FirstEntryOfPrefix(input[..m], n, h);
    } else {
      assert input[..n] == input;
    }
  }

  /** An input hash is one that some input entry has. */
  lemma {:induction false} FirstEntryExists(input: seq<PackageEntry>, h: Hash)
    ensures FirstEntry(input, h).Some? <==> exists k | 0 <= k < |input| :: input[k].path.hash == h
  {
    if input != [] {
      var n := |input| - 1;
      FirstEntryExists(input[..n], h);
      if k :| 0 <= k < |input| && input[k].path.hash == h {
        if k < n {
          assert input[..n][k].path.hash == h;
        }
      }
    }
  }

  // ---------- what `seen` knows ----------

  function Fed(w: World, s: State): seq<PackageEntry> {
    if s.feeder.Receiving? && s.feeder.next <= |w.input| then w.input[..s.feeder.next] else w.input
  }

  ghost predicate Known(fed: seq<PackageEntry>, seen: map<Hash, SeenEntry>, h: Hash) {
    && (FirstEntry(fed, h).Some? ==> h in seen)
    && (h in seen ==> seen[h] == SeenEntry(FirstMain(fed, h), AnyToplevel(fed, h)))
  }

  ghost predicate SeenRight(w: World, s: State) {
    && (s.feeder.Receiving? ==> s.feeder.next <= |w.input|)
    && (forall h {:trigger h in s.seen} {:trigger Known(Fed(w, s), s.seen, h)} :: Known(Fed(w, s), s.seen, h))
    && (s.feeder.Receiving? ==> forall h | h in s.seen :: FirstEntry(Fed(w, s), h).Some?)
  }

  lemma MergeKnown(fed: seq<PackageEntry>, seen: map<Hash, SeenEntry>, entry: PackageEntry, h: Hash)
    requires Known(fed, seen, h)
    requires h in seen ==> FirstEntry(fed, h).Some?
    ensures Known(fed + [entry], Merge(seen, entry), h)
    ensures h in Merge(seen, entry) ==> FirstEntry(fed + [entry], h).Some?
  {
    assert (fed + [entry])[..|fed|] == fed;
    FirstEntryFacts(fed, h);
  }

  lemma FeedSeenRight(w: World, s: State)
    requires SeenRight(w, s) && Counts(w, s) && Enabled(w, s, Feed)
    ensures SeenRight(w, FeedStep(w, s))
  {
    var t := FeedStep(w, s);
    hide Known, FirstEntry, Merge;
    if s.feeder.Receiving? {
      var next := s.feeder.next;
      if next < |w.input| {
        assert Fed(w, t) == Fed(w, s) + [w.input[next]];
        forall h
          ensures Known(Fed(w, t), t.seen, h)
          ensures h in t.seen ==> FirstEntry(Fed(w, t), h).Some?
        {
          assert Known(Fed(w, s), s.seen, h);
          MergeKnown(Fed(w, s), s.seen, w.input[next], h);
        }
      } else {
        assert w.input[..next] == w.input;
      }
    }
  }

  lemma WorkSeenRight(w: World, s: State, i: nat)
    requires SeenRight(w, s) && Counts(w, s) && Enabled(w, s, Work(i))
    ensures SeenRight(w, WorkStep(w, s, i))
  {
    var t := WorkStep(w, s, i);
    WorkFrame(w, s, i);
    forall h
      ensures Known(Fed(w, t), t.seen, h)
    {
      assert Known(Fed(w, s), s.seen, h);
      FirstEntryFacts(w.input, h);
    }
  }

  /** Every step keeps `seen` in agreement with the input that has been fed. */
  lemma SeenRightKept(w: World, s: State, step: Step)
    requires SeenRight(w, s) && Counts(w, s) && Enabled(w, s, step)
    ensures SeenRight(w, Next(w, s, step))
  {
    match step
    case Feed => FeedSeenRight(w, s);
    case Work(i) => WorkSeenRight(w, s, i);
    case _ =>
  }

  // ---------- what each entry and each worker holds ----------

  /** Some hash in `seen` refers to this path. */
  ghost predicate Referred(w: World, seen: map<Hash, SeenEntry>, path: StorePath) {
    exists g :: g in seen && path in Refs(w, g)
  }

  /** A root entry is the first of its hash in the input; any other entry is a bare reference. */
  ghost predicate EntryRight(w: World, seen: map<Hash, SeenEntry>, entry: PackageEntry) {
    && entry.path.hash in seen
    && match FirstEntry(w.input, entry.path.hash)
       case Some(root) => entry == root
       case None => entry.mainProgram.None? && Referred(w, seen, entry.path)
  }

  /** The references that a worker for this hash follows. */
  function Refs(w: World, h: Hash): seq<StorePath> {
    if w.shallow then []
    else match w.narinfo(h)
      case Fetched(refs) => refs
      case _ => []
  }

  function MainProgramOf(w: World, h: Hash): Option<Bytes> {
    ValidOnly(FirstMain(w.input, h))
  }

  /** The item that processing a path yields, if any: a function of the path and the fetches alone. */
  function Outcome(w: World, path: StorePath): Option<ListingItem> {
    var mp := MainProgramOf(w, path.hash);
    if w.shallow then ListingResult(w, path, mp)
    else match w.narinfo(path.hash)
      case Fetched(_) => ListingResult(w, path, mp)
      case NotFound => Fallback(path, mp)
      case Failed => None
  }

  ghost predicate Handled(refs: seq<StorePath>, left: seq<StorePath>, seen: map<Hash, SeenEntry>) {
    && (forall r | r in left :: r in refs)
    && (forall r | r in refs :: r in left || r.hash in seen)
  }

  ghost predicate PhaseRight(w: World, seen: map<Hash, SeenEntry>, path: StorePath, phase: Phase) {
    var refs := Refs(w, path.hash);
    var mp := MainProgramOf(w, path.hash);
    match phase
    case Starting => true
    case FetchingNarinfo(m) => m == mp && !w.shallow
    case Scanning(m, left) => m == mp && !w.shallow && w.narinfo(path.hash).Fetched? && Handled(refs, left, seen)
    case Counting(m, found, left) =>
      m == mp && !w.shallow && w.narinfo(path.hash).Fetched? && Handled(refs, left, seen)
      && found in refs && found.hash in seen && FirstEntry(w.input, found.hash).None?
    case Pushing(m, found, left) =>
      m == mp && !w.shallow && w.narinfo(path.hash).Fetched? && Handled(refs, left, seen)
      && found in refs && found.hash in seen && FirstEntry(w.input, found.hash).None?
    case Notifying(m, left) => m == mp && !w.shallow && w.narinfo(path.hash).Fetched? && Handled(refs, left, seen)
    case FetchingListing(m) => m == mp && Handled(refs, [], seen) && (w.shallow || w.narinfo(path.hash).Fetched?)
    case Leaving(result) => result == Outcome(w, path) && Handled(refs, [], seen)
    case Waking(result) => result == Outcome(w, path) && Handled(refs, [], seen)
    case Sending(result) => result == Outcome(w, path) && Handled(refs, [], seen)
    case Finished => Handled(refs, [], seen)
  }

  ghost predicate WorkerRight(w: World, seen: map<Hash, SeenEntry>, worker: Worker) {
    EntryRight(w, seen, worker.entry) && PhaseRight(w, seen, worker.entry.path, worker.phase)
  }

  ghost predicate HoldingsRight(w: World, s: State) {
    && (forall e | e in FeederHeld(s.feeder) :: EntryRight(w, s.seen, e))
    && (forall e | e in s.queue :: EntryRight(w, s.seen, e))
    && (s.dispatcher.Acquiring? ==> EntryRight(w, s.seen, s.dispatcher.entry))
    && (forall i | 0 <= i < |s.workers| :: WorkerRight(w, s.seen, s.workers[i]))
  }

  /** Growing `seen` spoils nothing. */
  lemma RightInLargerSeen(w: World, seen: map<Hash, SeenEntry>, larger: map<Hash, SeenEntry>, worker: Worker)
    requires seen.Keys <= larger.Keys && WorkerRight(w, seen, worker)
    ensures WorkerRight(w, larger, worker)
  {
    assert forall left :: Handled(Refs(w, worker.entry.path.hash), left, seen)
             ==> Handled(Refs(w, worker.entry.path.hash), left, larger);
  }

  /** A worker's own step keeps its promises, and what it pushes is a bare reference. */
  lemma OwnStepRight(w: World, s: State, i: nat)
    requires Enabled(w, s, Work(i)) && WorkerRight(w, s.seen, s.workers[i])
    requires forall h :: Known(w.input, s.seen, h)
    ensures var t := WorkStep(w, s, i);
            && s.seen.Keys <= t.seen.Keys
            && t.workers[i].entry == s.workers[i].entry
            && PhaseRight(w, t.seen, s.workers[i].entry.path, t.workers[i].phase)
  {
    WorkFrame(w, s, i);
    WorkSees(w, s, i);
    match s.workers[i].phase
    case Starting => StartRight(w, s, i);
    case Scanning(_, _) => ScanRight(w, s, i);
    case _ => OtherRight(w, s, i);
  }

  lemma WorkSees(w: World, s: State, i: nat)
    requires Enabled(w, s, Work(i))
    ensures s.seen.Keys <= WorkStep(w, s, i).seen.Keys
  {
    if !s.workers[i].phase.Scanning? {
      WorkLeaves(w, s, i);
    }
  }

  lemma StartRight(w: World, s: State, i: nat)
    requires Enabled(w, s, Work(i)) && WorkerRight(w, s.seen, s.workers[i]) && s.workers[i].phase.Starting?
    requires forall h :: Known(w.input, s.seen, h)
    ensures var t := WorkStep(w, s, i);
            PhaseRight(w, t.seen, s.workers[i].entry.path, t.workers[i].phase)
  {
    var path := s.workers[i].entry.path;
    assert Known(w.input, s.seen, path.hash);
    FirstEntryFacts(w.input, path.hash);
  }

  lemma ScanRight(w: World, s: State, i: nat)
    requires Enabled(w, s, Work(i)) && WorkerRight(w, s.seen, s.workers[i]) && s.workers[i].phase.Scanning?
    requires forall h :: Known(w.input, s.seen, h)
    ensures var t := WorkStep(w, s, i);
            PhaseRight(w, t.seen, s.workers[i].entry.path, t.workers[i].phase)
  {
    var left := s.workers[i].phase.refs;
    if left != [] {
      assert left == [left[0]] + left[1..];
      assert Known(w.input, s.seen, left[0].hash);
    }
  }

  lemma OtherRight(w: World, s: State, i: nat)
    requires Enabled(w, s, Work(i)) && WorkerRight(w, s.seen, s.workers[i])
    requires !s.workers[i].phase.Starting? && !s.workers[i].phase.Scanning?
    ensures var t := WorkStep(w, s, i);
            PhaseRight(w, t.seen, s.workers[i].entry.path, t.workers[i].phase)
  {
    hide Known, EntryRight;
    WorkLeaves(w, s, i);
  }

  lemma PushedRight(w: World, s: State, i: nat, e: PackageEntry)
    requires Enabled(w, s, Work(i)) && WorkerRight(w, s.seen, s.workers[i])
    requires e in WorkStep(w, s, i).queue
    ensures e in s.queue || EntryRight(w, s.seen, e)
  {
    if !s.workers[i].phase.Pushing? {
      assert WorkStep(w, s, i).queue == s.queue;
    }
  }

  lemma WorkHoldingsRight(w: World, s: State, i: nat)
    requires HoldingsRight(w, s) && SeenRight(w, s) && Counts(w, s) && Enabled(w, s, Work(i))
    ensures HoldingsRight(w, WorkStep(w, s, i))
  {
    var t := WorkStep(w, s, i);
    WorkFrame(w, s, i);
    assert Fed(w, s) == w.input;
    OwnStepRight(w, s, i);
    forall j | 0 <= j < |t.workers|
      ensures WorkerRight(w, t.seen, t.workers[j])
    {
      if j != i {
        RightInLargerSeen(w, s.seen, t.seen, s.workers[j]);
      }
    }
    forall e | e in t.queue
      ensures EntryRight(w, t.seen, e)
    {
      PushedRight(w, s, i, e);
    }
  }

  /** The feeder keeps the first entry of each hash, which is the first of the whole input. */
  lemma RootRight(w: World, s: State)
    requires SeenRight(w, s) && s.feeder.Receiving? && s.feeder.next < |w.input|
    requires w.input[s.feeder.next].path.hash !in s.seen
    ensures FirstEntry(w.input, w.input[s.feeder.next].path.hash) == Some(w.input[s.feeder.next])
  {
    var next := s.feeder.next;
    var entry := w.input[next];
    assert Known(Fed(w, s), s.seen, entry.path.hash);
    assert w.input[..next + 1][..next] == w.input[..next];
    FirstEntryOfPrefix(w.input, next + 1, entry.path.hash);
  }

  lemma FeedHoldingsRight(w: World, s: State)
    requires HoldingsRight(w, s) && SeenRight(w, s) && Counts(w, s) && Enabled(w, s, Feed)
    ensures HoldingsRight(w, FeedStep(w, s))
  {
    var t := FeedStep(w, s);
    if s.feeder.Receiving? && s.feeder.next < |w.input| {
      var entry := w.input[s.feeder.next];
      assert t.seen.Keys == s.seen.Keys + {entry.path.hash};
      forall e | e in FeederHeld(t.feeder)
        ensures EntryRight(w, t.seen, e)
      {
        if e !in FeederHeld(s.feeder) {
          RootRight(w, s);
        }
      }
    }
  }

  /** Every step keeps every entry and every worker right. */
  lemma HoldingsRightKept(w: World, s: State, step: Step)
    requires HoldingsRight(w, s) && SeenRight(w, s) && Counts(w, s) && Enabled(w, s, step)
    ensures HoldingsRight(w, Next(w, s, step))
  {
    match step
    case Feed => FeedHoldingsRight(w, s);
    case Dispatch =>
    case Work(i) => WorkHoldingsRight(w, s, i);
    case Consume =>
  }

  // ---------- what the consumer gets ----------

  function ItemIs(item: ListingItem): ListingItem -> int {
    (sent: ListingItem) => if sent == item then 1 else 0
  }

  /** How often a worker has sent an item: once, when it has finished and this is its outcome. */
  ghost function Delivers(w: World, item: ListingItem): Worker -> int {
    (worker: Worker) => if worker.phase.Finished? && Outcome(w, worker.entry.path) == Some(item) then 1 else 0
  }

  /** Every item sent so far is the outcome of a finished worker, once for each such worker. */
  ghost predicate SentRight(w: World, s: State, item: ListingItem) {
    Total(s.received, ItemIs(item)) + Total(s.channel, ItemIs(item)) == Total(s.workers, Delivers(w, item))
  }

  lemma WorkDelivers(w: World, s: State, i: nat, item: ListingItem)
    requires Enabled(w, s, Work(i)) && WorkerRight(w, s.seen, s.workers[i])
    ensures var t := WorkStep(w, s, i);
            && t.received == s.received
            && Total(t.channel, ItemIs(item)) - Delivers(w, item)(t.workers[i])
            == Total(s.channel, ItemIs(item)) - Delivers(w, item)(s.workers[i])
  {
    WorkLeaves(w, s, i);
    if s.workers[i].phase.Sending? {
      SendDelivers(w, s, i, item);
    } else {
      NothingFinishes(w, s, i);
      hide WorkStep;
    }
  }

  lemma SendDelivers(w: World, s: State, i: nat, item: ListingItem)
    requires Enabled(w, s, Work(i)) && WorkerRight(w, s.seen, s.workers[i]) && s.workers[i].phase.Sending?
    ensures var t := WorkStep(w, s, i);
            Total(t.channel, ItemIs(item)) - Delivers(w, item)(t.workers[i])
            == Total(s.channel, ItemIs(item)) - Delivers(w, item)(s.workers[i])
  {
    hide Total, Handled, Outcome, EntryRight;
    if s.workers[i].phase.result.Some? {
      TotalAppend(s.channel, s.workers[i].phase.result.value, ItemIs(item));
    }
  }

  lemma NothingFinishes(w: World, s: State, i: nat)
    requires Enabled(w, s, Work(i)) && !s.workers[i].phase.Sending?
    ensures !WorkStep(w, s, i).workers[i].phase.Finished? && !s.workers[i].phase.Finished?
  {
  }

  lemma WorkSentRight(w: World, s: State, i: nat, item: ListingItem)
    requires SentRight(w, s, item) && Enabled(w, s, Work(i)) && WorkerRight(w, s.seen, s.workers[i])
    ensures SentRight(w, WorkStep(w, s, i), item)
  {
    var t := WorkStep(w, s, i);
    WorkFrame(w, s, i);
    WorkDelivers(w, s, i, item);
    TotalUpdate(s.workers, i, t.workers[i], Delivers(w, item));
  }

  /** Every step keeps the sent items in step with the finished workers. */
  lemma SentRightKept(w: World, s: State, step: Step, item: ListingItem)
    requires SentRight(w, s, item) && HoldingsRight(w, s) && Enabled(w, s, step)
    ensures SentRight(w, Next(w, s, step), item)
  {
    match step
    case Feed =>
    case Dispatch => DispatchSentRight(w, s, item);
    case Work(i) => WorkSentRight(w, s, i, item);
    case Consume => ConsumeSentRight(w, s, item);
  }

  lemma DispatchSentRight(w: World, s: State, item: ListingItem)
    requires SentRight(w, s, item) && Enabled(w, s, Dispatch)
    ensures SentRight(w, DispatchStep(s), item)
  {
    if s.dispatcher.Acquiring? {
      TotalAppend(s.workers, Worker(s.dispatcher.entry, Starting), Delivers(w, item));
    }
  }

  lemma ConsumeSentRight(w: World, s: State, item: ListingItem)
    requires SentRight(w, s, item) && s.channel != []
    ensures SentRight(w, s.(channel := s.channel[1..], received := s.received + [s.channel[0]]), item)
  {
    TotalAppend(s.received, s.channel[0], ItemIs(item));
  }
}
