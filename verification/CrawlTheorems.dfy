/** What every run of the crawl achieves, and why every run ends. */
module CrawlTheorems {
  import opened Wrappers
  import opened StorePaths
  import opened Sums
  import opened CrawlModel
  import opened CrawlCounting
  import opened CrawlContent

  // ---------- the invariant over whole runs ----------

  ghost predicate Invariant(w: World, s: State) {
    && Counts(w, s) && Awake(s) && SeenRight(w, s) && HoldingsRight(w, s)
    && (forall h :: CarriedOnce(s, h))
    && (forall item :: SentRight(w, s, item))
  }

  lemma InitInvariant(w: World)
    ensures Invariant(w, Init(w))
  {
    var s := Init(w);
    assert Fed(w, s) == [];
    assert forall h :: Known(Fed(w, s), s.seen, h);
  }

  lemma StepInvariant(w: World, s: State, step: Step)
    requires Invariant(w, s) && Enabled(w, s, step)
    ensures Invariant(w, Next(w, s, step))
  {
    var t := Next(w, s, step);
    CountsKept(w, s, step);
    AwakeKept(w, s, step);
    SeenRightKept(w, s, step);
    HoldingsRightKept(w, s, step);
    forall h
      ensures CarriedOnce(t, h)
    {
      CarriedOnceKept(w, s, step, h);
    }
    forall item
      ensures SentRight(w, t, item)
    {
      SentRightKept(w, s, step, item);
    }
  }

  lemma {:induction false} RunInvariant(w: World, s: State, steps: seq<Step>)
    requires Invariant(w, s) && Legal(w, s, steps)
    ensures Invariant(w, Run(w, s, steps))
    decreases |steps|
  {
    if steps != [] {
      StepInvariant(w, s, steps[0]);
      RunInvariant(w, Next(w, s, steps[0]), steps[1..]);
    }
  }

  /** The jobs that a run is given, at least one. */
  function JobsOf(w: World): nat {
    if w.requestedJobs > 1 then w.requestedJobs else 1
  }

  lemma {:induction false} ChannelBounded(w: World, s: State, steps: seq<Step>)
    requires |s.channel| <= 2 * JobsOf(w) && Legal(w, s, steps)
    ensures |Run(w, s, steps).channel| <= 2 * JobsOf(w)
    decreases |steps|
  {
    if steps != [] {
      ChannelBounded(w, Next(w, s, steps[0]), steps[1..]);
    }
  }

  /**
   * In every reachable state `in_flight` is exact, the workers that are active and the permits left are
   * `jobs` together, and a worker with an item only waits for a channel that holds twice as many.
   */
  lemma CountersExact(w: World, steps: seq<Step>)
    requires Legal(w, Init(w), steps)
    ensures var s := Run(w, Init(w), steps);
            && s.inFlight == FlightOf(s) >= 0
            && 0 <= Total(s.workers, Active) <= JobsOf(w) && s.slots == JobsOf(w) - Total(s.workers, Active)
            && |s.channel| <= 2 * JobsOf(w)
            && forall i | 0 <= i < |s.workers| && s.workers[i].phase.Sending? && !Enabled(w, s, Work(i)) ::
                 |s.channel| == 2 * JobsOf(w)
  {
    InitInvariant(w);
    RunInvariant(w, Init(w), steps);
    FlightBounds(Run(w, Init(w), steps));
    ChannelBounded(w, Init(w), steps);
  }

  // ---------- which hashes are handled ----------

  /** A set of hashes that holds the input and every reference followed from it. */
  ghost predicate Closed(w: World, hashes: iset<Hash>) {
    && (forall k | 0 <= k < |w.input| :: w.input[k].path.hash in hashes)
    && (forall h, r | h in hashes && r in Refs(w, h) :: r.hash in hashes)
  }

  /** The least such set. */
  ghost predicate IsClosure(w: World, hashes: iset<Hash>) {
    Closed(w, hashes) && forall larger :: Closed(w, larger) ==> hashes <= larger
  }

  ghost function SeenHashes(s: State): iset<Hash> {
    iset h | h in s.seen
  }

  lemma StepWithin(w: World, s: State, step: Step, hashes: iset<Hash>)
    requires Invariant(w, s) && Enabled(w, s, step) && Closed(w, hashes) && SeenHashes(s) <= hashes
    ensures SeenHashes(Next(w, s, step)) <= hashes
  {
    match step
    case Feed => FeedWithin(w, s, hashes);
    case Work(i) =>
      if s.workers[i].phase.Scanning? {
        HoldsWorker(w, s, i);
        ScanWithin(w, s, i, hashes);
      } else {
        WorkLeaves(w, s, i);
        hide WorkStep, Invariant, Closed;
      }
    case Dispatch => DispatchSees(s);
    case Consume =>
  }

  lemma HoldsWorker(w: World, s: State, i: nat)
    requires Invariant(w, s) && i < |s.workers|
    ensures WorkerRight(w, s.seen, s.workers[i])
  {
    hide Counts, Awake, SeenRight, CarriedOnce, SentRight, WorkerRight, EntryRight;
  }

  lemma DispatchSees(s: State)
    requires !s.dispatcher.Stopped?
    ensures DispatchStep(s).seen == s.seen
  {
  }

  lemma FeedWithin(w: World, s: State, hashes: iset<Hash>)
    requires !s.feeder.Exited? && Closed(w, hashes) && SeenHashes(s) <= hashes
    ensures SeenHashes(FeedStep(w, s)) <= hashes
  {
  }

  lemma ScanWithin(w: World, s: State, i: nat, hashes: iset<Hash>)
    requires Enabled(w, s, Work(i)) && s.workers[i].phase.Scanning? && WorkerRight(w, s.seen, s.workers[i])
    requires Closed(w, hashes) && SeenHashes(s) <= hashes
    ensures SeenHashes(WorkStep(w, s, i)) <= hashes
  {
    var path, left := s.workers[i].entry.path, s.workers[i].phase.refs;
    if left != [] && left[0].hash !in s.seen {
      assert path.hash in hashes && left[0] in Refs(w, path.hash);
    }
  }

  lemma {:induction false} RunWithin(w: World, s: State, steps: seq<Step>, hashes: iset<Hash>)
    requires Invariant(w, s) && Legal(w, s, steps) && Closed(w, hashes) && SeenHashes(s) <= hashes
    ensures SeenHashes(Run(w, s, steps)) <= hashes
    decreases |steps|
  {
    if steps != [] {
      StepInvariant(w, s, steps[0]);
      StepWithin(w, s, steps[0], hashes);
      RunWithin(w, Next(w, s, steps[0]), steps[1..], hashes);
    }
  }

  /** The worker has done everything but hand over its item. */
  predicate Processed(worker: Worker) {
    worker.phase.Waking? || worker.phase.Sending? || worker.phase.Finished?
  }

  /** One worker for each seen hash, and no two workers for the same one. */
  ghost predicate OneWorkerEach(s: State) {
    && (forall h | h in s.seen :: exists i | 0 <= i < |s.workers| :: s.workers[i].entry.path.hash == h)
    && (forall i, j | 0 <= i < j < |s.workers| :: s.workers[i].entry.path.hash != s.workers[j].entry.path.hash)
  }

  lemma {:induction false} TwoShares<T>(xs: seq<T>, f: T -> int, i: nat, j: nat)
    requires i < j < |xs| && forall x | x in xs :: f(x) >= 0
    ensures Total(xs, f) >= f(xs[i]) + f(xs[j])
  {
    TotalAtLeast(xs[1..], f);
    if i == 0 {
      assert xs[1..][j - 1] == xs[j];
    } else {
      TwoShares(xs[1..], f, i - 1, j - 1);
    }
  }

  lemma OnceMeansOneWorker(w: World, s: State)
    requires Invariant(w, s) && s.dispatcher.Stopped?
    ensures OneWorkerEach(s)
    ensures forall i | 0 <= i < |s.workers| :: Processed(s.workers[i])
  {
    StoppedMeansProcessed(w, s);
    forall h ensures CarriedOnce(s, h) && Total(s.workers, Carries(h)) == if h in s.seen then 1 else 0 {
      OnlyWorkersCarry(w, s, h);
    }
    hide Invariant, CarriedOnce, Processed;
    forall h | h in s.seen
      ensures exists i | 0 <= i < |s.workers| :: s.workers[i].entry.path.hash == h
    {
      HasWorker(s, h);
    }
    forall i, j | 0 <= i < j < |s.workers|
      ensures s.workers[i].entry.path.hash != s.workers[j].entry.path.hash
    {
      NoTwoWorkers(s, i, j);
    }
  }

  lemma StoppedMeansProcessed(w: World, s: State)
    requires Invariant(w, s) && s.dispatcher.Stopped?
    ensures s.queue == [] && !s.feeder.Receiving? && !s.feeder.Counted?
    ensures forall i | 0 <= i < |s.workers| :: Processed(s.workers[i])
  {
    hide SeenRight, HoldingsRight, CarriedOnce, SentRight;
    FlightBounds(s);
    forall i | 0 <= i < |s.workers|
      ensures Processed(s.workers[i])
    {
      assert Flight(s.workers[i]) <= 0;
    }
  }

  /** Once the dispatcher has stopped, nothing but workers carries anything. */
  lemma OnlyWorkersCarry(w: World, s: State, h: Hash)
    requires Invariant(w, s) && s.dispatcher.Stopped?
    ensures CarriedOnce(s, h) && Total(s.workers, Carries(h)) == if h in s.seen then 1 else 0
  {
    StoppedMeansProcessed(w, s);
    hide Counts, Awake, SeenRight, HoldingsRight, SentRight;
    assert CarriedOnce(s, h);
  }

  lemma HasWorker(s: State, h: Hash)
    requires Total(s.workers, Carries(h)) == 1 && forall i | 0 <= i < |s.workers| :: Processed(s.workers[i])
    ensures exists i | 0 <= i < |s.workers| :: s.workers[i].entry.path.hash == h
  {
    var i := TotalNonZero(s.workers, Carries(h));
    assert s.workers[i].entry.path.hash == h;
  }

  lemma NoTwoWorkers(s: State, i: nat, j: nat)
    requires i < j < |s.workers| && Total(s.workers, Carries(s.workers[i].entry.path.hash)) <= 1
    ensures s.workers[i].entry.path.hash != s.workers[j].entry.path.hash
  {
    TwoShares(s.workers, Carries(s.workers[i].entry.path.hash), i, j);
  }

  lemma InputSeen(w: World, s: State, k: nat)
    requires SeenRight(w, s) && !s.feeder.Receiving? && k < |w.input|
    ensures w.input[k].path.hash in s.seen
  {
    FirstEntryExists(w.input, w.input[k].path.hash);
    assert Known(Fed(w, s), s.seen, w.input[k].path.hash);
  }

  lemma ReferencesSeen(w: World, s: State, i: nat, r: StorePath)
    requires HoldingsRight(w, s) && i < |s.workers| && Processed(s.workers[i])
    requires r in Refs(w, s.workers[i].entry.path.hash)
    ensures r.hash in s.seen
  {
    assert WorkerRight(w, s.seen, s.workers[i]);
  }

  /** Once every worker is through its references, `seen` is closed. */
  lemma ProcessedMeansClosed(w: World, s: State)
    requires SeenRight(w, s) && HoldingsRight(w, s) && !s.feeder.Receiving? && OneWorkerEach(s)
    requires forall i | 0 <= i < |s.workers| :: Processed(s.workers[i])
    ensures Closed(w, SeenHashes(s))
  {
    forall k | 0 <= k < |w.input|
      ensures w.input[k].path.hash in SeenHashes(s)
    {
      InputSeen(w, s, k);
    }
    forall h, r | h in SeenHashes(s) && r in Refs(w, h)
      ensures r.hash in SeenHashes(s)
    {
      var i :| 0 <= i < |s.workers| && s.workers[i].entry.path.hash == h;
      ReferencesSeen(w, s, i, r);
    }
  }

  /**
   * Safety: in every reachable state in which the dispatcher has stopped, exactly the closure of
   * the input has been handled, each hash by exactly one worker, and all of them are through.
   */
  lemma StoppedMeansClosureProcessed(w: World, steps: seq<Step>)
    requires Legal(w, Init(w), steps) && Run(w, Init(w), steps).dispatcher.Stopped?
    ensures var s := Run(w, Init(w), steps);
            && IsClosure(w, SeenHashes(s))
            && OneWorkerEach(s)
            && forall i | 0 <= i < |s.workers| :: Processed(s.workers[i])
  {
    var s := Run(w, Init(w), steps);
    InitInvariant(w);
    RunInvariant(w, Init(w), steps);
    OnceMeansOneWorker(w, s);
    ProcessedMeansClosed(w, s);
    forall hashes | Closed(w, hashes)
      ensures SeenHashes(s) <= hashes
    {
      RunWithin(w, Init(w), steps, hashes);
    }
  }

  /** How the main program and the label of a hash are chosen: the input decides, not the interleaving. */
  lemma RootsKeepTheirEntry(w: World, steps: seq<Step>, i: nat)
    requires Legal(w, Init(w), steps) && i < |Run(w, Init(w), steps).workers|
    ensures var entry := Run(w, Init(w), steps).workers[i].entry;
            match FirstEntry(w.input, entry.path.hash)
            case Some(root) => entry == root
            case None => entry.mainProgram.None?
  {
    InitInvariant(w);
    RunInvariant(w, Init(w), steps);
    assert WorkerRight(w, Run(w, Init(w), steps).seen, Run(w, Init(w), steps).workers[i]);
  }

  // ---------- what has been delivered ----------

  lemma {:induction false} CountIsMultiplicity(items: seq<ListingItem>, item: ListingItem)
    ensures Total(items, ItemIs(item)) == multiset(items)[item]
  {
    if items != [] {
      CountIsMultiplicity(items[1..], item);
      assert items == [items[0]] + items[1..];
    }
  }

  /**
   * Exactness: a run that cannot be extended has stopped, and the consumer holds the outcome of
   * every hash in the closure that has one, exactly once, and nothing else.
   */
  lemma CompleteRunDelivers(w: World, steps: seq<Step>)
    requires Legal(w, Init(w), steps) && Quiet(w, Run(w, Init(w), steps))
    ensures var s := Run(w, Init(w), steps);
            && Completed(s)
            && IsClosure(w, SeenHashes(s))
            && OneWorkerEach(s)
            && forall item :: multiset(s.received)[item]
                 == if exists i | 0 <= i < |s.workers| :: Outcome(w, s.workers[i].entry.path) == Some(item) then 1 else 0
  {
    var s := Run(w, Init(w), steps);
    InitInvariant(w);
    RunInvariant(w, Init(w), steps);
    QuietMeansCompleted(w, s);
    StoppedMeansClosureProcessed(w, steps);
    forall item
      ensures multiset(s.received)[item]
           == if exists i | 0 <= i < |s.workers| :: Outcome(w, s.workers[i].entry.path) == Some(item) then 1 else 0
    {
      assert SentRight(w, s, item);
      CountIsMultiplicity(s.received, item);
      OutcomeOnce(w, s, item);
    }
  }

  /** Distinct workers have distinct paths, so no two of them yield the same item. */
  lemma OutcomeOnce(w: World, s: State, item: ListingItem)
    requires OneWorkerEach(s) && forall i | 0 <= i < |s.workers| :: s.workers[i].phase.Finished?
    ensures Total(s.workers, Delivers(w, item))
         == if exists i | 0 <= i < |s.workers| :: Outcome(w, s.workers[i].entry.path) == Some(item) then 1 else 0
  {
    if i :| 0 <= i < |s.workers| && Outcome(w, s.workers[i].entry.path) == Some(item) {
      TotalSingle(s.workers, Delivers(w, item), i);
    } else {
      if Total(s.workers, Delivers(w, item)) != 0 {
        var i := TotalNonZero(s.workers, Delivers(w, item));
      }
    }
  }

  lemma {:induction false} TotalZero<T>(xs: seq<T>, f: T -> int)
    requires forall j | 0 <= j < |xs| :: f(xs[j]) == 0
    ensures Total(xs, f) == 0
  {
    if xs != [] {
      TotalZero(xs[1..], f);
    }
  }

  lemma {:induction false} TotalSingle<T>(xs: seq<T>, f: T -> int, i: nat)
    requires i < |xs| && forall j | 0 <= j < |xs| && j != i :: f(xs[j]) == 0
    ensures Total(xs, f) == f(xs[i])
  {
    if i == 0 {
      TotalZero(xs[1..], f);
    } else {
      assert xs[1..][i - 1] == xs[i];
      TotalSingle(xs[1..], f, i - 1);
    }
  }

  // ---------- every run ends ----------

  /** A finite world: the hashes that can be met, and the longest reference list among them. */
  ghost predicate Finite(w: World, universe: set<Hash>, longest: nat) {
    && Closed(w, iset h | h in universe)
    && forall h | h in universe :: |Refs(w, h)| <= longest
  }

  /** An upper bound on the steps a worker and the entries it pushes can still cause by themselves. */
  function PhaseCost(phase: Phase, longest: nat): int {
    match phase
    case Starting => 12 + longest
    case FetchingNarinfo(_) => 11 + longest
    case Scanning(_, left) => 10 + |left|
    case Counting(_, _, left) => 17 + |left| + EntryCost(longest)
    case Pushing(_, _, left) => 16 + |left| + EntryCost(longest)
    case Notifying(_, left) => 15 + |left|
    case FetchingListing(_) => 9
    case Leaving(_) => 8
    case Waking(_) => 7
    case Sending(_) => 2
    case Finished => 0
  }

  function WorkerCost(longest: nat): Worker -> int {
    (worker: Worker) => PhaseCost(worker.phase, longest)
  }

  function EntryCost(longest: nat): nat {
    14 + longest
  }

  function FeederCost(w: World, feeder: Feeder, longest: nat): int {
    match feeder
    case Receiving(next, roots) => 10 + (|w.input| - next) + Times(EntryCost(longest), |roots|)
    case Counted(roots) => 9 + Times(EntryCost(longest), |roots|)
    case Queued => 8
    case Flagged => 7
    case Exited => 0
  }

  function DispatcherCost(dispatcher: Dispatcher, longest: nat): int {
    match dispatcher
    case Popping => 3
    case Acquiring(_) => 16 + longest
    case CheckingInput => 2
    case CheckingFlight => 1
    case Waiting => 0
    case Stopped => 0
  }

  ghost function Potential(w: World, universe: set<Hash>, longest: nat, s: State): int {
    Times(EntryCost(longest) + 7, |universe - s.seen.Keys|)
    + FeederCost(w, s.feeder, longest) + DispatcherCost(s.dispatcher, longest)
    + Times(EntryCost(longest), |s.queue|) + (if s.permit then 4 else 0)
    + Total(s.workers, WorkerCost(longest)) + |s.channel|
  }

  lemma PotentialNonNegative(w: World, universe: set<Hash>, longest: nat, s: State)
    requires SeenRight(w, s)
    ensures Potential(w, universe, longest, s) >= 0
  {
    TotalAtLeast(s.workers, WorkerCost(longest));
  }

  /** The part of the potential that a worker's step changes besides `seen` and the queue. */
  function Stake(longest: nat, s: State, phase: Phase): int {
    PhaseCost(phase, longest) + (if s.permit then 4 else 0) + |s.channel|
  }

  /** How a step from `s` to `t` pays: out of its own stake, out of an unseen hash, or for a queued entry. */
  ghost predicate Paid(w: World, longest: nat, s: State, t: State, h: Hash, before: int, after: int) {
    || (t.queue == s.queue && t.seen == s.seen && after < before)
    || (t.seen == s.seen && |t.queue| == |s.queue| + 1 && after + EntryCost(longest) < before)
    || (t.queue == s.queue && after < before + EntryCost(longest) + 7
        && exists r | r in Refs(w, h) :: NewlySeen(s, t, r.hash))
  }

  ghost predicate NewlySeen(s: State, t: State, h: Hash) {
    h !in s.seen && t.seen.Keys == s.seen.Keys + {h}
  }

  lemma ScanPays(w: World, longest: nat, s: State, i: nat, worker: Worker)
    requires i < |s.workers| && s.workers[i] == worker && worker.phase.Scanning?
    requires Handled(Refs(w, worker.entry.path.hash), worker.phase.refs, s.seen)
    ensures var t := WorkStep(w, s, i);
            Paid(w, longest, s, t, worker.entry.path.hash,
                 Stake(longest, s, worker.phase), Stake(longest, t, t.workers[i].phase))
  {
    var left := worker.phase.refs;
    if left != [] && left[0].hash !in s.seen {
      assert left[0] in Refs(w, worker.entry.path.hash);
      assert NewlySeen(s, WorkStep(w, s, i), left[0].hash);
    }
  }

  lemma PushPays(w: World, longest: nat, s: State, i: nat, worker: Worker)
    requires i < |s.workers| && s.workers[i] == worker && worker.phase.Pushing?
    ensures var t := WorkStep(w, s, i);
            Paid(w, longest, s, t, worker.entry.path.hash,
                 Stake(longest, s, worker.phase), Stake(longest, t, t.workers[i].phase))
  {
  }

  lemma WorkPays(w: World, longest: nat, s: State, i: nat, worker: Worker)
    requires i < |s.workers| && s.workers[i] == worker && |Refs(w, worker.entry.path.hash)| <= longest
    requires !worker.phase.Scanning? && !worker.phase.Pushing? && !worker.phase.Finished?
    requires worker.phase.FetchingNarinfo? ==> !w.shallow
    ensures var t := WorkStep(w, s, i);
            Paid(w, longest, s, t, worker.entry.path.hash,
                 Stake(longest, s, worker.phase), Stake(longest, t, t.workers[i].phase))
  {
    StakeFalls(w, longest, s, i, worker);
    WorkLeavesBoth(w, s, i);
    hide WorkStep, Stake;
  }

  lemma WorkLeavesBoth(w: World, s: State, i: nat)
    requires i < |s.workers| && !s.workers[i].phase.Finished? && !s.workers[i].phase.Scanning? && !s.workers[i].phase.Pushing?
    ensures WorkStep(w, s, i).seen == s.seen && WorkStep(w, s, i).queue == s.queue
  {
  }

  lemma StakeFalls(w: World, longest: nat, s: State, i: nat, worker: Worker)
    requires i < |s.workers| && s.workers[i] == worker && |Refs(w, worker.entry.path.hash)| <= longest
    requires !worker.phase.Scanning? && !worker.phase.Pushing? && !worker.phase.Finished?
    requires worker.phase.FetchingNarinfo? ==> !w.shallow
    ensures var t := WorkStep(w, s, i); Stake(longest, t, t.workers[i].phase) < Stake(longest, s, worker.phase)
  {
    if worker.phase.Starting? || worker.phase.FetchingNarinfo? || worker.phase.FetchingListing? {
      FetchFalls(w, longest, s, i, worker);
    }
  }

  lemma FetchFalls(w: World, longest: nat, s: State, i: nat, worker: Worker)
    requires i < |s.workers| && s.workers[i] == worker && |Refs(w, worker.entry.path.hash)| <= longest
    requires worker.phase.Starting? || worker.phase.FetchingNarinfo? || worker.phase.FetchingListing?
    requires worker.phase.FetchingNarinfo? ==> !w.shallow
    ensures var t := WorkStep(w, s, i); Stake(longest, t, t.workers[i].phase) < Stake(longest, s, worker.phase)
  {
    hide ValidOnly, ListingResult;
  }

  /** What is still to be paid for the unseen hashes and for the queue. */
  ghost function Owed(universe: set<Hash>, longest: nat, s: State): int {
    Times(EntryCost(longest) + 7, |universe - s.seen.Keys|) + Times(EntryCost(longest), |s.queue|)
  }

  lemma OwedAlike(universe: set<Hash>, longest: nat, s: State, t: State)
    requires t.seen == s.seen && t.queue == s.queue
    ensures Owed(universe, longest, t) == Owed(universe, longest, s)
  {
  }

  lemma OwedForEntry(universe: set<Hash>, longest: nat, s: State, t: State)
    requires t.seen == s.seen && |t.queue| == |s.queue| + 1
    ensures Owed(universe, longest, t) == Owed(universe, longest, s) + EntryCost(longest)
  {
    TimesNext(EntryCost(longest), |s.queue|);
  }

  lemma OwedForHash(universe: set<Hash>, longest: nat, s: State, t: State, h: Hash)
    requires NewlySeen(s, t, h) && t.queue == s.queue && h in universe
    ensures Owed(universe, longest, t) == Owed(universe, longest, s) - (EntryCost(longest) + 7)
  {
    hide EntryCost, Times;
    UnseenPays(universe, EntryCost(longest) + 7, s.seen.Keys, h);
  }

  /** A step that pays lowers the whole potential of the queue, the unseen hashes and the stake. */
  lemma PaidLowers(w: World, universe: set<Hash>, longest: nat, s: State, t: State, h: Hash, before: int, after: int)
    requires (forall r | r in Refs(w, h) :: r.hash in universe) && Paid(w, longest, s, t, h, before, after)
    ensures Owed(universe, longest, t) + after < Owed(universe, longest, s) + before
  {
    hide Owed, EntryCost, NewlySeen, Refs;
    if t.seen == s.seen && t.queue == s.queue && after < before {
      OwedAlike(universe, longest, s, t);
    } else if t.seen == s.seen && |t.queue| == |s.queue| + 1 && after + EntryCost(longest) < before {
      OwedForEntry(universe, longest, s, t);
    } else {
      var r :| r in Refs(w, h) && NewlySeen(s, t, r.hash);
      OwedForHash(universe, longest, s, t, r.hash);
    }
  }

  lemma UnseenPays(universe: set<Hash>, a: nat, seen: set<Hash>, h: Hash)
    requires h in universe && h !in seen
    ensures Times(a, |universe - seen|) == a + Times(a, |universe - (seen + {h})|)
  {
    FewerUnseen(universe, seen, h);
  }

  lemma FewerUnseen(universe: set<Hash>, seen: set<Hash>, h: Hash)
    requires h in universe && h !in seen
    ensures |universe - (seen + {h})| == |universe - seen| - 1
  {
    assert universe - (seen + {h}) == (universe - seen) - {h};
  }

  /** What is still to be paid for the unseen hashes and by the feeder. */
  ghost function FeedingCost(w: World, universe: set<Hash>, longest: nat, seen: set<Hash>, feeder: Feeder): int {
    Times(EntryCost(longest) + 7, |universe - seen|) + FeederCost(w, feeder, longest)
  }

  /** Taking one more input entry pays for the root it may add. */
  lemma ReceivePays(w: World, universe: set<Hash>, longest: nat, s: State)
    requires Finite(w, universe, longest) && s.feeder.Receiving? && s.feeder.next < |w.input|
    ensures var t := FeedStep(w, s);
            FeedingCost(w, universe, longest, t.seen.Keys, t.feeder) < FeedingCost(w, universe, longest, s.seen.Keys, s.feeder)
  {
    hide *;
    ReceiveStep(w, s);
    var next, roots := s.feeder.next, s.feeder.roots;
    if w.input[next].path.hash in s.seen {
      SkipRoot(w, universe, longest, s.seen.Keys, next, roots);
    } else {
      InputInUniverse(w, universe, longest, next);
      AddRoot(w, universe, longest, s.seen.Keys, next, roots, w.input[next]);
    }
  }

  lemma SkipRoot(w: World, universe: set<Hash>, longest: nat, seen: set<Hash>, next: nat, roots: seq<PackageEntry>)
    ensures FeedingCost(w, universe, longest, seen, Receiving(next + 1, roots))
            < FeedingCost(w, universe, longest, seen, Receiving(next, roots))
  {
    hide Times, EntryCost;
  }

  lemma AddRoot(w: World, universe: set<Hash>, longest: nat, seen: set<Hash>, next: nat, roots: seq<PackageEntry>, entry: PackageEntry)
    requires entry.path.hash in universe && entry.path.hash !in seen
    ensures FeedingCost(w, universe, longest, seen + {entry.path.hash}, Receiving(next + 1, roots + [entry]))
            < FeedingCost(w, universe, longest, seen, Receiving(next, roots))
  {
    hide Times, EntryCost;
    UnseenPays(universe, EntryCost(longest) + 7, seen, entry.path.hash);
    TimesNext(EntryCost(longest), |roots|);
  }

  lemma InputInUniverse(w: World, universe: set<Hash>, longest: nat, i: nat)
    requires Finite(w, universe, longest) && i < |w.input|
    ensures w.input[i].path.hash in universe
  {
  }

  lemma ReceiveStep(w: World, s: State)
    requires s.feeder.Receiving? && s.feeder.next < |w.input|
    ensures var t, entry := FeedStep(w, s), w.input[s.feeder.next];
            && t.seen.Keys == (if entry.path.hash in s.seen then s.seen.Keys else s.seen.Keys + {entry.path.hash})
            && t.feeder == Receiving(s.feeder.next + 1, if entry.path.hash in s.seen then s.feeder.roots else s.feeder.roots + [entry])
  {
  }

  lemma TimesNext(a: nat, n: nat)
    ensures Times(a, n + 1) == a + Times(a, n)
  {
  }

  lemma FeedPays(w: World, universe: set<Hash>, longest: nat, s: State)
    requires Invariant(w, s) && Finite(w, universe, longest) && Enabled(w, s, Feed)
    ensures Potential(w, universe, longest, FeedStep(w, s)) < Potential(w, universe, longest, s)
  {
    hide Invariant, Potential, FeedStep, Finite;
    if s.feeder.Receiving? && s.feeder.next < |w.input| {
      ReceiveLowers(w, universe, longest, s);
    } else {
      FeederInStep(w, s);
      QuietFeedLowers(w, universe, longest, s);
    }
  }

  lemma ReceiveLowers(w: World, universe: set<Hash>, longest: nat, s: State)
    requires Finite(w, universe, longest) && s.feeder.Receiving? && s.feeder.next < |w.input|
    ensures Potential(w, universe, longest, FeedStep(w, s)) < Potential(w, universe, longest, s)
  {
    ReceivePays(w, universe, longest, s);
    hide Finite, Total, Times, FeederCost, EntryCost, DispatcherCost;
  }

  lemma QuietFeedLowers(w: World, universe: set<Hash>, longest: nat, s: State)
    requires Enabled(w, s, Feed) && (s.feeder.Receiving? ==> s.feeder.next == |w.input|) && (s.feeder.Counted? ==> s.queue == [])
    ensures Potential(w, universe, longest, FeedStep(w, s)) < Potential(w, universe, longest, s)
  {
    hide FeedStep, FeederCost, Times, Total, EntryCost, DispatcherCost, WorkerCost;
    QuietFeedPays(w, longest, s);
    QuietFeedFrame(w, s);
  }

  lemma QuietFeedPays(w: World, longest: nat, s: State)
    requires !s.feeder.Exited? && (s.feeder.Receiving? ==> s.feeder.next == |w.input|) && (s.feeder.Counted? ==> s.queue == [])
    ensures var t := FeedStep(w, s);
            FeederCost(w, t.feeder, longest) + Times(EntryCost(longest), |t.queue|) + (if t.permit then 4 else 0)
            < FeederCost(w, s.feeder, longest) + Times(EntryCost(longest), |s.queue|) + (if s.permit then 4 else 0)
  {
    hide EntryCost;
    assert s.feeder.Counted? ==> s.queue + s.feeder.roots == s.feeder.roots;
  }

  lemma QuietFeedFrame(w: World, s: State)
    requires !s.feeder.Exited? && (s.feeder.Receiving? ==> s.feeder.next == |w.input|)
    ensures var t := FeedStep(w, s);
            t.seen == s.seen && t.dispatcher == s.dispatcher && t.workers == s.workers && t.channel == s.channel
  {
  }

  lemma FeederInStep(w: World, s: State)
    requires Invariant(w, s)
    ensures (s.feeder.Receiving? ==> s.feeder.next <= |w.input|) && (s.feeder.Counted? ==> s.queue == [])
  {
    hide Awake, HoldingsRight, CarriedOnce, SentRight;
  }

  lemma DispatchPays(w: World, universe: set<Hash>, longest: nat, s: State)
    requires Enabled(w, s, Dispatch)
    ensures Potential(w, universe, longest, DispatchStep(s)) < Potential(w, universe, longest, s)
  {
    match s.dispatcher
    case Popping => PopPays(w, universe, longest, s);
    case Acquiring(_) => SpawnPays(w, universe, longest, s);
    case _ => CheckPays(w, universe, longest, s);
  }

  lemma PopPays(w: World, universe: set<Hash>, longest: nat, s: State)
    requires s.dispatcher.Popping?
    ensures Potential(w, universe, longest, DispatchStep(s)) < Potential(w, universe, longest, s)
  {
    hide FeederCost, WorkerCost, Total;
    if s.queue != [] {
      assert Times(EntryCost(longest), |s.queue|) == EntryCost(longest) + Times(EntryCost(longest), |s.queue| - 1);
    }
  }

  lemma SpawnPays(w: World, universe: set<Hash>, longest: nat, s: State)
    requires s.dispatcher.Acquiring?
    ensures Potential(w, universe, longest, DispatchStep(s)) < Potential(w, universe, longest, s)
  {
    hide FeederCost, Times, Total;
    TotalAppend(s.workers, Worker(s.dispatcher.entry, Starting), WorkerCost(longest));
  }

  lemma CheckPays(w: World, universe: set<Hash>, longest: nat, s: State)
    requires Enabled(w, s, Dispatch) && !s.dispatcher.Popping? && !s.dispatcher.Acquiring?
    ensures Potential(w, universe, longest, DispatchStep(s)) < Potential(w, universe, longest, s)
  {
    hide DispatchStep, DispatcherCost, FeederCost, EntryCost, Times, Total, WorkerCost;
    CheckStep(longest, s);
  }

  lemma CheckStep(longest: nat, s: State)
    requires s.dispatcher.CheckingInput? || s.dispatcher.CheckingFlight? || (s.dispatcher.Waiting? && s.permit)
    ensures var t := DispatchStep(s);
            && t == s.(dispatcher := t.dispatcher, permit := t.permit)
            && DispatcherCost(t.dispatcher, longest) + (if t.permit then 4 else 0)
               < DispatcherCost(s.dispatcher, longest) + if s.permit then 4 else 0
  {
  }

  lemma WorkLowers(w: World, universe: set<Hash>, longest: nat, s: State, i: nat, worker: Worker)
    requires Finite(w, universe, longest) && i < |s.workers| && s.workers[i] == worker && Enabled(w, s, Work(i))
    requires WorkerRight(w, s.seen, worker) && worker.entry.path.hash in universe
    ensures Potential(w, universe, longest, WorkStep(w, s, i)) < Potential(w, universe, longest, s)
  {
    match worker.phase {
      case Scanning(_, _) => ScanPays(w, longest, s, i, worker);
      case Pushing(_, _, _) => PushPays(w, longest, s, i, worker);
      case _ => WorkPays(w, longest, s, i, worker);
    }
    var t := WorkStep(w, s, i);
    assert worker.entry.path.hash in iset h | h in universe;
    PaidLowers(w, universe, longest, s, t, worker.entry.path.hash,
               Stake(longest, s, worker.phase), Stake(longest, t, t.workers[i].phase));
    WorkFrame(w, s, i);
    TotalUpdate(s.workers, i, t.workers[i], WorkerCost(longest));
  }

  /** Every step of every task lowers the potential. */
  lemma StepPays(w: World, universe: set<Hash>, longest: nat, s: State, step: Step)
    requires Invariant(w, s) && Finite(w, universe, longest) && Enabled(w, s, step)
    requires SeenHashes(s) <= iset h | h in universe
    ensures Potential(w, universe, longest, Next(w, s, step)) < Potential(w, universe, longest, s)
  {
    match step
    case Feed => FeedPays(w, universe, longest, s);
    case Dispatch => DispatchPays(w, universe, longest, s);
    case Work(i) =>
      assert WorkerRight(w, s.seen, s.workers[i]) && s.workers[i].entry.path.hash in SeenHashes(s);
      WorkLowers(w, universe, longest, s, i, s.workers[i]);
    case Consume =>
  }

  lemma {:induction false} RunLength(w: World, universe: set<Hash>, longest: nat, s: State, steps: seq<Step>)
    requires Invariant(w, s) && Finite(w, universe, longest) && Legal(w, s, steps)
    requires SeenHashes(s) <= iset h | h in universe
    ensures |steps| <= Potential(w, universe, longest, s)
    decreases |steps|
  {
    if steps == [] {
      PotentialNonNegative(w, universe, longest, s);
    } else {
      StepInvariant(w, s, steps[0]);
      StepWithin(w, s, steps[0], iset h | h in universe);
      StepPays(w, universe, longest, s, steps[0]);
      RunLength(w, universe, longest, Next(w, s, steps[0]), steps[1..]);
    }
  }

  lemma LongestExists(w: World, universe: set<Hash>) returns (longest: nat)
    ensures forall h | h in universe :: |Refs(w, h)| <= longest
  {
    longest := 0;
    var left := universe;
    while left != {}
      invariant left <= universe
      invariant forall h | h in universe - left :: |Refs(w, h)| <= longest
      decreases left
    {
      var h :| h in left;
      left := left - {h};
      longest := if |Refs(w, h)| > longest then |Refs(w, h)| else longest;
    }
  }

  /**
   * Termination: over a finite world no run takes more than a fixed number of steps, whatever the
   * interleaving. With deadlock freedom, every run that keeps going ends complete.
   */
  lemma RunsAreBounded(w: World, universe: set<Hash>) returns (bound: nat)
    requires Closed(w, iset h | h in universe)
    ensures forall steps | Legal(w, Init(w), steps) :: |steps| <= bound
  {
    var longest := LongestExists(w, universe);
    InitInvariant(w);
    PotentialNonNegative(w, universe, longest, Init(w));
    bound := Potential(w, universe, longest, Init(w));
    forall steps | Legal(w, Init(w), steps)
      ensures |steps| <= bound
    {
      RunLength(w, universe, longest, Init(w), steps);
    }
  }
}
