/**
 * The closure crawl as an interleaving of its tasks: one feeder, one dispatcher, a growing set of
 * workers, and the consumer of the output channel. Every step is one atomic action on shared state
 * (a lock section, an atomic load or add, a notification, a channel operation, one fetch).
 */
module CrawlModel {
  import opened Wrappers
  import opened Bytes
  import opened Files
  import opened StorePaths

  datatype PackageEntry = PackageEntry(path: StorePath, mainProgram: Option<Bytes>)

  datatype SeenEntry = SeenEntry(mainProgram: Option<Bytes>, toplevel: bool)

  datatype ListingItem = ListingItem(path: StorePath, tree: FileTree)

  /** The outcome of one fetch; only a missing document is told apart from other failures. */
  datatype Fetched<+T> = Fetched(value: T) | NotFound | Failed

  /** What a run is given: the input stream, its settings, and what each fetch will answer. */
  datatype World = World(
    input: seq<PackageEntry>,
    requestedJobs: nat,
    shallow: bool,
    narinfo: Hash -> Fetched<seq<StorePath>>,
    listing: Hash -> Fetched<FileTree>)
  {
    function Jobs(): nat {
      if requestedJobs == 0 then 1 else requestedJobs
    }

    function Capacity(): nat {
      Jobs() * 2
    }
  }

  // ---------- the shared state and the program counters ----------

  datatype Feeder =
    | Receiving(next: nat, roots: seq<PackageEntry>)
    | Counted(roots: seq<PackageEntry>)
    | Queued
    | Flagged
    | Exited

  datatype Dispatcher =
    | Popping
    | Acquiring(entry: PackageEntry)
    | CheckingInput
    | CheckingFlight
    | Waiting
    | Stopped

  datatype Phase =
    | Starting
    | FetchingNarinfo(mainProgram: Option<Bytes>)
    | Scanning(mainProgram: Option<Bytes>, refs: seq<StorePath>)
    | Counting(mainProgram: Option<Bytes>, found: StorePath, refs: seq<StorePath>)
    | Pushing(mainProgram: Option<Bytes>, found: StorePath, refs: seq<StorePath>)
    | Notifying(mainProgram: Option<Bytes>, refs: seq<StorePath>)
    | FetchingListing(mainProgram: Option<Bytes>)
    | Leaving(result: Option<ListingItem>)
    | Waking(result: Option<ListingItem>)
    | Sending(result: Option<ListingItem>)
    | Finished

  datatype Worker = Worker(entry: PackageEntry, phase: Phase)

  datatype State = State(
    feeder: Feeder,
    dispatcher: Dispatcher,
    workers: seq<Worker>,
    queue: seq<PackageEntry>,
    seen: map<Hash, SeenEntry>,
    inFlight: int,
    inputDone: bool,
    permit: bool,
    slots: int,
    channel: seq<ListingItem>,
    received: seq<ListingItem>)

  datatype Step = Feed | Dispatch | Work(worker: nat) | Consume

  function Init(w: World): State {
    State(Receiving(0, []), Popping, [], [], map[], 0, false, false, w.Jobs(), [], [])
  }

  /** Whether a task can take its next step now. A task that blocks is not enabled. */
  predicate Enabled(w: World, s: State, step: Step) {
    match step
    case Feed => !s.feeder.Exited?
    case Dispatch =>
      (match s.dispatcher
       case Acquiring(_) => s.slots > 0
       case Waiting => s.permit
       case Stopped => false
       case _ => true)
    case Work(i) =>
      i < |s.workers| &&
      (match s.workers[i].phase
       case Finished => false
       case Sending(result) => result.None? || |s.channel| < w.Capacity()
       case _ => true)
    case Consume => s.channel != []
  }

  function Next(w: World, s: State, step: Step): State
    requires Enabled(w, s, step)
  {
    match step
    case Feed => FeedStep(w, s)
    case Dispatch => DispatchStep(s)
    case Work(i) => WorkStep(w, s, i)
    case Consume => s.(channel := s.channel[1..], received := s.received + [s.channel[0]])
  }

  // ---------- the feeder ----------

  /** Keep the first main program seen for a hash, and whether any mention was a top-level one. */
  function Merge(seen: map<Hash, SeenEntry>, entry: PackageEntry): map<Hash, SeenEntry> {
    var h := entry.path.hash;
    if h in seen then
      var current := seen[h];
      seen[h := SeenEntry(
        if current.mainProgram.Some? then current.mainProgram else entry.mainProgram,
        current.toplevel || entry.path.origin.toplevel)]
    else
      seen[h := SeenEntry(entry.mainProgram, entry.path.origin.toplevel)]
  }

  function FeedStep(w: World, s: State): State
    requires !s.feeder.Exited?
  {
    match s.feeder
    case Receiving(next, roots) =>
      if next < |w.input| then
        var entry := w.input[next];
        s.(feeder := Receiving(next + 1, if entry.path.hash in s.seen then roots else roots + [entry]),
           seen := Merge(s.seen, entry))
      else
        s.(feeder := Counted(roots), inFlight := s.inFlight + |roots|)
    case Counted(roots) => s.(feeder := Queued, queue := s.queue + roots)
    case Queued => s.(feeder := Flagged, inputDone := true)
    case Flagged => s.(feeder := Exited, permit := true)
  }

  // ---------- the dispatcher ----------

  function DispatchStep(s: State): State
    requires !s.dispatcher.Stopped?
  {
    match s.dispatcher
    case Popping =>
      if s.queue == [] then s.(dispatcher := CheckingInput)
      else s.(dispatcher := Acquiring(s.queue[0]), queue := s.queue[1..])
    case Acquiring(entry) =>
      s.(dispatcher := Popping, slots := s.slots - 1, workers := s.workers + [Worker(entry, Starting)])
    case CheckingInput => s.(dispatcher := if s.inputDone then CheckingFlight else Waiting)
    case CheckingFlight => s.(dispatcher := if s.inFlight == 0 then Stopped else Waiting)
    case Waiting => s.(dispatcher := Popping, permit := false)
  }

  // ---------- a worker ----------

  const DOT: Byte := 46
  const BACKSLASH: Byte := 92

  /** A single, safe filename component. */
  predicate IsValidMainProgram(name: Bytes) {
    name != [] && name != [DOT] && name != [DOT, DOT] && SLASH !in name && BACKSLASH !in name && NUL !in name
  }

  function ValidOnly(mainProgram: Option<Bytes>): Option<Bytes> {
    if mainProgram.Some? && IsValidMainProgram(mainProgram.value) then mainProgram else None
  }

  const BIN: Bytes := [98, 105, 110]

  /** A listing with nothing but `/bin/<name>`. */
  function Synthesize(name: Bytes): FileTree {
    DirectoryTree(1, [(BIN, DirectoryTree(1, [(name, RegularTree(0, true))]))])
  }

  function Fallback(path: StorePath, mainProgram: Option<Bytes>): Option<ListingItem> {
    if mainProgram.Some? then Some(ListingItem(path, Synthesize(mainProgram.value))) else None
  }

  function ListingResult(w: World, path: StorePath, mainProgram: Option<Bytes>): Option<ListingItem> {
    match w.listing(path.hash)
    case Fetched(tree) => Some(ListingItem(path, tree))
    case NotFound => Fallback(path, mainProgram)
    case Failed => None
  }

  function SetPhase(s: State, i: nat, phase: Phase): State
    requires i < |s.workers|
  {
    s.(workers := s.workers[i := s.workers[i].(phase := phase)])
  }

  function WorkStep(w: World, s: State, i: nat): (t: State)
    requires i < |s.workers| && !s.workers[i].phase.Finished?
    ensures |t.workers| == |s.workers|
  {
    var worker := s.workers[i];
    var path := worker.entry.path;
    match worker.phase
    case Starting =>
      var own := worker.entry.mainProgram;
      var known := if path.hash in s.seen then s.seen[path.hash].mainProgram else None;
      var mp := ValidOnly(if own.Some? then own else known);
      SetPhase(s, i, if w.shallow then FetchingListing(mp) else FetchingNarinfo(mp))
    case FetchingNarinfo(mp) =>
      (match w.narinfo(path.hash)
       case Fetched(refs) => SetPhase(s, i, Scanning(mp, refs))
       case NotFound => SetPhase(s, i, Leaving(Fallback(path, mp)))
       case Failed => SetPhase(s, i, Leaving(None)))
    case Scanning(mp, refs) =>
      if refs == [] then SetPhase(s, i, FetchingListing(mp))
      else if refs[0].hash in s.seen then SetPhase(s, i, Scanning(mp, refs[1..]))
      else SetPhase(s, i, Counting(mp, refs[0], refs[1..])).(seen := s.seen[refs[0].hash := SeenEntry(None, false)])
    case Counting(mp, found, refs) =>
      SetPhase(s, i, Pushing(mp, found, refs)).(inFlight := s.inFlight + 1)
    case Pushing(mp, found, refs) =>
      SetPhase(s, i, Notifying(mp, refs)).(queue := s.queue + [PackageEntry(found, None)])
    case Notifying(mp, refs) => SetPhase(s, i, Scanning(mp, refs)).(permit := true)
    case FetchingListing(mp) => SetPhase(s, i, Leaving(ListingResult(w, path, mp)))
    case Leaving(result) =>
      SetPhase(s, i, if s.inFlight == 1 then Waking(result) else Sending(result)).(inFlight := s.inFlight - 1)
    case Waking(result) => SetPhase(s, i, Sending(result)).(permit := true)
    case Sending(result) =>
      SetPhase(s, i, Finished).(
        slots := s.slots + 1,
        channel := if result.Some? then s.channel + [result.value] else s.channel)
  }

  // ---------- runs ----------

  /** A run is a list of steps, each enabled where it is taken. */
  ghost predicate Legal(w: World, s: State, steps: seq<Step>)
    decreases |steps|
  {
    steps == [] || (Enabled(w, s, steps[0]) && Legal(w, Next(w, s, steps[0]), steps[1..]))
  }

  ghost function Run(w: World, s: State, steps: seq<Step>): State
    requires Legal(w, s, steps)
    decreases |steps|
  {
    if steps == [] then s else Run(w, Next(w, s, steps[0]), steps[1..])
  }

  /** Nothing is left to do: every task is finished or blocked for good. */
  ghost predicate Quiet(w: World, s: State) {
    forall step :: !Enabled(w, s, step)
  }
}
