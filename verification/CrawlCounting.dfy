/**
 * What the counters of the crawl mean: `in_flight` counts every entry that still has work ahead,
 * the semaphore slots complement the active workers, and no notification is ever lost.
 */
module CrawlCounting {
  import opened Sums
  import opened CrawlModel

  // ---------- conservation ----------

  /** What a worker holds in `in_flight`: itself until it leaves, and an entry counted but not yet pushed. */
  function Flight(worker: Worker): int {
    match worker.phase
    case Pushing(_, _, _) => 2
    case Waking(_) => 0
    case Sending(_) => 0
    case Finished => 0
    case _ => 1
  }

  function Active(worker: Worker): int {
    if worker.phase.Finished? then 0 else 1
  }

  function FeederFlight(feeder: Feeder): int {
    if feeder.Counted? then |feeder.roots| else 0
  }

  /** Every queued entry, the popped one, the unfinished workers, and entries counted before their push. */
  ghost function FlightOf(s: State): int {
    FeederFlight(s.feeder) + |s.queue| + (if s.dispatcher.Acquiring? then 1 else 0) + Total(s.workers, Flight)
  }

  ghost predicate Counts(w: World, s: State) {
    && s.inFlight == FlightOf(s)
    && s.slots >= 0
    && s.slots + Total(s.workers, Active) == w.Jobs()
    && (s.inputDone <==> s.feeder.Flagged? || s.feeder.Exited?)
    && (s.feeder.Receiving? || s.feeder.Counted? ==> s.queue == [] && s.workers == [] && !s.dispatcher.Acquiring?)
  }

  lemma FlightBounds(s: State)
    ensures Total(s.workers, Flight) >= 0 && Total(s.workers, Active) >= 0
    ensures forall i | 0 <= i < |s.workers| :: Total(s.workers, Flight) >= Flight(s.workers[i])
  {
    TotalAtLeast(s.workers, Flight);
    TotalAtLeast(s.workers, Active);
  }

  /** A worker's step changes no phase but its own. */
  lemma WorkFrame(w: World, s: State, i: nat)
    requires Enabled(w, s, Work(i))
    ensures var t := WorkStep(w, s, i);
            && t.workers == s.workers[i := Worker(s.workers[i].entry, t.workers[i].phase)]
            && t.feeder == s.feeder && t.dispatcher == s.dispatcher && t.inputDone == s.inputDone
  {
    var t := WorkStep(w, s, i);
    assert t.workers == SetPhase(s, i, t.workers[i].phase).workers;
  }

  /** A worker's step moves entries between the queue, the workers and the counter without loss. */
  lemma WorkBalance(w: World, s: State, i: nat)
    requires Enabled(w, s, Work(i))
    ensures var t := WorkStep(w, s, i);
            && t.inFlight - |t.queue| - Flight(t.workers[i]) == s.inFlight - |s.queue| - Flight(s.workers[i])
            && (t.queue != s.queue ==> Flight(s.workers[i]) == 2)
  {
    if !s.workers[i].phase.Pushing? {
      QuietBalance(w, s, i);
      hide WorkStep;
    }
  }

  lemma QuietBalance(w: World, s: State, i: nat)
    requires Enabled(w, s, Work(i)) && !s.workers[i].phase.Pushing?
    ensures var t := WorkStep(w, s, i);
            t.queue == s.queue && t.inFlight - Flight(t.workers[i]) == s.inFlight - Flight(s.workers[i])
  {
    if s.workers[i].phase.Leaving? || s.workers[i].phase.Counting? {
    } else {
      QuietFlight(w, s, i);
    }
  }

  lemma QuietFlight(w: World, s: State, i: nat)
    requires Enabled(w, s, Work(i)) && !s.workers[i].phase.Leaving? && !s.workers[i].phase.Counting? && !s.workers[i].phase.Pushing?
    ensures var t := WorkStep(w, s, i);
            t.queue == s.queue && t.inFlight == s.inFlight && Flight(t.workers[i]) == Flight(s.workers[i])
  {
    if s.workers[i].phase.Starting? || s.workers[i].phase.FetchingNarinfo? || s.workers[i].phase.FetchingListing? {
      FetchFlight(w, s, i);
    }
  }

  lemma FetchFlight(w: World, s: State, i: nat)
    requires i < |s.workers|
    requires s.workers[i].phase.Starting? || s.workers[i].phase.FetchingNarinfo? || s.workers[i].phase.FetchingListing?
    ensures var t := WorkStep(w, s, i);
            t.queue == s.queue && t.inFlight == s.inFlight && Flight(t.workers[i]) == Flight(s.workers[i])
  {
    hide ValidOnly, ListingResult;
  }

  lemma WorkSlots(w: World, s: State, i: nat)
    requires Enabled(w, s, Work(i))
    ensures var t := WorkStep(w, s, i);
            && t.slots + Active(t.workers[i]) == s.slots + Active(s.workers[i])
            && t.slots >= s.slots
  {
    if !s.workers[i].phase.Sending? {
      assert WorkStep(w, s, i).slots == s.slots;
    }
  }

  lemma WorkCounts(w: World, s: State, i: nat)
    requires Counts(w, s) && Enabled(w, s, Work(i))
    ensures Counts(w, WorkStep(w, s, i))
  {
    var t := WorkStep(w, s, i);
    WorkFrame(w, s, i);
    WorkBalance(w, s, i);
    WorkSlots(w, s, i);
    TotalUpdate(s.workers, i, t.workers[i], Flight);
    TotalUpdate(s.workers, i, t.workers[i], Active);
  }

  lemma DispatchCounts(w: World, s: State)
    requires Counts(w, s) && Enabled(w, s, Dispatch)
    ensures Counts(w, DispatchStep(s))
  {
    if s.dispatcher.Acquiring? {
      var started := Worker(s.dispatcher.entry, Starting);
      TotalAppend(s.workers, started, Flight);
      TotalAppend(s.workers, started, Active);
    }
  }

  /** Every step keeps the counters exact. */
  lemma CountsKept(w: World, s: State, step: Step)
    requires Counts(w, s) && Enabled(w, s, step)
    ensures Counts(w, Next(w, s, step))
  {
    match step
    case Feed =>
    case Dispatch => DispatchCounts(w, s);
    case Work(i) => WorkCounts(w, s, i);
    case Consume =>
  }

  // ---------- wakeups ----------

  /** Someone is about to notify after making the queue non-empty. */
  ghost predicate PushAnnounced(s: State) {
    s.feeder.Queued? || s.feeder.Flagged? || exists i | 0 <= i < |s.workers| :: s.workers[i].phase.Notifying?
  }

  /** Someone is about to notify after taking the last entry out of flight. */
  ghost predicate EndAnnounced(s: State) {
    s.feeder.Flagged? || exists i | 0 <= i < |s.workers| :: s.workers[i].phase.Waking?
  }

  ghost predicate Awake(s: State) {
    && (s.dispatcher.CheckingInput? || s.dispatcher.CheckingFlight? || s.dispatcher.Waiting? ==>
          s.queue == [] || s.permit || PushAnnounced(s))
    && (s.dispatcher.Waiting? && s.inputDone ==> s.inFlight != 0 || s.permit || EndAnnounced(s))
    && (s.dispatcher.CheckingFlight? ==> s.inputDone)
    && (s.dispatcher.Stopped? ==> s.queue == [] && s.inFlight == 0 && s.inputDone)
  }

  /** What one worker's step does to the announcements. */
  lemma WorkAnnounces(w: World, s: State, i: nat)
    requires Enabled(w, s, Work(i))
    ensures var t := WorkStep(w, s, i);
            && (t.queue != s.queue ==> t.workers[i].phase.Notifying?)
            && (t.inFlight == 0 && s.inFlight != 0 ==> t.workers[i].phase.Waking? || s.inFlight == -1)
            && (s.workers[i].phase.Notifying? || s.workers[i].phase.Waking? ==> t.permit)
            && (s.permit ==> t.permit)
  {
    WorkNotifies(w, s, i);
    WorkLeavesFlight(w, s, i);
    hide WorkStep;
  }

  lemma WorkNotifies(w: World, s: State, i: nat)
    requires Enabled(w, s, Work(i))
    ensures var t := WorkStep(w, s, i);
            && (t.queue != s.queue ==> t.workers[i].phase.Notifying?)
            && (s.workers[i].phase.Notifying? || s.workers[i].phase.Waking? || s.permit ==> t.permit)
  {
  }

  lemma WorkLeavesFlight(w: World, s: State, i: nat)
    requires Enabled(w, s, Work(i))
    ensures var t := WorkStep(w, s, i);
            t.inFlight == 0 && s.inFlight != 0 ==> t.workers[i].phase.Waking? || s.inFlight == -1
  {
  }

  lemma WorkAwake(w: World, s: State, i: nat)
    requires Counts(w, s) && Awake(s) && Enabled(w, s, Work(i))
    ensures Awake(WorkStep(w, s, i))
  {
    var t := WorkStep(w, s, i);
    FlightBounds(s);
    WorkFrame(w, s, i);
    WorkBalance(w, s, i);
    WorkAnnounces(w, s, i);
    if !t.permit {
      if j :| 0 <= j < |s.workers| && s.workers[j].phase.Notifying? {
        assert t.workers[j].phase.Notifying?;
      }
      if j :| 0 <= j < |s.workers| && s.workers[j].phase.Waking? {
        assert t.workers[j].phase.Waking?;
      }
    }
  }

  /** Every step keeps the promise that a waiting dispatcher will be told. */
  lemma AwakeKept(w: World, s: State, step: Step)
    requires Counts(w, s) && Awake(s) && Enabled(w, s, step)
    ensures Awake(Next(w, s, step))
  {
    FlightBounds(s);
    match step
    case Feed =>
    case Dispatch =>
    case Work(i) => WorkAwake(w, s, i);
    case Consume =>
  }

  // ---------- deadlock freedom ----------

  /** The dispatcher has stopped, every worker is done, and the consumer has everything. */
  ghost predicate Completed(s: State) {
    && s.dispatcher.Stopped?
    && s.feeder.Exited?
    && (forall i | 0 <= i < |s.workers| :: s.workers[i].phase.Finished?)
    && s.channel == []
  }

  /**
   * No lost wakeup and no deadlock: as long as anything is unfinished some task can move, so a run
   * that cannot be extended has ended with the dispatcher stopped on an empty queue.
   */
  lemma QuietMeansCompleted(w: World, s: State)
    requires Counts(w, s) && Awake(s) && Quiet(w, s)
    ensures Completed(s)
    ensures s.queue == [] && s.inFlight == 0
  {
    assert !Enabled(w, s, Feed) && !Enabled(w, s, Consume) && !Enabled(w, s, Dispatch);
    forall i | 0 <= i < |s.workers|
      ensures s.workers[i].phase.Finished?
    {
      assert !Enabled(w, s, Work(i));
    }
    if Total(s.workers, Active) != 0 {
      var i := TotalNonZero(s.workers, Active);
    }
    if Total(s.workers, Flight) != 0 {
      var i := TotalNonZero(s.workers, Flight);
    }
  }
}
