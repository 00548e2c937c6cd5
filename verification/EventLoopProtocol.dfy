/**
 Starting, feeding and stopping the event loop (`handler.go` `do`, `DoTCP`/`DoUDP`/`DoHTTP`;
 `server.go` `Stop`). Senders hold the read lock while they test `active` and send on the unbuffered
 channel; `Stop` takes the write lock, clears `active` and closes the channel; the dispatch loop hands
 each request to an errgroup limited to 100 workers. A waiting writer keeps new readers out, as in
 Go's `RWMutex`. `Stop` runs once per event loop. Runs are arbitrary sequences of enabled actions.
 */
module EventLoopProtocol {
  import opened Text

  const WORKER_LIMIT := 100

  datatype Dispatcher = Receiving | Starting(request: nat) | Exited

  datatype Stopper = NotCalled | AwaitingLock | HoldsLock | Deactivated | Closed | Finished

  datatype State = State(
    arriving: set<nat>,    // requests whose sender is about to take the read lock
    locked: set<nat>,      // sender holds the read lock, about to test `active`
    sending: set<nat>,     // sender blocked on the channel
    leaving: set<nat>,     // sender about to release the read lock
    accepted: set<nat>,    // requests received from the channel so far
    dispatcher: Dispatcher,
    processing: set<nat>,  // requests inside a worker
    finished: set<nat>,    // requests whose worker has returned
    stopper: Stopper,
    active: bool,
    closed: bool,
    panicked: bool)        // a send on the closed channel
  {
    function Readers(): set<nat> { locked + sending + leaving }

    predicate WriterPresent() { !stopper.NotCalled? && !stopper.Finished? }

    predicate WriterInside() { WriterPresent() && !stopper.AwaitingLock? }

    function Seen(): set<nat> { arriving + Readers() + accepted }

    function InHand(): set<nat> { if dispatcher.Starting? then {dispatcher.request} else {} }
  }

  const INIT := State({}, {}, {}, {}, {}, Receiving, {}, {}, NotCalled, true, false, false)

  datatype Action =
    | Arrive(r: nat)          // a new request reaches DoTCP, DoUDP or DoHTTP
    | ReadLock(r: nat)
    | TestActive(r: nat)
    | Send(r: nat)            // the rendezvous of a sender with the dispatch loop
    | ReadUnlock(r: nat)
    | StartWorker             // errGroup.Go gets a free slot
    | WorkerEnds(r: nat)
    | SeeClosed               // the dispatch loop receives from the closed channel
    | CallStop
    | WriteLock
    | Deactivate
    | Close
    | WriteUnlock

  function Step(s: State, a: Action): Option<State> {
    match a
    case Arrive(r) =>
      if r in s.Seen() then None else Some(s.(arriving := s.arriving + {r}))
    case ReadLock(r) =>
      if r in s.arriving && !s.WriterPresent()
      then Some(s.(arriving := s.arriving - {r}, locked := s.locked + {r})) else None
    case TestActive(r) =>
      if r !in s.locked then None
      else if s.active then
        Some(s.(locked := s.locked - {r}, sending := s.sending + {r}, panicked := s.panicked || s.closed))
      else
        Some(s.(locked := s.locked - {r}, leaving := s.leaving + {r}))
    case Send(r) =>
      if r in s.sending && s.dispatcher.Receiving? && !s.closed
      then Some(s.(sending := s.sending - {r}, leaving := s.leaving + {r},
                   accepted := s.accepted + {r}, dispatcher := Starting(r)))
      else None
    case ReadUnlock(r) =>
      if r in s.leaving then Some(s.(leaving := s.leaving - {r})) else None
    case StartWorker =>
      if s.dispatcher.Starting? && |s.processing| < WORKER_LIMIT
      then Some(s.(dispatcher := Receiving, processing := s.processing + {s.dispatcher.request})) else None
    case WorkerEnds(r) =>
      if r in s.processing
      then Some(s.(processing := s.processing - {r}, finished := s.finished + {r})) else None
    case SeeClosed =>
      if s.dispatcher.Receiving? && s.closed then Some(s.(dispatcher := Exited)) else None
    case CallStop =>
      if s.stopper.NotCalled? then Some(s.(stopper := AwaitingLock)) else None
    case WriteLock =>
      if s.stopper.AwaitingLock? && s.Readers() == {} then Some(s.(stopper := HoldsLock)) else None
    case Deactivate =>
      if s.stopper.HoldsLock? then Some(s.(stopper := Deactivated, active := false)) else None
    case Close =>
      if s.stopper.Deactivated?
      then Some(s.(stopper := Closed, closed := true, panicked := s.panicked || s.sending != {})) else None
    case WriteUnlock =>
      if s.stopper.Closed? then Some(s.(stopper := Finished)) else None
  }

  function Exec(s: State, run: seq<Action>): Option<State>
    decreases run
  {
    if run == [] then Some(s)
    else match Step(s, run[0])
      case None => None
      case Some(next) => Exec(next, run[1..])
  }

  // -------- invariant --------

  predicate LockDiscipline(s: State) {
    && (s.WriterInside() ==> s.Readers() == {})
    && (s.active <==> s.stopper.NotCalled? || s.stopper.AwaitingLock? || s.stopper.HoldsLock?)
    && (s.closed <==> s.stopper.Closed? || s.stopper.Finished?)
    && (s.closed ==> s.sending == {})
    && (s.dispatcher.Exited? ==> s.closed)
    && !s.panicked
  }

  /** A sender stands at one place, and is not accepted before its rendezvous. */
  predicate Placed(s: State) {
    && s.arriving !! s.locked && s.arriving !! s.sending && s.arriving !! s.leaving
    && s.locked !! s.sending && s.locked !! s.leaving && s.sending !! s.leaving
    && s.arriving !! s.accepted && s.locked !! s.accepted && s.sending !! s.accepted
  }

  predicate Partition(whole: set<nat>, a: set<nat>, b: set<nat>, c: set<nat>) {
    whole == a + b + c && a !! b && a !! c && b !! c
  }

  /** Every accepted request is in exactly one place: in the dispatcher's hand, in a worker, or done. */
  predicate Accounted(s: State) {
    Partition(s.accepted, s.InHand(), s.processing, s.finished)
  }

  predicate Invariant(s: State) {
    LockDiscipline(s) && Placed(s) && Accounted(s) && |s.processing| <= WORKER_LIMIT
  }

  lemma StepKeepsLockDiscipline(s: State, a: Action)
    requires LockDiscipline(s) && Step(s, a).Some?
    ensures LockDiscipline(Step(s, a).value)
  {
  }

  lemma StepKeepsPlaced(s: State, a: Action)
    requires Placed(s) && Step(s, a).Some?
    ensures Placed(Step(s, a).value)
  {
  }

  lemma StepKeepsAccounted(s: State, a: Action)
    requires Placed(s) && Accounted(s) && Step(s, a).Some?
    ensures Accounted(Step(s, a).value)
  {
    match a {
      case Send(r) => PartitionGrows(s.accepted, s.processing, s.finished, r);
      case StartWorker => PartitionHands(s.accepted, s.dispatcher.request, s.processing, s.finished);
      case WorkerEnds(r) => PartitionEnds(s.accepted, s.InHand(), s.processing, s.finished, r);
      case _ => OthersMoveNoRequest(s, a);
    }
  }

  lemma OthersMoveNoRequest(s: State, a: Action)
    requires Step(s, a).Some? && !a.Send? && !a.StartWorker? && !a.WorkerEnds?
    ensures var s' := Step(s, a).value;
            && s'.accepted == s.accepted && s'.InHand() == s.InHand()
            && s'.processing == s.processing && s'.finished == s.finished
  {
  }

  lemma PartitionGrows(whole: set<nat>, b: set<nat>, c: set<nat>, r: nat)
    requires Partition(whole, {}, b, c) && r !in whole
    ensures Partition(whole + {r}, {r}, b, c)
  {
  }

  lemma PartitionHands(whole: set<nat>, r: nat, b: set<nat>, c: set<nat>)
    requires Partition(whole, {r}, b, c)
    ensures Partition(whole, {}, b + {r}, c)
  {
  }

  lemma PartitionEnds(whole: set<nat>, a: set<nat>, b: set<nat>, c: set<nat>, r: nat)
    requires Partition(whole, a, b, c) && r in b
    ensures Partition(whole, a, b - {r}, c + {r})
  {
  }

  lemma StepKeepsCap(s: State, a: Action)
    requires |s.processing| <= WORKER_LIMIT && Step(s, a).Some?
    ensures |Step(s, a).value.processing| <= WORKER_LIMIT
  {
  }

  lemma StepKeepsInvariant(s: State, a: Action)
    requires Invariant(s) && Step(s, a).Some?
    ensures Invariant(Step(s, a).value)
  {
    StepKeepsLockDiscipline(s, a);
    StepKeepsPlaced(s, a);
    StepKeepsAccounted(s, a);
    StepKeepsCap(s, a);
  }

  lemma {:induction false} RunKeepsInvariant(s: State, run: seq<Action>)
    requires Invariant(s) && Exec(s, run).Some?
    ensures Invariant(Exec(s, run).value)
    decreases run
  {
    if run != [] {
      StepKeepsInvariant(s, run[0]);
      RunKeepsInvariant(Step(s, run[0]).value, run[1..]);
    }
  }

  // -------- safety --------

  /** Nothing is ever sent on the closed channel, and a sender never waits on it. */
  lemma NoSendOnClosedChannel(run: seq<Action>)
    requires Exec(INIT, run).Some?
    ensures var s := Exec(INIT, run).value; !s.panicked && (s.closed ==> s.sending == {})
  {
    RunKeepsInvariant(INIT, run);
  }

  /** Once the dispatch loop has exited, every request it ever received was handed to a worker. */
  lemma AcceptedAreHandedOver(run: seq<Action>)
    requires Exec(INIT, run).Some?
    ensures var s := Exec(INIT, run).value;
            && s.accepted == s.InHand() + s.processing + s.finished
            && (s.dispatcher.Exited? ==> s.accepted == s.processing + s.finished)
            && s.processing !! s.finished
  {
    RunKeepsInvariant(INIT, run);
  }

  /** At most 100 requests are processed at once; `HundredIsReached` shows that 100 can be. */
  lemma AtMostHundredWorkers(run: seq<Action>)
    requires Exec(INIT, run).Some?
    ensures |Exec(INIT, run).value.processing| <= 100
  {
    RunKeepsInvariant(INIT, run);
  }

  lemma ClosedAcceptsNothing(s: State, a: Action)
    requires s.closed && Step(s, a).Some?
    ensures Step(s, a).value.accepted == s.accepted && Step(s, a).value.closed
  {
  }

  /** After the channel is closed nothing more is accepted, in any continuation. */
  lemma {:induction false} NothingAcceptedAfterClose(s: State, run: seq<Action>)
    requires Invariant(s) && s.closed && Exec(s, run).Some?
    ensures Exec(s, run).value.accepted == s.accepted && Exec(s, run).value.closed
    decreases run
  {
    if run != [] {
      StepKeepsInvariant(s, run[0]);
      ClosedAcceptsNothing(s, run[0]);
      NothingAcceptedAfterClose(Step(s, run[0]).value, run[1..]);
    }
  }

  // -------- a waiting Stop gets the lock --------

  /** The work that stands between a waiting `Stop` and the lock; new arrivals add none. */
  function WorkLeft(s: State): nat {
    5 * |s.locked| + 4 * |s.sending| + |s.leaving| + |s.processing| + (if s.dispatcher.Starting? then 2 else 0)
  }

  /** While `Stop` waits, every step other than an arrival leaves less work, or is the lock itself. */
  lemma WaitingStepReducesWork(s: State, a: Action)
    requires Invariant(s) && s.stopper.AwaitingLock? && Step(s, a).Some? && !a.Arrive? && !a.WriteLock?
    ensures Step(s, a).value.stopper.AwaitingLock?
    ensures WorkLeft(Step(s, a).value) < WorkLeft(s)
  {
    if a.StartWorker? || a.WorkerEnds? {
      WorkerStepReducesWork(s, a);
    } else {
      SenderStepReducesWork(s, a);
    }
  }

  lemma WorkerStepReducesWork(s: State, a: Action)
    requires s.InHand() !! s.processing && Step(s, a).Some? && (a.StartWorker? || a.WorkerEnds?)
    ensures Step(s, a).value.stopper == s.stopper && WorkLeft(Step(s, a).value) < WorkLeft(s)
  {
  }

  lemma SenderStepReducesWork(s: State, a: Action)
    requires Placed(s) && !s.closed && s.stopper.AwaitingLock? && Step(s, a).Some?
    requires !a.Arrive? && !a.WriteLock? && !a.StartWorker? && !a.WorkerEnds?
    ensures Step(s, a).value.stopper == s.stopper && WorkLeft(Step(s, a).value) < WorkLeft(s)
  {
  }

  lemma ArrivalAddsNoWork(s: State, r: nat)
    requires Step(s, Arrive(r)).Some?
    ensures WorkLeft(Step(s, Arrive(r)).value) == WorkLeft(s) && Step(s, Arrive(r)).value.stopper == s.stopper
  {
  }

  /** While `Stop` waits, the lock can be taken or some step other than an arrival is enabled. */
  lemma WaitingStopIsNeverStuck(s: State) returns (a: Action)
    requires LockDiscipline(s) && s.stopper.AwaitingLock?
    ensures Step(s, a).Some? && !a.Arrive? && (a.WriteLock? <==> s.Readers() == {})
  {
    if s.leaving != {} {
      var r :| r in s.leaving;
      a := ReadUnlock(r);
      assert r in s.Readers();
    } else if s.locked != {} {
      var r :| r in s.locked;
      a := TestActive(r);
      assert r in s.Readers();
    } else if s.sending != {} {
      var r :| r in s.sending;
      assert r in s.Readers();
      a := SenderIsServed(s, r);
    } else {
      a := WriteLock;
    }
  }

  /** A blocked sender is served: the dispatch loop receives, or starts a worker, or a worker can finish. */
  lemma SenderIsServed(s: State, r: nat) returns (a: Action)
    requires r in s.sending && !s.closed && !s.dispatcher.Exited?
    ensures Step(s, a).Some? && !a.Arrive? && !a.WriteLock?
  {
    if s.dispatcher.Receiving? {
      a := Send(r);
    } else if |s.processing| < WORKER_LIMIT {
      a := StartWorker;
    } else {
      var w :| w in s.processing;
      a := WorkerEnds(w);
    }
  }

  function StepsThatCount(run: seq<Action>): nat {
    if run == [] then 0 else (if run[0].Arrive? then 0 else 1) + StepsThatCount(run[1..])
  }

  predicate NeverLocks(run: seq<Action>) {
    forall i :: 0 <= i < |run| ==> !run[i].WriteLock?
  }

  /** A waiting `Stop` can be overtaken only boundedly often, however requests keep arriving. */
  lemma {:induction false} StopWaitsBoundedly(s: State, run: seq<Action>)
    requires Invariant(s) && s.stopper.AwaitingLock? && NeverLocks(run) && Exec(s, run).Some?
    ensures StepsThatCount(run) <= WorkLeft(s)
    decreases run
  {
    if run != [] {
      StepKeepsInvariant(s, run[0]);
      if run[0].Arrive? {
        ArrivalAddsNoWork(s, run[0].r);
      } else {
        WaitingStepReducesWork(s, run[0]);
      }
      StopWaitsBoundedly(Step(s, run[0]).value, run[1..]);
    }
  }

  /** The guarantee over whole runs: wherever a run has left `Stop` waiting, its wait is bounded and never stuck. */
  lemma StopCompletes(before: seq<Action>, after: seq<Action>) returns (a: Action)
    requires Exec(INIT, before).Some? && Exec(INIT, before).value.stopper.AwaitingLock?
    requires NeverLocks(after) && Exec(Exec(INIT, before).value, after).Some?
    ensures StepsThatCount(after) <= WorkLeft(Exec(INIT, before).value)
    ensures var s := Exec(Exec(INIT, before).value, after).value;
            && s.stopper.AwaitingLock? && Step(s, a).Some? && !a.Arrive?
            && (a.WriteLock? <==> s.Readers() == {})
  {
    RunKeepsInvariant(INIT, before);
    var s := Exec(INIT, before).value;
    StopWaitsBoundedly(s, after);
    RunKeepsInvariant(s, after);
    StaysWaiting(s, after);
    a := WaitingStopIsNeverStuck(Exec(s, after).value);
  }

  lemma {:induction false} StaysWaiting(s: State, run: seq<Action>)
    requires s.stopper.AwaitingLock? && NeverLocks(run) && Exec(s, run).Some?
    ensures Exec(s, run).value.stopper.AwaitingLock?
    decreases run
  {
    if run != [] {
      assert !run[0].WriteLock?;
      StaysWaiting(Step(s, run[0]).value, run[1..]);
    }
  }

  /** From the lock on, `Stop` runs to its end without waiting for anyone. */
  lemma StopFinishesOnceLocked(s: State)
    requires s.stopper.HoldsLock?
    ensures Exec(s, [Deactivate, Close, WriteUnlock]).Some?
    ensures Exec(s, [Deactivate, Close, WriteUnlock]).value.stopper.Finished?
  {
  }

  // -------- after the close everything accepted is finished --------

  /** Steps of the dispatch loop and the workers still to come once the channel is closed. */
  function DrainLeft(s: State): nat {
    |s.processing| + match s.dispatcher { case Receiving => 1 case Starting(_) => 3 case Exited => 0 }
  }

  predicate Drains(a: Action) {
    a.StartWorker? || a.WorkerEnds? || a.SeeClosed?
  }

  lemma ClosedStepDrains(s: State, a: Action)
    requires s.InHand() !! s.processing && s.closed && Step(s, a).Some?
    ensures Drains(a) ==> DrainLeft(Step(s, a).value) < DrainLeft(s)
    ensures !Drains(a) ==> DrainLeft(Step(s, a).value) == DrainLeft(s)
  {
    if Drains(a) {
      DrainStep(s, a);
    } else {
      OthersDrainNothing(s, a);
    }
  }

  lemma DrainStep(s: State, a: Action)
    requires s.InHand() !! s.processing && Step(s, a).Some? && Drains(a)
    ensures DrainLeft(Step(s, a).value) < DrainLeft(s)
  {
    if a.StartWorker? {
      assert s.dispatcher.request in s.InHand();
      assert |s.processing + {s.dispatcher.request}| == |s.processing| + 1;
    } else if a.WorkerEnds? {
      assert |s.processing - {a.r}| == |s.processing| - 1;
    }
  }

  lemma OthersDrainNothing(s: State, a: Action)
    requires s.closed && Step(s, a).Some? && !Drains(a)
    ensures Step(s, a).value.processing == s.processing && Step(s, a).value.dispatcher == s.dispatcher
  {
  }

  function DrainSteps(run: seq<Action>): nat {
    if run == [] then 0 else (if Drains(run[0]) then 1 else 0) + DrainSteps(run[1..])
  }

  lemma {:induction false} DrainIsBounded(s: State, run: seq<Action>)
    requires Invariant(s) && s.closed && Exec(s, run).Some?
    ensures DrainSteps(run) <= DrainLeft(s)
    decreases run
  {
    if run != [] {
      StepKeepsInvariant(s, run[0]);
      ClosedAcceptsNothing(s, run[0]);
      ClosedStepDrains(s, run[0]);
      DrainIsBounded(Step(s, run[0]).value, run[1..]);
    }
  }

  /** One of those steps is enabled until the loop has exited and no request is in a worker. */
  lemma DrainIsNeverStuck(s: State)
    requires s.closed && |s.processing| <= WORKER_LIMIT
    ensures (exists a :: Drains(a) && Step(s, a).Some?) <==> !(s.dispatcher.Exited? && s.processing == {})
  {
    if s.processing != {} {
      var r :| r in s.processing;
      assert Drains(WorkerEnds(r)) && Step(s, WorkerEnds(r)).Some?;
    } else if s.dispatcher.Receiving? {
      assert Drains(SeeClosed) && Step(s, SeeClosed).Some?;
    } else if s.dispatcher.Starting? {
      assert Drains(StartWorker) && Step(s, StartWorker).Some?;
    }
  }

  lemma NothingInFlight(s: State)
    requires Accounted(s) && s.dispatcher.Exited?
    ensures s.processing == {} <==> s.finished == s.accepted
  {
    assert s.accepted == s.processing + s.finished;
    if s.finished == s.accepted {
      assert s.processing <= s.finished;
    }
  }

  /**
   Once the channel is closed, the dispatch loop and the workers have boundedly many steps left, one of them
   is enabled until the loop has exited and every accepted request is finished, and then none is left.
   */
  lemma AcceptedAreFinished(before: seq<Action>, s: State, after: seq<Action>, t: State)
    requires Exec(INIT, before) == Some(s) && s.closed && Exec(s, after) == Some(t)
    ensures DrainSteps(after) <= DrainLeft(s)
    ensures t.accepted == s.accepted
    ensures (exists a :: Drains(a) && Step(t, a).Some?) <==> !(t.dispatcher.Exited? && t.finished == s.accepted)
  {
    RunKeepsInvariant(INIT, before);
    RunKeepsInvariant(s, after);
    DrainIsBounded(s, after);
    NothingAcceptedAfterClose(s, after);
    DrainIsNeverStuck(t);
    if t.dispatcher.Exited? {
      NothingInFlight(t);
    }
  }

  // -------- an active loop takes what it gets --------

  /** Every sender that has come and is not waiting has been accepted. */
  predicate NoneTurnedAway(s: State) {
    s.active ==> s.leaving <= s.accepted
  }

  function Arrived(run: seq<Action>): set<nat> {
    if run == [] then {} else (if run[0].Arrive? then {run[0].r} else {}) + Arrived(run[1..])
  }

  predicate Waiting(s: State, r: nat) {
    r in s.arriving || r in s.locked || r in s.sending
  }

  lemma ActiveStepTurnsNoneAway(s: State, a: Action)
    requires LockDiscipline(s) && NoneTurnedAway(s) && Step(s, a).Some?
    ensures NoneTurnedAway(Step(s, a).value)
  {
  }

  lemma ActiveStepKeepsSender(s: State, a: Action, r: nat)
    requires s.active && (Waiting(s, r) || r in s.accepted) && Step(s, a).Some?
    ensures Waiting(Step(s, a).value, r) || r in Step(s, a).value.accepted
  {
  }

  lemma {:induction false} ActiveRunKeepsSender(s: State, run: seq<Action>, t: State, r: nat)
    requires Exec(s, run) == Some(t) && t.active
    requires Waiting(s, r) || r in s.accepted || r in Arrived(run)
    ensures Waiting(t, r) || r in t.accepted
    decreases run
  {
    if run != [] {
      var s1 := Step(s, run[0]).value;
      OnceActive(s, run, t);
      if Waiting(s, r) || r in s.accepted {
        ActiveStepKeepsSender(s, run[0], r);
      }
      ActiveRunKeepsSender(s1, run[1..], t, r);
    }
  }

  lemma {:induction false} RunTurnsNoneAway(s: State, run: seq<Action>, t: State)
    requires Invariant(s) && NoneTurnedAway(s) && Exec(s, run) == Some(t)
    ensures NoneTurnedAway(t)
    decreases run
  {
    if run != [] {
      StepKeepsInvariant(s, run[0]);
      ActiveStepTurnsNoneAway(s, run[0]);
      RunTurnsNoneAway(Step(s, run[0]).value, run[1..], t);
    }
  }

  lemma {:induction false} OnceActive(s: State, run: seq<Action>, t: State)
    requires Exec(s, run) == Some(t) && t.active
    ensures s.active
    decreases run
  {
    if run != [] {
      OnceActive(Step(s, run[0]).value, run[1..], t);
    }
  }

  /** While the event loop is active no sender goes away unserved: every request that has come waits or is accepted. */
  lemma ActiveTurnsNoneAway(run: seq<Action>, s: State)
    requires Exec(INIT, run) == Some(s) && s.active
    ensures s.leaving <= s.accepted
    ensures forall r :: r in Arrived(run) ==> r in s.arriving + s.locked + s.sending + s.accepted
  {
    RunTurnsNoneAway(INIT, run, s);
    forall r | r in Arrived(run) ensures r in s.arriving + s.locked + s.sending + s.accepted {
      ActiveRunKeepsSender(INIT, run, s, r);
    }
  }

  /** The request is accepted, or its sender holds the read lock of an active loop. */
  predicate Committed(s: State, r: nat) {
    r in s.accepted || (s.active && (r in s.locked || r in s.sending))
  }

  lemma StepKeepsCommitted(s: State, a: Action, r: nat)
    requires LockDiscipline(s) && Committed(s, r) && Step(s, a).Some?
    ensures Committed(Step(s, a).value, r)
  {
    if a.Deactivate? && r !in s.accepted {
      assert r in s.Readers();
    }
  }

  /**
   A sender that holds the read lock while the loop is active is never turned away, whatever `Stop` does:
   after every continuation its request is accepted, or it still holds the lock and the loop is active.
   */
  lemma {:induction false} LockedSenderIsNotTurnedAway(s: State, run: seq<Action>, t: State, r: nat)
    requires Invariant(s) && Committed(s, r) && Exec(s, run) == Some(t)
    ensures Committed(t, r)
    decreases run
  {
    if run != [] {
      StepKeepsInvariant(s, run[0]);
      StepKeepsCommitted(s, run[0], r);
      LockedSenderIsNotTurnedAway(Step(s, run[0]).value, run[1..], t, r);
    }
  }

  /** A blocked sender can be accepted within three steps of the dispatch loop and a worker. */
  lemma BlockedSenderCanBeAccepted(s: State, r: nat) returns (run: seq<Action>, t: State)
    requires Invariant(s) && r in s.sending
    ensures |run| <= 3 && (forall i :: 0 <= i < |run| ==> Serves(run[i]))
    ensures Exec(s, run) == Some(t) && r in t.accepted
  {
    if s.dispatcher.Receiving? {
      run := [Send(r)];
      t := Step(s, Send(r)).value;
      ExecCons(s, Send(r), t, []);
    } else if |s.processing| < WORKER_LIMIT {
      run, t := StartThenSend(s, r);
    } else {
      var w :| w in s.processing;
      var s1 := Step(s, WorkerEnds(w)).value;
      var rest;
      rest, t := StartThenSend(s1, r);
      run := [WorkerEnds(w)] + rest;
      ExecCons(s, WorkerEnds(w), s1, rest);
    }
  }

  lemma StartThenSend(s: State, r: nat) returns (run: seq<Action>, t: State)
    requires r in s.sending && !s.closed && s.dispatcher.Starting? && |s.processing| < WORKER_LIMIT
    ensures |run| == 2 && (forall i :: 0 <= i < |run| ==> Serves(run[i]))
    ensures Exec(s, run) == Some(t) && r in t.accepted
  {
    var s1 := Step(s, StartWorker).value;
    t := Step(s1, Send(r)).value;
    run := [StartWorker] + [Send(r)];
    ExecCons(s1, Send(r), t, []);
    ExecCons(s, StartWorker, s1, [Send(r)]);
  }

  lemma ExecCons(s: State, a: Action, s': State, rest: seq<Action>)
    requires Step(s, a) == Some(s')
    ensures Exec(s, [a] + rest) == Exec(s', rest) && (rest == [] ==> [a] + rest == [a])
  {
    assert ([a] + rest)[1..] == rest;
  }

  /** Steps of the dispatch loop and the workers. */
  predicate Serves(a: Action) {
    a.Send? || a.StartWorker? || a.WorkerEnds?
  }

  function ServingSteps(run: seq<Action>): nat {
    if run == [] then 0 else (if Serves(run[0]) then 1 else 0) + ServingSteps(run[1..])
  }

  function Tests(run: seq<Action>): nat {
    if run == [] then 0 else (if run[0].TestActive? then 1 else 0) + Tests(run[1..])
  }

  /** What dispatch loop and workers still have to do for the senders blocked now. */
  function ServiceLeft(s: State): nat {
    3 * |s.sending| + |s.processing| + (if s.dispatcher.Starting? then 2 else 0)
  }

  lemma ServingStepReduces(s: State, a: Action)
    requires s.InHand() !! s.processing && Serves(a) && Step(s, a).Some?
    ensures ServiceLeft(Step(s, a).value) == ServiceLeft(s) - 1
  {
    if a.StartWorker? {
      assert s.dispatcher.request in s.InHand();
    }
  }

  lemma OtherStepAddsLittle(s: State, a: Action)
    requires !Serves(a) && Step(s, a).Some?
    ensures ServiceLeft(Step(s, a).value) <= ServiceLeft(s) + if a.TestActive? then 3 else 0
  {
  }

  /**
   Service is bounded: dispatch loop and workers take at most the steps the blocked senders call for, plus
   three for each sender that comes after. As one is enabled while a sender is blocked (`SenderIsServed`),
   a sender waits only for those before it and those let in since.
   */
  lemma {:induction false} ServiceIsBounded(s: State, run: seq<Action>, t: State)
    requires Invariant(s) && Exec(s, run) == Some(t)
    ensures ServingSteps(run) + ServiceLeft(t) <= ServiceLeft(s) + 3 * Tests(run)
    decreases run
  {
    if run != [] {
      StepKeepsInvariant(s, run[0]);
      if Serves(run[0]) {
        ServingStepReduces(s, run[0]);
      } else {
        OtherStepAddsLittle(s, run[0]);
      }
      ServiceIsBounded(Step(s, run[0]).value, run[1..], t);
    }
  }

  // -------- the limit is reached --------

  function UpTo(n: nat): (r: set<nat>)
    ensures |r| == n && forall i: nat :: i in r <==> i < n
  {
    if n == 0 then {} else UpTo(n - 1) + {n - 1}
  }

  /** The first n requests are being processed and nothing else goes on. */
  function Busy(n: nat): State {
    INIT.(accepted := UpTo(n), processing := UpTo(n))
  }

  function Serve(r: nat): seq<Action> {
    [Arrive(r), ReadLock(r), TestActive(r), Send(r), ReadUnlock(r), StartWorker]
  }

  lemma OneMoreBusy(n: nat)
    requires n < 100
    ensures Exec(Busy(n), Serve(n)) == Some(Busy(n + 1))
  {
    var s0 := Busy(n);
    var s1 := s0.(arriving := {n});
    var s2 := s0.(locked := {n});
    var s3 := s0.(sending := {n});
    var s4 := s0.(leaving := {n}, accepted := UpTo(n + 1), dispatcher := Starting(n));
    var s5 := s4.(leaving := {});
    assert UpTo(n) + {n} == UpTo(n + 1);
    assert Step(s0, Arrive(n)) == Some(s1);
    assert Step(s1, ReadLock(n)) == Some(s2);
    assert Step(s2, TestActive(n)) == Some(s3);
    assert Step(s3, Send(n)) == Some(s4);
    assert Step(s4, ReadUnlock(n)) == Some(s5);
    assert Step(s5, StartWorker) == Some(Busy(n + 1));
    Chain6(s0, s1, s2, s3, s4, s5, Busy(n + 1), n);
  }

  lemma Chain6(s0: State, s1: State, s2: State, s3: State, s4: State, s5: State, s6: State, n: nat)
    requires Step(s0, Arrive(n)) == Some(s1) && Step(s1, ReadLock(n)) == Some(s2) && Step(s2, TestActive(n)) == Some(s3)
    requires Step(s3, Send(n)) == Some(s4) && Step(s4, ReadUnlock(n)) == Some(s5) && Step(s5, StartWorker) == Some(s6)
    ensures Exec(s0, Serve(n)) == Some(s6)
  {
    var r := Serve(n);
    assert Exec(s6, r[6..]) == Some(s6);
    assert r[5..][0] == StartWorker && r[5..][1..] == r[6..];
    assert Exec(s5, r[5..]) == Some(s6);
    assert r[4..][0] == ReadUnlock(n) && r[4..][1..] == r[5..];
    assert Exec(s4, r[4..]) == Some(s6);
    assert r[3..][0] == Send(n) && r[3..][1..] == r[4..];
    assert Exec(s3, r[3..]) == Some(s6);
    assert r[2..][0] == TestActive(n) && r[2..][1..] == r[3..];
    assert Exec(s2, r[2..]) == Some(s6);
    assert r[1..][0] == ReadLock(n) && r[1..][1..] == r[2..];
    assert Exec(s1, r[1..]) == Some(s6);
  }

  lemma {:induction false} ExecConcat(s: State, a: seq<Action>, m: State, b: seq<Action>)
    requires Exec(s, a) == Some(m)
    ensures Exec(s, a + b) == Exec(m, b)
    decreases a
  {
    if a == [] {
      assert a + b == b;
    } else {
      assert (a + b)[0] == a[0] && (a + b)[1..] == a[1..] + b;
      ExecConcat(Step(s, a[0]).value, a[1..], m, b);
    }
  }

  lemma {:induction false} BusyIsReached(n: nat) returns (run: seq<Action>)
    requires n <= 100
    ensures Exec(INIT, run) == Some(Busy(n))
  {
    if n == 0 {
      run := [];
    } else {
      var before := BusyIsReached(n - 1);
      OneMoreBusy(n - 1);
      run := before + Serve(n - 1);
      ExecConcat(INIT, before, Busy(n - 1), Serve(n - 1));
    }
  }

  /** Some run has 100 requests processed at once. */
  lemma HundredIsReached() returns (run: seq<Action>)
    ensures Exec(INIT, run).Some? && |Exec(INIT, run).value.processing| == 100
  {
    run := BusyIsReached(100);
  }
}
