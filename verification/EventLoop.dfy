/** The two-stage lock and the eventfd wake-up of src/event.cpp, for any number of threads.
    Every step is one call on a mutex or on the eventfd, or one move of `sd_event_run`. */
module EventLoop {
  import opened Wrappers
  import opened Machines

  type Tid = nat

  /** `Runner` is obtain_lock<false>, called by run_one; `Signaller` is obtain_lock<true>. */
  datatype Kind = Runner | Signaller

  datatype Pc =
    | Idle
    | WantStage(kind: Kind)   // waiting for obtain_lock_stage
    | Trying                  // holds the stage, before try_lock
    | Signalling              // try_lock failed, before the write to the eventfd
    | WantLock(kind: Kind)    // holds the stage, blocked on the main lock
    | Locked(kind: Kind)      // holds both
    | Polling                 // run_one, blocked in sd_event_run
    | Acking                  // sd_event_run dispatches run_wakeup
    | Returning               // sd_event_run is done, or runs another handler
    | Working                 // holds the main lock, outside sd_event_run
    | Nested                  // a handler under sd_event_run calls obtain_lock again

  datatype State = State(
    stage: Option<Tid>,
    owner: Option<Tid>,
    count: nat,               // the eventfd counter
    pcs: map<Tid, Pc>
  )

  datatype Step =
    | Call(t: Tid, kind: Kind)
    | TakeStage(t: Tid)
    | TryLock(t: Tid)
    | Signal(t: Tid)          // condition::signal in obtain_lock
    | TakeLock(t: Tid)
    | DropStage(t: Tid)       // return from obtain_lock
    | Wake(t: Tid)            // the eventfd source is picked
    | Ack(t: Tid)             // condition::ack
    | OtherEvent(t: Tid)      // another source, or the timeout
    | Unlock(t: Tid)
    | BreakRun                // event::break_run
    | Reenter(t: Tid)
    | FinishNested(t: Tid)

  const Init := State(None, None, 0, map[])

  function PcOf(s: State, t: Tid): Pc {
    if t in s.pcs then s.pcs[t] else Idle
  }

  function Goto(s: State, t: Tid, pc: Pc): State {
    s.(pcs := s.pcs[t := pc])
  }

  predicate Enabled(s: State, step: Step) {
    match step
    case Call(t, _) => PcOf(s, t) == Idle
    case TakeStage(t) => PcOf(s, t).WantStage? && s.stage == None
    case TryLock(t) => PcOf(s, t) == Trying
    case Signal(t) => PcOf(s, t) == Signalling
    case TakeLock(t) => PcOf(s, t).WantLock? && s.owner == None
    case DropStage(t) => PcOf(s, t).Locked?
    case Wake(t) => PcOf(s, t) == Polling && s.count > 0
    case Ack(t) => PcOf(s, t) == Acking
    case OtherEvent(t) => PcOf(s, t) == Polling
    case Unlock(t) => PcOf(s, t) == Returning || PcOf(s, t) == Working
    case BreakRun => true
    case Reenter(t) => PcOf(s, t) == Returning
    case FinishNested(t) => PcOf(s, t) == Nested && s.stage == None
  }

  function Next(s: State, step: Step): State {
    match step
    case Call(t, kind) => Goto(s, t, WantStage(kind))
    case TakeStage(t) =>
      var pc := PcOf(s, t);
      Goto(s, t, if pc.WantStage? && pc.kind.Signaller? then Trying else WantLock(Runner)).(stage := Some(t))
    case TryLock(t) =>
      if s.owner == None then Goto(s, t, Locked(Signaller)).(owner := Some(t)) else Goto(s, t, Signalling)
    case Signal(t) => Goto(s, t, WantLock(Signaller)).(count := s.count + 1)
    case TakeLock(t) =>
      var pc := PcOf(s, t);
      Goto(s, t, Locked(if pc.WantLock? then pc.kind else Runner)).(owner := Some(t))
    case DropStage(t) =>
      Goto(s, t, if PcOf(s, t) == Locked(Runner) then Polling else Working).(stage := None)
    case Wake(t) => Goto(s, t, Acking)
    case Ack(t) => Goto(s, t, Returning).(count := 0)
    case OtherEvent(t) => Goto(s, t, Returning)
    case Unlock(t) => Goto(s, t, Idle).(owner := None)
    case BreakRun => s.(count := s.count + 1)
    case Reenter(t) => Goto(s, t, Nested)
    case FinishNested(t) => Goto(s, t, Returning)
  }

  // ---------------------------------------------------------------- invariant

  predicate HoldsStage(pc: Pc) {
    pc == Trying || pc == Signalling || pc.WantLock? || pc.Locked?
  }

  predicate HoldsLock(pc: Pc) {
    pc.Locked? || pc == Polling || pc == Acking || pc == Returning || pc == Working || pc == Nested
  }

  /** Past the stage and not yet at the main lock. */
  predicate PastStage(pc: Pc) {
    pc == Trying || pc == Signalling || pc.WantLock?
  }

  /** The two mutexes are held by the threads whose position says so, and a signaller that
      is blocked behind a polling run_one has left the eventfd readable. */
  ghost predicate Inv(s: State) {
    && (forall t: Tid :: HoldsStage(PcOf(s, t)) <==> s.stage == Some(t))
    && (forall t: Tid :: HoldsLock(PcOf(s, t)) <==> s.owner == Some(t))
    && Signalled(s)
  }

  ghost predicate Signalled(s: State) {
    forall t: Tid, u: Tid ::
      PcOf(s, t) == WantLock(Signaller) && PcOf(s, u) == Polling ==> s.count > 0
  }

  lemma StepKeepsInv(s: State, step: Step)
    requires Inv(s) && Enabled(s, step)
    ensures Inv(Next(s, step))
  {
    var r := Next(s, step);
    if step != BreakRun {
      assert forall x: Tid :: x != step.t ==> PcOf(r, x) == PcOf(s, x);
      StepKeepsHolders(s, step);
    }
  }

  lemma StepKeepsHolders(s: State, step: Step)
    requires Inv(s) && Enabled(s, step) && step != BreakRun
    ensures var r := Next(s, step);
            && (forall t: Tid :: HoldsStage(PcOf(r, t)) <==> r.stage == Some(t))
            && (forall t: Tid :: HoldsLock(PcOf(r, t)) <==> r.owner == Some(t))
  {
    var r, t := Next(s, step), step.t;
    assert HoldsStage(PcOf(s, t)) <==> s.stage == Some(t);
    assert HoldsLock(PcOf(s, t)) <==> s.owner == Some(t);
    assert HoldsStage(PcOf(r, t)) <==> r.stage == Some(t);
    assert HoldsLock(PcOf(r, t)) <==> r.owner == Some(t);
    assert forall x: Tid :: x != t ==> PcOf(r, x) == PcOf(s, x);
    assert forall x: Tid :: x != t ==> (r.stage == Some(x) <==> s.stage == Some(x));
    assert forall x: Tid :: x != t ==> (r.owner == Some(x) <==> s.owner == Some(x));
  }

  const machine: Machine<State, Step> := Machine(Enabled, Next)

  lemma RunKeepsInv(s: State, steps: seq<Step>)
    requires Inv(s) && Runs(machine, s, steps)
    ensures Inv(Run(machine, s, steps))
  {
    forall r, step | Inv(r) && machine.enabled(r, step)
      ensures Inv(machine.next(r, step))
    {
      StepKeepsInv(r, step);
    }
    RunKeeps(machine, _ => true, (r: State) => Inv(r), s, steps);
  }

  // ---------------------------------------------------------------- priority

  /** The threads that obtained the main lock during a run, in order. */
  function Acquisitions(s: State, steps: seq<Step>): seq<Tid>
    decreases steps
  {
    if steps == [] then []
    else
      var r := Next(s, steps[0]);
      (if r.owner != s.owner && r.owner.Some? then [r.owner.value] else []) + Acquisitions(r, steps[1..])
  }

  lemma OnlyStageAcquires(s: State, step: Step)
    requires Inv(s) && Enabled(s, step)
    ensures var r := Next(s, step);
            && (r.owner != s.owner && r.owner.Some? ==> r.owner == s.stage)
            && (s.stage.Some? && r.stage != s.stage ==> !PastStage(PcOf(s, s.stage.value)))
            && (s.stage.Some? && PastStage(PcOf(s, s.stage.value)) && r.owner != s.stage ==>
                  PastStage(PcOf(r, s.stage.value)))
  {
    if step != BreakRun {
      assert HoldsStage(PcOf(s, step.t)) <==> s.stage == Some(step.t);
      assert HoldsLock(PcOf(s, step.t)) <==> s.owner == Some(step.t);
    }
  }

  /** A thread past the stage is not overtaken: whatever the others do, the next thread to
      obtain the main lock is that one. */
  lemma {:induction false} NotOvertaken(s: State, steps: seq<Step>, t: Tid)
    requires Inv(s) && Runs(machine, s, steps) && PastStage(PcOf(s, t))
    ensures var a := Acquisitions(s, steps); a != [] ==> a[0] == t
    decreases steps
  {
    if steps != [] {
      var r := Next(s, steps[0]);
      assert s.stage == Some(t);
      OnlyStageAcquires(s, steps[0]);
      StepKeepsInv(s, steps[0]);
      if r.owner == s.owner || r.owner.None? {
        assert HoldsLock(PcOf(s, t)) <==> s.owner == Some(t);
        NotOvertaken(r, steps[1..], t);
      }
    }
  }

  // ---------------------------------------------------------------- progress

  /** How many steps of its own the owner of the main lock still takes to give it up once
      it has been woken. */
  function ToUnlock(pc: Pc): nat {
    match pc
    case Locked(_) => 4
    case Polling => 3
    case Acking => 2
    case Returning => 1
    case Working => 1
    case _ => 0
  }

  function OwnStep(s: State, u: Tid): Step {
    match PcOf(s, u)
    case Locked(_) => DropStage(u)
    case Polling => Wake(u)
    case Acking => Ack(u)
    case _ => Unlock(u)
  }

  /** A signaller that is blocked on the main lock is never stuck: either it can take the
      lock, or the owner has an enabled step that brings it closer to unlocking - unless
      the owner is itself waiting in a nested call. */
  lemma SignallerProgress(s: State, t: Tid)
    requires Inv(s) && PcOf(s, t) == WantLock(Signaller)
    ensures s.owner.None? ==> Enabled(s, TakeLock(t))
    ensures s.owner.Some? && PcOf(s, s.owner.value) != Nested ==>
              var u := s.owner.value;
              && Enabled(s, OwnStep(s, u))
              && var r := Next(s, OwnStep(s, u));
                 r.owner.None? || ToUnlock(PcOf(r, u)) < ToUnlock(PcOf(s, u))
  {
    if s.owner.Some? {
      var u := s.owner.value;
      assert HoldsLock(PcOf(s, u));
      assert PcOf(s, u).Locked? ==> s.stage == Some(u);
      assert HoldsStage(PcOf(s, t));
    }
  }

  /** So there is a short run in which the signaller gets the lock. */
  lemma SignallerGetsLock(s: State, t: Tid) returns (steps: seq<Step>)
    requires Inv(s) && PcOf(s, t) == WantLock(Signaller)
    requires s.owner.Some? ==> PcOf(s, s.owner.value) != Nested
    ensures Runs(machine, s, steps) && |steps| <= 5 && PcOf(Run(machine, s, steps), t) == Locked(Signaller)
  {
    var u := s;
    steps := [];
    while u.owner.Some?
      invariant Inv(u) && PcOf(u, t) == WantLock(Signaller)
      invariant u.owner.Some? ==> PcOf(u, u.owner.value) != Nested
      invariant Runs(machine, s, steps) && Run(machine, s, steps) == u
      invariant |steps| + (if u.owner.Some? then ToUnlock(PcOf(u, u.owner.value)) else 0) <= 4
      decreases if u.owner.Some? then 1 + ToUnlock(PcOf(u, u.owner.value)) else 0
    {
      SignallerProgress(u, t);
      assert HoldsLock(PcOf(u, u.owner.value));
      StepKeepsInv(u, OwnStep(u, u.owner.value));
      steps, u := Extend(machine, s, steps, u, OwnStep(u, u.owner.value));
    }
    steps, u := Extend(machine, s, steps, u, TakeLock(t));
  }

  // ---------------------------------------------------------------- wait-for cycles

  /** The owner of the main lock waits for the stage while the holder of the stage waits
      for the main lock. */
  predicate Cycle(s: State) {
    && s.stage.Some? && s.owner.Some? && s.stage != s.owner
    && PcOf(s, s.stage.value).WantLock? && PcOf(s, s.owner.value) == Nested
  }

  /** No handler calls obtain_lock again. */
  predicate NoReenter(steps: seq<Step>) {
    forall i | 0 <= i < |steps| :: !steps[i].Reenter?
  }

  ghost predicate NobodyNested(s: State) {
    forall t: Tid :: PcOf(s, t) != Nested
  }

  lemma StaysUnnested(s: State, steps: seq<Step>)
    requires NobodyNested(s) && Runs(machine, s, steps) && NoReenter(steps)
    ensures NobodyNested(Run(machine, s, steps))
  {
    forall r, step: Step | NobodyNested(r) && machine.enabled(r, step) && !step.Reenter?
      ensures NobodyNested(machine.next(r, step))
    {
      assert forall t: Tid :: PcOf(Next(r, step), t) == Nested ==> PcOf(r, t) == Nested;
    }
    RunKeeps(machine, (step: Step) => !step.Reenter?, (r: State) => NobodyNested(r), s, steps);
  }

  /** Without re-entry no run reaches a wait-for cycle, and every thread past the stage that
      signals gets the main lock in finitely many steps of the owner. */
  lemma NoCycle(steps: seq<Step>, t: Tid)
    requires Runs(machine, Init, steps) && NoReenter(steps)
    ensures var s := Run(machine, Init, steps);
            && !Cycle(s)
            && (PcOf(s, t) == WantLock(Signaller) ==>
                  Enabled(s, TakeLock(t)) || (s.owner.Some? && Enabled(s, OwnStep(s, s.owner.value))))
  {
    RunKeepsInv(Init, steps);
    StaysUnnested(Init, steps);
    var s := Run(machine, Init, steps);
    if PcOf(s, t) == WantLock(Signaller) {
      SignallerProgress(s, t);
    }
  }

  /** A handler that calls obtain_lock again gets through exactly when nobody stands between
      the stage and the main lock: the owner and whoever holds the stage wait for each other
      for ever. */
  lemma ReentryIffStageFree(s: State, o: Tid)
    requires Inv(s) && PcOf(s, o) == Nested
    ensures s.stage.None? <==> exists steps :: Runs(machine, s, steps) && PcOf(Run(machine, s, steps), o) != Nested
  {
    if s.stage.None? {
      var steps, r := Extend(machine, s, [], s, FinishNested(o));
      assert PcOf(Run(machine, s, steps), o) != Nested;
    } else {
      forall steps | Runs(machine, s, steps)
        ensures PcOf(Run(machine, s, steps), o) == Nested
      {
        NestedForEver(s, s.stage.value, o, steps);
      }
    }
  }

  ghost predicate Deadlocked(s: State, holder: Tid, o: Tid) {
    Inv(s) && s.stage == Some(holder) && PcOf(s, o) == Nested
  }

  lemma NestedForEver(s: State, holder: Tid, o: Tid, steps: seq<Step>)
    requires Deadlocked(s, holder, o) && Runs(machine, s, steps)
    ensures Deadlocked(Run(machine, s, steps), holder, o)
  {
    forall r, step | Deadlocked(r, holder, o) && machine.enabled(r, step)
      ensures Deadlocked(machine.next(r, step), holder, o)
    {
      NestedStays(r, step, holder, o);
    }
    RunKeeps(machine, _ => true, (r: State) => Deadlocked(r, holder, o), s, steps);
  }

  lemma NestedStays(s: State, step: Step, holder: Tid, o: Tid)
    requires Deadlocked(s, holder, o) && Enabled(s, step)
    ensures Deadlocked(Next(s, step), holder, o)
  {
    StepKeepsInv(s, step);
    assert HoldsLock(PcOf(s, o)) && !HoldsStage(PcOf(s, o));
    assert HoldsLock(PcOf(s, holder)) <==> s.owner == Some(holder);
    if step != BreakRun {
      assert HoldsStage(PcOf(s, step.t)) <==> s.stage == Some(step.t);
    }
  }

  /** In particular a cycle is never left. */
  lemma CycleIsForEver(s: State, steps: seq<Step>)
    requires Inv(s) && Cycle(s) && Runs(machine, s, steps)
    ensures var r := Run(machine, s, steps);
            && r.stage == s.stage && r.owner == s.owner && PcOf(r, s.owner.value) == Nested
  {
    var h, o := s.stage.value, s.owner.value;
    NestedForEver(s, h, o, steps);
    assert HoldsLock(PcOf(Run(machine, s, steps), o));
  }

  /** The stage is not recursive, so re-entry can reach a cycle: a handler calls obtain_lock
      while another thread stands between the stage and the main lock. */
  lemma ReentryCanDeadlock() returns (steps: seq<Step>)
    ensures Runs(machine, Init, steps) && Cycle(Run(machine, Init, steps))
  {
    var s;
    steps, s := ReachPolling();
    steps, s := Extend(machine, Init, steps, s, OtherEvent(0));
    steps, s := Extend(machine, Init, steps, s, Call(1, Signaller));
    steps, s := Extend(machine, Init, steps, s, TakeStage(1));
    steps, s := Extend(machine, Init, steps, s, TryLock(1));
    steps, s := Extend(machine, Init, steps, s, Signal(1));
    steps, s := Extend(machine, Init, steps, s, Reenter(0));
  }

  // ---------------------------------------------------------------- more than one runner

  /** Only thread `r` ever calls run_one. */
  predicate OneRunner(steps: seq<Step>, r: Tid) {
    forall i | 0 <= i < |steps| :: CallsAs(steps[i], r)
  }

  predicate CallsAs(step: Step, r: Tid) {
    step.Call? && step.kind.Runner? ==> step.t == r
  }

  predicate IsRunner(pc: Pc) {
    pc == WantStage(Runner) || pc == WantLock(Runner) || pc == Locked(Runner) || pc == Polling || pc == Acking
  }

  ghost predicate OnlyRunner(s: State, r: Tid) {
    forall t: Tid :: IsRunner(PcOf(s, t)) ==> t == r
  }

  lemma RunnersAre(s: State, steps: seq<Step>, r: Tid)
    requires Runs(machine, s, steps) && OneRunner(steps, r) && OnlyRunner(s, r)
    ensures OnlyRunner(Run(machine, s, steps), r)
  {
    forall u, step | OnlyRunner(u, r) && machine.enabled(u, step) && CallsAs(step, r)
      ensures OnlyRunner(machine.next(u, step), r)
    {
      assert forall t: Tid :: IsRunner(PcOf(Next(u, step), t)) ==> IsRunner(PcOf(u, t)) || step == Call(t, Runner);
    }
    RunKeeps(machine, (step: Step) => CallsAs(step, r), (u: State) => OnlyRunner(u, r), s, steps);
  }

  /** With one runner, a thread that waits anywhere in obtain_lock never waits for a
      run_one that nobody is going to wake: the thread at the head of the queue has
      signalled it, or is on its way to do so. */
  lemma PollerIsWoken(steps: seq<Step>, r: Tid, head: Tid)
    requires Runs(machine, Init, steps) && OneRunner(steps, r)
    ensures var s := Run(machine, Init, steps);
            PcOf(s, r) == Polling && s.stage == Some(head) ==>
              s.count > 0 || PcOf(s, head) == Trying || PcOf(s, head) == Signalling
  {
    RunKeepsInv(Init, steps);
    RunnersAre(Init, steps, r);
    var s := Run(machine, Init, steps);
    if PcOf(s, r) == Polling && s.stage == Some(head) {
      PollerIsSignalled(s, r, head);
    }
  }

  lemma PollerIsSignalled(s: State, r: Tid, head: Tid)
    requires Inv(s) && PcOf(s, r) == Polling && s.stage == Some(head)
    requires IsRunner(PcOf(s, head)) ==> head == r
    ensures s.count > 0 || PcOf(s, head) == Trying || PcOf(s, head) == Signalling
  {
    StalledIff(s, r, head);
    assert !HoldsStage(PcOf(s, r));
  }

  /** A poll that nobody has woken while the next in line is a second run_one. */
  predicate Stalled(s: State, r: Tid, head: Tid) {
    PcOf(s, r) == Polling && s.stage == Some(head) && PcOf(s, head) == WantLock(Runner) && s.count == 0
  }

  /** With any number of runners this is the only state in which the next in line has not
      woken the poller and is not about to. */
  lemma StalledIff(s: State, r: Tid, head: Tid)
    requires Inv(s) && PcOf(s, r) == Polling && s.stage == Some(head)
    ensures s.count > 0 || PcOf(s, head) == Trying || PcOf(s, head) == Signalling <==> !Stalled(s, r, head)
  {
    assert HoldsStage(PcOf(s, head)) && !HoldsStage(PcOf(s, r));
    assert HoldsLock(PcOf(s, r)) && head != r;
    assert HoldsLock(PcOf(s, head)) <==> s.owner == Some(head);
    match PcOf(s, head)
    case WantLock(kind) => assert kind.Runner? || s.count > 0;
    case _ =>
  }

  /** Neither another event for thread `r` nor a call of break_run. */
  predicate NoEvent(steps: seq<Step>, r: Tid) {
    BreakRun !in steps && OtherEvent(r) !in steps
  }

  /** The poller returns without any event from outside exactly when it is not stalled. */
  lemma WokenIff(s: State, r: Tid, head: Tid)
    requires Inv(s) && PcOf(s, r) == Polling && s.stage == Some(head)
    ensures !Stalled(s, r, head)
            <==> exists steps ::
                   Runs(machine, s, steps) && NoEvent(steps, r) && PcOf(Run(machine, s, steps), r) != Polling
  {
    if Stalled(s, r, head) {
      forall steps | Runs(machine, s, steps) && NoEvent(steps, r)
        ensures PcOf(Run(machine, s, steps), r) == Polling
      {
        StalledForEver(s, r, head, steps);
      }
    } else {
      var steps := WakingRun(s, r, head);
      assert PcOf(Run(machine, s, steps), r) != Polling;
    }
  }

  lemma StalledForEver(s: State, r: Tid, head: Tid, steps: seq<Step>)
    requires Inv(s) && Stalled(s, r, head) && Runs(machine, s, steps) && NoEvent(steps, r)
    ensures Stalled(Run(machine, s, steps), r, head)
  {
    forall u, step |
      && Inv(u) && Stalled(u, r, head)
      && machine.enabled(u, step) && step != BreakRun && step != OtherEvent(r)
      ensures Inv(machine.next(u, step)) && Stalled(machine.next(u, step), r, head)
    {
      StepKeepsInv(u, step);
      StalledStays(u, step, r, head);
    }
    RunKeeps(machine, (step: Step) => step != BreakRun && step != OtherEvent(r),
             (u: State) => Inv(u) && Stalled(u, r, head), s, steps);
  }

  lemma StalledStays(s: State, step: Step, r: Tid, head: Tid)
    requires Inv(s) && Stalled(s, r, head) && Enabled(s, step) && step != BreakRun && step != OtherEvent(r)
    ensures Stalled(Next(s, step), r, head)
  {
    assert HoldsLock(PcOf(s, r)) && !HoldsStage(PcOf(s, r));
    assert HoldsStage(PcOf(s, step.t)) <==> s.stage == Some(step.t);
  }

  lemma WakingRun(s: State, r: Tid, head: Tid) returns (steps: seq<Step>)
    requires Inv(s) && PcOf(s, r) == Polling && s.stage == Some(head) && !Stalled(s, r, head)
    ensures Runs(machine, s, steps) && NoEvent(steps, r) && PcOf(Run(machine, s, steps), r) != Polling
  {
    StalledIff(s, r, head);
    assert HoldsLock(PcOf(s, r)) && !HoldsStage(PcOf(s, r)) && HoldsStage(PcOf(s, head));
    var u := s;
    steps := [];
    if u.count == 0 {
      if PcOf(u, head) == Trying {
        steps, u := Extend(machine, s, steps, u, TryLock(head));
      }
      steps, u := Extend(machine, s, steps, u, Signal(head));
    }
    steps, u := Extend(machine, s, steps, u, Wake(r));
  }

  /** With two runners it can happen: the second one takes the stage without signalling,
      and a signaller behind it waits for an event that may never come. */
  lemma SecondRunnerCanStall() returns (steps: seq<Step>)
    ensures Runs(machine, Init, steps)
    ensures var s := Run(machine, Init, steps);
            && PcOf(s, 0) == Polling && PcOf(s, 1) == WantLock(Runner) && PcOf(s, 2) == WantStage(Signaller)
            && s.count == 0
  {
    var s;
    steps, s := ReachPolling();
    steps, s := Extend(machine, Init, steps, s, Call(1, Runner));
    steps, s := Extend(machine, Init, steps, s, TakeStage(1));
    steps, s := Extend(machine, Init, steps, s, Call(2, Signaller));
  }

  /** Thread 0 blocks in run_one. */
  lemma ReachPolling() returns (steps: seq<Step>, s: State)
    ensures Runs(machine, Init, steps) && Run(machine, Init, steps) == s
    ensures s == State(None, Some(0), 0, map[0 := Polling])
  {
    steps, s := [], Init;
    steps, s := Extend(machine, Init, steps, s, Call(0, Runner));
    steps, s := Extend(machine, Init, steps, s, TakeStage(0));
    steps, s := Extend(machine, Init, steps, s, TakeLock(0));
    steps, s := Extend(machine, Init, steps, s, DropStage(0));
    assert s.pcs == map[0 := Polling];
  }

  // ---------------------------------------------------------------- break_run

  predicate Readable(s: State, t: Tid) {
    PcOf(s, t) == Polling && s.count > 0
  }

  /** `break_run` lets a polling thread return: its wake-up is enabled, and stays enabled until
      the thread moves, whatever the others do. */
  lemma BreakRunWakes(s: State, t: Tid, step: Step, steps: seq<Step>)
    requires Inv(s) && PcOf(s, t) == Polling && step == BreakRun
    requires Runs(machine, Next(s, step), steps) && Wake(t) !in steps && OtherEvent(t) !in steps
    ensures Enabled(Run(machine, Next(s, step), steps), Wake(t))
  {
    StepKeepsInv(s, step);
    forall r, u |
      && Inv(r) && Readable(r, t)
      && machine.enabled(r, u) && u != Wake(t) && u != OtherEvent(t)
      ensures Inv(machine.next(r, u)) && Readable(machine.next(r, u), t)
    {
      StepKeepsInv(r, u);
      StaysReadable(r, t, u);
    }
    RunKeeps(machine, (u: Step) => u != Wake(t) && u != OtherEvent(t), (r: State) => Inv(r) && Readable(r, t),
             Next(s, step), steps);
  }

  lemma StaysReadable(s: State, t: Tid, step: Step)
    requires Inv(s) && Readable(s, t) && Enabled(s, step) && step != Wake(t) && step != OtherEvent(t)
    ensures Readable(Next(s, step), t)
  {
    assert HoldsLock(PcOf(s, t)) <==> s.owner == Some(t);
    if step != BreakRun {
      assert HoldsLock(PcOf(s, step.t)) <==> s.owner == Some(step.t);
    }
  }

  // ---------------------------------------------------------------- the event object

  ghost predicate Reaches(s: State, r: State) {
    exists steps :: Runs(machine, s, steps) && Run(machine, s, steps) == r
  }

  lemma ReachesItself(s: State)
    ensures Reaches(s, s)
  {
    assert Runs(machine, s, []) && Run(machine, s, []) == s;
  }

  lemma ReachesMore(s: State, r: State, step: Step)
    requires Reaches(s, r) && Enabled(r, step)
    ensures Reaches(s, Next(r, step))
  {
    var steps :| Runs(machine, s, steps) && Run(machine, s, steps) == r;
    RunSnoc(machine, s, steps, step);
  }

  /** Blocked on one of the two mutexes, which another thread holds. */
  predicate Blocked(s: State, t: Tid) {
    || (PcOf(s, t).WantStage? && s.stage.Some? && s.stage != Some(t))
    || (PcOf(s, t).WantLock? && s.owner.Some? && s.owner != Some(t))
  }

  /** What the other threads try to do before the next step of obtain_lock. */
  datatype Gaps = Gaps(
    beforeStage: seq<Step>,
    beforeTry: seq<Step>,
    beforeSignal: seq<Step>,
    beforeLock: seq<Step>
  )

  /** One event loop.  A method is what one thread does; `others` is what the other threads
      try to do between two of its steps. */
  class EventObject {
    var stage: Option<Tid>
    var owner: Option<Tid>
    var count: nat
    var pcs: map<Tid, Pc>

    function Now(): State
      reads this
    {
      State(stage, owner, count, pcs)
    }

    constructor ()
      ensures Now() == Init
    {
      stage, owner, count, pcs := None, None, 0, map[];
    }

    method SignalCondition()
      modifies this`count
      ensures count == old(count) + 1
    {
      count := count + 1;
    }

    /** A read of the eventfd takes all signals at once; it would block on zero. */
    method AckCondition() returns (value: nat)
      requires count > 0
      modifies this`count
      ensures count == 0 && value == old(count)
    {
      value, count := count, 0;
    }

    method BreakPoll()
      requires Inv(Now())
      modifies this`count
      ensures Inv(Now()) && Now() == Next(old(Now()), BreakRun)
    {
      StepKeepsInv(Now(), BreakRun);
      SignalCondition();
    }

    /** The other threads take whichever of these steps they can. */
    method Interfere(t: Tid, others: seq<Step>, ghost start: State)
      requires Inv(Now()) && Reaches(start, Now())
      modifies this
      ensures Inv(Now()) && Reaches(start, Now())
      ensures PcOf(Now(), t) == old(PcOf(Now(), t))
    {
      for i := 0 to |others|
        invariant Inv(Now()) && Reaches(start, Now())
        invariant PcOf(Now(), t) == old(PcOf(Now(), t))
      {
        var step := others[i];
        if (step == BreakRun || step.t != t) && Enabled(Now(), step) {
          StepKeepsInv(Now(), step);
          ReachesMore(start, Now(), step);
          var r := Next(Now(), step);
          stage, owner, count, pcs := r.stage, r.owner, r.count, r.pcs;
        }
      }
    }

    /** `obtain_lock`: in each round the thread goes as far as it can, and the others do what
        they can in between.  It returns with the lock, or still blocked when the rounds are
        over. */
    method ObtainLock(t: Tid, kind: Kind, rounds: seq<Gaps>) returns (locked: bool)
      requires rounds != []
      requires Inv(Now()) && PcOf(Now(), t) == Idle
      modifies this
      ensures Inv(Now()) && Reaches(old(Now()), Now())
      ensures locked ==> owner == Some(t) && stage == None
      ensures locked ==> PcOf(Now(), t) == if kind.Runner? then Polling else Working
      ensures !locked ==> Blocked(Now(), t)
      ensures forall u: Tid :: !locked && kind.Signaller? && PcOf(Now(), t).WantLock? && PcOf(Now(), u) == Polling ==>
                count > 0
    {
      ghost var start := Now();
      ReachesItself(start);
      Moved(start, Call(t, kind));
      pcs := pcs[t := WantStage(kind)];
      locked := false;
      for i := 0 to |rounds|
        invariant Inv(Now()) && Reaches(start, Now()) && !locked
        invariant PcOf(Now(), t) == WantStage(kind) || PcOf(Now(), t) == WantLock(kind)
        invariant i > 0 ==> Blocked(Now(), t)
      {
        locked := Proceed(t, kind, rounds[i], start);
        if locked {
          return;
        }
      }
    }

    /** The thread goes on from where it was blocked. */
    method Proceed(t: Tid, kind: Kind, gaps: Gaps, ghost start: State) returns (locked: bool)
      requires Inv(Now()) && Reaches(start, Now())
      requires PcOf(Now(), t) == WantStage(kind) || PcOf(Now(), t) == WantLock(kind)
      modifies this
      ensures Inv(Now()) && Reaches(start, Now())
      ensures locked ==> owner == Some(t) && stage == None
      ensures locked ==> PcOf(Now(), t) == if kind.Runner? then Polling else Working
      ensures !locked ==> Blocked(Now(), t) && (PcOf(Now(), t) == WantStage(kind) || PcOf(Now(), t) == WantLock(kind))
    {
      if t in pcs && pcs[t].WantStage? {
        Interfere(t, gaps.beforeStage, start);
        if stage.Some? {
          assert HoldsStage(PcOf(Now(), t)) <==> stage == Some(t);
          return false;
        }
        Moved(start, TakeStage(t));
        stage := Some(t);
        pcs := pcs[t := if kind.Signaller? then Trying else WantLock(Runner)];
        if kind.Signaller? {
          TryOrSignal(t, gaps.beforeTry, gaps.beforeSignal, start);
        }
      }
      locked := Settle(t, kind, gaps.beforeLock, start);
    }

    /** The part of `obtain_lock<true>` before its blocking lock. */
    method TryOrSignal(t: Tid, others: seq<Step>, othersLater: seq<Step>, ghost start: State)
      requires Inv(Now()) && Reaches(start, Now()) && PcOf(Now(), t) == Trying
      modifies this
      ensures Inv(Now()) && Reaches(start, Now())
      ensures PcOf(Now(), t) == Locked(Signaller) || PcOf(Now(), t) == WantLock(Signaller)
    {
      Interfere(t, others, start);
      Moved(start, TryLock(t));
      if owner == None {
        owner := Some(t);
        pcs := pcs[t := Locked(Signaller)];
        return;
      }
      pcs := pcs[t := Signalling];
      Interfere(t, othersLater, start);
      Moved(start, Signal(t));
      SignalCondition();
      pcs := pcs[t := WantLock(Signaller)];
    }

    /** Wait for the main lock unless it is held already, then let the stage go. */
    method Settle(t: Tid, kind: Kind, others: seq<Step>, ghost start: State) returns (locked: bool)
      requires Inv(Now()) && Reaches(start, Now())
      requires PcOf(Now(), t) == WantLock(kind) || PcOf(Now(), t) == Locked(kind)
      modifies this
      ensures Inv(Now()) && Reaches(start, Now())
      ensures locked ==> owner == Some(t) && stage == None
      ensures locked ==> PcOf(Now(), t) == if kind.Runner? then Polling else Working
      ensures !locked ==> Blocked(Now(), t) && PcOf(Now(), t) == WantLock(kind)
    {
      Interfere(t, others, start);
      assert HoldsLock(PcOf(Now(), t)) <==> owner == Some(t);
      if owner.Some? && owner != Some(t) {
        return false;
      }
      if owner == None {
        Moved(start, TakeLock(t));
        owner := Some(t);
        pcs := pcs[t := Locked(kind)];
      }
      Moved(start, DropStage(t));
      stage := None;
      pcs := pcs[t := if kind.Runner? then Polling else Working];
      return true;
    }

    /** `run_one` once it has the lock: sd_event_run dispatches `run_wakeup` when the eventfd
        is readable and no other source is picked, and the lock is given back. */
    method RunOne(t: Tid, others: seq<Step>, otherSource: bool) returns (wokenBy: nat)
      requires Inv(Now()) && PcOf(Now(), t) == Polling
      modifies this
      ensures Inv(Now()) && Reaches(old(Now()), Now())
      ensures owner == None && PcOf(Now(), t) == Idle
      ensures wokenBy > 0 ==> count == 0 && !otherSource
      ensures wokenBy == 0 && !otherSource ==> count == 0
    {
      ghost var start := Now();
      ReachesItself(start);
      Interfere(t, others, start);
      wokenBy := Dispatch(t, otherSource, start);
      Moved(start, Unlock(t));
      owner := None;
      pcs := pcs[t := Idle];
    }

    /** `sd_event_run`. */
    method Dispatch(t: Tid, otherSource: bool, ghost start: State) returns (wokenBy: nat)
      requires Inv(Now()) && Reaches(start, Now()) && PcOf(Now(), t) == Polling
      modifies this
      ensures Inv(Now()) && Reaches(start, Now()) && PcOf(Now(), t) == Returning
      ensures wokenBy == if otherSource then 0 else old(count)
      ensures count == if otherSource then old(count) else 0
    {
      wokenBy := 0;
      if count > 0 && !otherSource {
        Moved(start, Wake(t));
        pcs := pcs[t := Acking];
        Moved(start, Ack(t));
        wokenBy := AckCondition();
      } else {
        Moved(start, OtherEvent(t));
      }
      pcs := pcs[t := Returning];
    }

    /** The next step of a run that has come this far. */
    lemma Moved(start: State, step: Step)
      requires Inv(Now()) && Reaches(start, Now()) && Enabled(Now(), step)
      ensures Inv(Next(Now(), step)) && Reaches(start, Next(Now(), step))
    {
      StepKeepsInv(Now(), step);
      ReachesMore(start, Now(), step);
    }
  }
}
