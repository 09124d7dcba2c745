/** The caller/worker handshake of src/async/context.cpp.  The caller runs `run`, the worker
    runs the wait/process loop, and the stopper is whichever thread runs `spawn_complete`
    once a stop was requested.  A step is one critical section, or one access to shared
    state outside the lock. */
module Context {
  import opened Wrappers
  import opened Machines

  /** Operations are numbered in the order in which the worker starts them. */
  type Op = nat

  datatype Worker =
    | LoopTop        // before the test of final_stop
    | Passed         // after it, before start()
    | Starting       // start() called, before process_discard
    | Staging        // nothing processed, before the lock in start()
    | Suspended      // the operation is staged, pending or in the caller's hands
    | Resumable      // completed; queued on the worker's run loop
    | Ending         // saw final_stop, before setting wait_process_stopped
    | Ended

  datatype Caller =
    | Top            // before keep_running
    | Waiting        // in wait_once, before the wait predicate
    | AboutToSleep   // predicate false, lock still held
    | Asleep         // blocked on caller_wait
    | Checking       // lock released, before the test of final_stop and pending
    | InRun          // in run_one
    | Completing(op: Op)   // dbus_event_handle took the pending operation
    | Shutdown       // before the exchange of pending
    | Spinning       // in the loop that looks for a staged operation
    | Stopping(hand: Op)   // before stop()
    | Marking        // after it, before setting wait_process_stopped
    | Joining        // waits for the internal tasks
    | Returned

  datatype Stopper = Unstopped | Finalised | Notified | Broken

  datatype Signal = Completed | Stopped

  datatype State = State(
    staged: Option<Op>,
    pending: Option<Op>,
    finalStop: bool,
    stopped: bool,          // wait_process_stopped
    wakes: nat,             // eventfd counter of the event loop
    worker: Worker,
    caller: Caller,
    stopper: Stopper,
    ops: nat,               // operations started
    log: seq<(Op, Signal)>, // operations completed or stopped, in order
    lateStarts: nat,        // operations started after final_stop was set
    missed: bool            // the stop was notified while the caller was about to sleep
  )

  datatype Step =
    | WTest | WStart | WProcess(more: bool) | WStage | WResume | WEnd
    | CTest | CWait | CSleep | CCheck | CDispatch | CComplete | CWake | COtherEvent
    | CExchange | CSpin | CStop | CMark | CJoin | CRunAgain
    | SFinal | SNotify | SBreak
    | Spurious | OtherSignal

  const Init := State(None, None, false, false, 0, LoopTop, Top, Unstopped, 0, [], 0, false)

  predicate LockFree(s: State) {
    s.caller != AboutToSleep
  }

  predicate Enabled(s: State, step: Step) {
    match step
    case WTest => s.worker == LoopTop
    case WStart => s.worker == Passed
    case WProcess(_) => s.worker == Starting
    case WStage => s.worker == Staging && LockFree(s)
    case WResume => s.worker == Resumable
    case WEnd => s.worker == Ending && LockFree(s)
    case CTest => s.caller == Top
    case CWait => s.caller == Waiting
    case CSleep => s.caller == AboutToSleep
    case CCheck => s.caller == Checking
    case CDispatch => s.caller == InRun
    case CComplete => s.caller.Completing?
    case CWake => s.caller == InRun && s.wakes > 0
    case COtherEvent => s.caller == InRun
    case CExchange => s.caller == Shutdown
    case CSpin => s.caller == Spinning
    case CStop => s.caller.Stopping?
    case CMark => s.caller == Marking
    case CJoin => s.caller == Joining && s.worker == Ended
    case CRunAgain => s.caller == Returned
    case SFinal => s.stopper == Unstopped
    case SNotify => s.stopper == Finalised
    case SBreak => s.stopper == Notified
    case Spurious => s.caller == Asleep
    case OtherSignal => true
  }

  function Awake(c: Caller): Caller {
    if c == Asleep then Waiting else c
  }

  function Next(s: State, step: Step): State {
    match step
    // The worker: wait_process_completion::loop and start.
    case WTest => s.(worker := if s.finalStop then Ending else Passed)
    case WStart =>
      s.(worker := Starting, ops := s.ops + 1, lateStarts := s.lateStarts + if s.finalStop then 1 else 0)
    case WProcess(more) =>
      if more then s.(worker := Resumable, log := s.log + [(Current(s), Completed)])
      else s.(worker := Staging)
    case WStage => s.(worker := Suspended, staged := Some(Current(s)), caller := Awake(s.caller))
    case WResume => s.(worker := LoopTop)
    case WEnd => s.(worker := Ended, stopped := true)
    // The caller: caller_run, wait_once and dbus_event_handle.
    case CTest => s.(caller := if s.finalStop then Shutdown else Waiting)
    case CWait =>
      if s.pending.Some? || s.staged.Some? || s.finalStop then
        var s' := s.(caller := Checking);
        if s.pending.None? then s'.(pending := s.staged, staged := None) else s'
      else s.(caller := AboutToSleep)
    case CSleep => s.(caller := Asleep)
    case CCheck => s.(caller := if !s.finalStop && s.pending.Some? then InRun else Top)
    case CDispatch =>
      (match s.pending
       case Some(op) => s.(pending := None, caller := Completing(op))
       case None => s.(caller := Top))
    case CComplete =>
      s.(caller := Top, worker := Resumable, log := s.log + [(Hand(s), Completed)])
    case CWake => s.(caller := Top, wakes := 0)
    case COtherEvent => s.(caller := Top)
    // The caller: wait_for_wait_process_stopped, and the rest of run.
    case CExchange =>
      (match s.pending
       case Some(op) => s.(pending := None, caller := Stopping(op))
       case None => s.(caller := Spinning))
    case CSpin =>
      if s.stopped then s.(caller := Joining)
      else
        (match s.staged
         case Some(op) => s.(staged := None, caller := Stopping(op))
         case None => s)
    case CStop => s.(caller := Marking, worker := Resumable, log := s.log + [(Hand(s), Stopped)])
    case CMark => s.(caller := Joining, stopped := true)
    case CJoin => s.(caller := Returned)
    case CRunAgain => s.(caller := Top)
    // spawn_complete.
    case SFinal => s.(stopper := Finalised, finalStop := true)
    case SNotify =>
      s.(stopper := Notified, caller := Awake(s.caller), missed := s.missed || s.caller == AboutToSleep)
    case SBreak => s.(stopper := Broken, wakes := s.wakes + 1)
    // Condition variables may wake up by themselves; obtain_lock signals the event loop too.
    case Spurious => s.(caller := Waiting)
    case OtherSignal => s.(wakes := s.wakes + 1)
  }

  /** The operation that the worker is in. */
  function Current(s: State): Op {
    if s.ops == 0 then 0 else s.ops - 1
  }

  function Hand(s: State): Op {
    match s.caller
    case Completing(op) => op
    case Stopping(op) => op
    case _ => 0
  }

  // ---------------------------------------------------------------- one place at a time

  /** The operation is on the worker and not yet completed. */
  predicate Live(w: Worker) {
    w == Starting || w == Staging || w == Suspended
  }

  predicate InHand(s: State) {
    s.caller.Completing? || s.caller.Stopping?
  }

  /** The number of places outside the worker that refer to an operation. */
  function Places(s: State): nat {
    (if s.staged.Some? then 1 else 0) + (if s.pending.Some? then 1 else 0) + (if InHand(s) then 1 else 0)
  }

  /** A suspended operation is staged, pending or in the caller's hands, in exactly one of
      these places; otherwise no place refers to any operation. */
  predicate OnePlace(s: State) {
    && Places(s) == (if s.worker == Suspended then 1 else 0)
    && (s.staged.Some? ==> s.staged.value == Current(s))
    && (s.pending.Some? ==> s.pending.value == Current(s))
    && (InHand(s) ==> Hand(s) == Current(s))
    && (Live(s.worker) ==> s.ops > 0)
  }

  /** Every operation but a live one has been signalled, once, in the order of starting. */
  predicate LogRight(s: State) {
    && |s.log| + (if Live(s.worker) then 1 else 0) == s.ops
    && forall i | 0 <= i < |s.log| :: s.log[i].0 == i
  }

  predicate ShuttingDown(c: Caller) {
    c == Shutdown || c == Spinning || c.Stopping? || c == Marking || c == Joining || c == Returned
  }

  predicate Finishing(w: Worker) {
    w == Resumable || w == LoopTop || w == Ending || w == Ended
  }

  predicate ShutdownRight(s: State) {
    && (s.stopper == Unstopped <==> !s.finalStop)
    && (ShuttingDown(s.caller) ==> s.finalStop)
    && (s.worker == Ending || s.worker == Ended ==> s.finalStop)
    && (s.worker == Ended ==> s.stopped)
    && (s.stopped || s.caller == Marking ==> s.finalStop && Finishing(s.worker))
    && (s.caller == Spinning || s.caller == Marking || s.caller == Joining || s.caller == Returned ==>
          s.pending.None?)
    && (s.caller == Joining ==> s.stopped)
    && (s.caller == Returned ==> s.worker == Ended)
    && (s.lateStarts == 0 || (s.lateStarts == 1 && s.finalStop && s.worker != Passed))
  }

  predicate WakeupsRight(s: State) {
    && (s.caller == Asleep || s.caller == AboutToSleep ==> s.staged.None? && s.pending.None?)
    && (s.caller == InRun ==> s.pending.Some?)
    && (s.stopper == Broken && s.caller == InRun ==> s.wakes > 0)
    && ((s.stopper == Notified || s.stopper == Broken) && (s.caller == Asleep || s.caller == AboutToSleep) ==>
          s.missed)
  }

  predicate Inv(s: State) {
    OnePlace(s) && LogRight(s) && ShutdownRight(s) && WakeupsRight(s)
  }

  // ---------------------------------------------------------------- every step

  predicate IsWorkerStep(step: Step) {
    step.WTest? || step.WStart? || step.WProcess? || step.WStage? || step.WResume? || step.WEnd?
  }

  /** The caller in `caller_run`. */
  predicate IsCallerStep(step: Step) {
    || step.CTest? || step.CWait? || step.CSleep? || step.CCheck? || step.CDispatch? || step.CComplete?
    || step.CWake? || step.COtherEvent?
  }

  /** The caller in the rest of `run`. */
  predicate IsClosingStep(step: Step) {
    step.CExchange? || step.CSpin? || step.CStop? || step.CMark? || step.CJoin? || step.CRunAgain?
  }

  predicate IsOtherStep(step: Step) {
    !IsWorkerStep(step) && !IsCallerStep(step) && !IsClosingStep(step)
  }

  lemma WorkerKeepsPlace(s: State, step: Step)
    requires OnePlace(s) && ShutdownRight(s) && WakeupsRight(s) && Enabled(s, step) && IsWorkerStep(step)
    ensures OnePlace(Next(s, step))
  {
  }

  lemma WorkerKeepsLog(s: State, step: Step)
    requires OnePlace(s) && LogRight(s) && Enabled(s, step) && IsWorkerStep(step)
    ensures LogRight(Next(s, step))
  {
  }

  lemma WorkerKeepsFlags(s: State, step: Step)
    requires OnePlace(s) && ShutdownRight(s) && WakeupsRight(s) && Enabled(s, step) && IsWorkerStep(step)
    ensures ShutdownRight(Next(s, step)) && WakeupsRight(Next(s, step))
  {
  }

  lemma CallerKeepsPlace(s: State, step: Step)
    requires OnePlace(s) && ShutdownRight(s) && WakeupsRight(s) && Enabled(s, step) && IsCallerStep(step)
    ensures OnePlace(Next(s, step))
  {
  }

  lemma CallerKeepsLog(s: State, step: Step)
    requires OnePlace(s) && LogRight(s) && Enabled(s, step) && IsCallerStep(step)
    ensures LogRight(Next(s, step))
  {
  }

  lemma CallerKeepsFlags(s: State, step: Step)
    requires OnePlace(s) && ShutdownRight(s) && WakeupsRight(s) && Enabled(s, step) && IsCallerStep(step)
    ensures ShutdownRight(Next(s, step)) && WakeupsRight(Next(s, step))
  {
  }

  lemma ClosingKeepsPlace(s: State, step: Step)
    requires OnePlace(s) && ShutdownRight(s) && WakeupsRight(s) && Enabled(s, step) && IsClosingStep(step)
    ensures OnePlace(Next(s, step))
  {
  }

  lemma ClosingKeepsLog(s: State, step: Step)
    requires OnePlace(s) && LogRight(s) && Enabled(s, step) && IsClosingStep(step)
    ensures LogRight(Next(s, step))
  {
  }

  lemma ClosingKeepsFlags(s: State, step: Step)
    requires OnePlace(s) && ShutdownRight(s) && WakeupsRight(s) && Enabled(s, step) && IsClosingStep(step)
    ensures ShutdownRight(Next(s, step)) && WakeupsRight(Next(s, step))
  {
  }

  lemma OtherKeepsPlace(s: State, step: Step)
    requires OnePlace(s) && ShutdownRight(s) && WakeupsRight(s) && Enabled(s, step) && IsOtherStep(step)
    ensures OnePlace(Next(s, step))
  {
  }

  lemma OtherKeepsLog(s: State, step: Step)
    requires OnePlace(s) && LogRight(s) && Enabled(s, step) && IsOtherStep(step)
    ensures LogRight(Next(s, step))
  {
  }

  lemma OtherKeepsFlags(s: State, step: Step)
    requires OnePlace(s) && ShutdownRight(s) && WakeupsRight(s) && Enabled(s, step) && IsOtherStep(step)
    ensures ShutdownRight(Next(s, step)) && WakeupsRight(Next(s, step))
  {
  }

  lemma StepKeepsInv(s: State, step: Step)
    requires Inv(s) && Enabled(s, step)
    ensures Inv(Next(s, step)) && (s.finalStop ==> Next(s, step).finalStop)
  {
    if IsWorkerStep(step) {
      WorkerKeepsPlace(s, step);
      WorkerKeepsLog(s, step);
      WorkerKeepsFlags(s, step);
    } else if IsCallerStep(step) {
      CallerKeepsPlace(s, step);
      CallerKeepsLog(s, step);
      CallerKeepsFlags(s, step);
    } else if IsClosingStep(step) {
      ClosingKeepsPlace(s, step);
      ClosingKeepsLog(s, step);
      ClosingKeepsFlags(s, step);
    } else {
      OtherKeepsPlace(s, step);
      OtherKeepsLog(s, step);
      OtherKeepsFlags(s, step);
    }
  }

  const machine: Machine<State, Step> := Machine(Enabled, Next)

  ghost predicate Kept(s: State, r: State) {
    Inv(r) && (s.finalStop ==> r.finalStop)
  }

  lemma RunKeepsInv(s: State, steps: seq<Step>)
    requires Inv(s) && Runs(machine, s, steps)
    ensures Kept(s, Run(machine, s, steps))
  {
    forall r, step | Kept(s, r) && machine.enabled(r, step)
      ensures Kept(s, machine.next(r, step))
    {
      StepKeepsInv(r, step);
    }
    RunKeeps(machine, _ => true, (r: State) => Kept(s, r), s, steps);
  }

  /** In every interleaving: an operation is in one place, staging never overwrites one, and
      each operation gets exactly one completion or stop. */
  lemma OneOperation(steps: seq<Step>)
    requires Runs(machine, Init, steps)
    ensures var s := Run(machine, Init, steps);
            && OnePlace(s)
            && (Enabled(s, WStage) ==> s.staged.None? && s.pending.None?)
            && |s.log| == s.ops - (if Live(s.worker) then 1 else 0)
            && forall i | 0 <= i < |s.log| :: s.log[i].0 == i
  {
    RunKeepsInv(Init, steps);
  }

  /** The caller never sleeps on a hand-off, and never blocks in the event loop after
      `spawn_complete` broke it. */
  lemma NoLostHandOff(steps: seq<Step>)
    requires Runs(machine, Init, steps)
    ensures var s := Run(machine, Init, steps);
            && (s.caller == Asleep ==> s.staged.None? && s.pending.None?)
            && (s.stopper == Broken && s.caller == InRun ==> Enabled(s, CWake))
  {
    RunKeepsInv(Init, steps);
  }

  // ---------------------------------------------------------------- shutdown

  /** How far the worker is from its end, or from staging an operation. */
  function Rank(w: Worker): nat {
    match w
    case Passed => 6
    case Starting => 5
    case Staging => 4
    case Resumable => 3
    case LoopTop => 2
    case Ending => 1
    case Suspended => 0
    case Ended => 0
  }

  function WorkerStep(w: Worker, more: bool): Step {
    match w
    case LoopTop => WTest
    case Passed => WStart
    case Starting => WProcess(more)
    case Staging => WStage
    case Resumable => WResume
    case _ => WEnd
  }

  function WorkerSteps(steps: seq<Step>): nat {
    if steps == [] then 0 else (if IsWorkerStep(steps[0]) then 1 else 0) + WorkerSteps(steps[1..])
  }

  /** While the caller spins, either its next round ends the spin, or the worker has a step;
      every worker step brings it closer, and no other step takes it back. */
  lemma SpinStep(s: State, step: Step)
    requires Inv(s) && s.caller == Spinning
    ensures Rank(s.worker) == 0 ==> Next(s, CSpin).caller != Spinning
    ensures Rank(s.worker) > 0 ==> Enabled(s, WorkerStep(s.worker, true))
    ensures Enabled(s, step) && Next(s, step).caller == Spinning ==>
              Rank(Next(s, step).worker) + (if IsWorkerStep(step) then 1 else 0) <= Rank(s.worker)
  {
  }

  /** The same while the caller waits for the internal tasks: it can go on, or the worker can. */
  lemma JoinStep(s: State, step: Step)
    requires Inv(s) && s.caller == Joining
    ensures Rank(s.worker) == 0 ==> Enabled(s, CJoin)
    ensures Rank(s.worker) > 0 ==> Enabled(s, WorkerStep(s.worker, true))
    ensures Enabled(s, step) && Next(s, step).caller == Joining ==>
              Rank(Next(s, step).worker) + (if IsWorkerStep(step) then 1 else 0) <= Rank(s.worker)
  {
  }

  predicate WaitsForWorker(c: Caller) {
    c == Spinning || c == Joining
  }

  lemma WaitStep(s: State, step: Step)
    requires Inv(s) && Enabled(s, step) && WaitsForWorker(s.caller) && WaitsForWorker(Next(s, step).caller)
    ensures Rank(Next(s, step).worker) + (if IsWorkerStep(step) then 1 else 0) <= Rank(s.worker)
  {
    if s.caller == Joining {
      JoinStep(s, step);
    } else if Next(s, step).caller == Spinning {
      SpinStep(s, step);
    }
  }

  /** Each of the two waits lasts at most six worker steps, and so do both together when the
      spin finds the worker stopped. */
  lemma {:induction false} WaitEnds(s: State, steps: seq<Step>)
    requires Inv(s) && Runs(machine, s, steps)
    requires forall n | 0 <= n <= |steps| :: WaitsForWorker(Run(machine, s, steps[..n]).caller)
    ensures WorkerSteps(steps) + Rank(Run(machine, s, steps).worker) <= Rank(s.worker) <= 6
    decreases steps
  {
    assert steps[..0] == [] && Run(machine, s, steps[..0]) == s;
    if steps != [] {
      var r := Next(s, steps[0]);
      forall n | 0 <= n <= |steps[1..]|
        ensures WaitsForWorker(Run(machine, r, steps[1..][..n]).caller)
      {
        assert steps[..n + 1][0] == steps[0] && steps[..n + 1][1..] == steps[1..][..n];
        assert WaitsForWorker(Run(machine, s, steps[..n + 1]).caller);
      }
      assert steps[1..][..0] == [] && Run(machine, r, steps[1..][..0]) == r;
      WaitStep(s, steps[0]);
      StepKeepsInv(s, steps[0]);
      WaitEnds(r, steps[1..]);
    }
  }

  /** When `run` returns everything is at rest, the worker started at most one operation
      after the final stop, and nothing is staged, started or signalled ever after, even
      when `run` is called again. */
  lemma CleanReturn(before: seq<Step>, after: seq<Step>)
    requires Runs(machine, Init, before) && Run(machine, Init, before).caller == Returned
    requires Runs(machine, Run(machine, Init, before), after)
    ensures var s, r := Run(machine, Init, before), Run(machine, Run(machine, Init, before), after);
            && s.stopped && s.lateStarts <= 1 && |s.log| == s.ops
            && AtRest(r) && r.ops == s.ops && r.log == s.log
  {
    RunKeepsInv(Init, before);
    StaysAtRest(Run(machine, Init, before), after);
  }

  predicate AtRest(s: State) {
    s.staged.None? && s.pending.None? && s.stopped && s.worker == Ended && s.finalStop && !InHand(s)
  }

  ghost predicate RestsLike(s: State, r: State) {
    Inv(r) && AtRest(r) && r.ops == s.ops && r.log == s.log
  }

  lemma StaysAtRest(s: State, steps: seq<Step>)
    requires Inv(s) && AtRest(s) && Runs(machine, s, steps)
    ensures RestsLike(s, Run(machine, s, steps))
  {
    forall r, step | RestsLike(s, r) && machine.enabled(r, step)
      ensures RestsLike(s, machine.next(r, step))
    {
      StepKeepsInv(r, step);
    }
    RunKeeps(machine, _ => true, (r: State) => RestsLike(s, r), s, steps);
  }

  /** At any time, at most one operation was started after the final stop. */
  lemma AtMostOneLateStart(steps: seq<Step>)
    requires Runs(machine, Init, steps)
    ensures Run(machine, Init, steps).lateStarts <= 1
  {
    RunKeepsInv(Init, steps);
  }

  // ---------------------------------------------------------------- the stop notification

  /** `final_stop` is set outside the lock.  Only when the notification falls between the
      caller's test of the predicate and its falling asleep can it be lost: otherwise a
      notified caller is not asleep. */
  lemma StopLostOnlyInWindow(steps: seq<Step>)
    requires Runs(machine, Init, steps)
    ensures var s := Run(machine, Init, steps);
            (s.stopper == Notified || s.stopper == Broken) && s.caller == Asleep ==> s.missed
  {
    RunKeepsInv(Init, steps);
  }

  /** The worker is past its last chance to stage an operation. */
  predicate PastStaging(w: Worker) {
    w == LoopTop || w == Resumable || w == Ending || w == Ended
  }

  /** A caller that sleeps although the stop was notified. */
  predicate Overslept(s: State) {
    s.caller == Asleep && s.finalStop && (s.stopper == Notified || s.stopper == Broken)
  }

  /** Such a caller sleeps for ever exactly when the worker will not stage an operation any
      more.  (Condition variables may also wake up by themselves.) */
  lemma LostIffPastStaging(s: State)
    requires Inv(s) && Overslept(s)
    ensures PastStaging(s.worker)
            <==> forall steps | Runs(machine, s, steps) && Spurious !in steps :: Run(machine, s, steps).caller == Asleep
  {
    if PastStaging(s.worker) {
      forall steps | Runs(machine, s, steps) && Spurious !in steps
        ensures Run(machine, s, steps).caller == Asleep
      {
        SleepsForEver(s, steps);
      }
    } else {
      var steps := WakingRun(s);
      assert Run(machine, s, steps).caller != Asleep;
    }
  }

  lemma SleepsForEver(s: State, steps: seq<Step>)
    requires Overslept(s) && PastStaging(s.worker) && Runs(machine, s, steps) && Spurious !in steps
    ensures var r := Run(machine, s, steps); Overslept(r) && PastStaging(r.worker)
  {
    RunKeeps(machine, (step: Step) => step != Spurious, (r: State) => Overslept(r) && PastStaging(r.worker), s, steps);
  }

  /** The worker stages the operation it is about to start or has started. */
  lemma WakingRun(s: State) returns (steps: seq<Step>)
    requires Inv(s) && Overslept(s) && !PastStaging(s.worker)
    ensures Runs(machine, s, steps) && Spurious !in steps && Run(machine, s, steps).caller != Asleep
  {
    var r := s;
    steps := [];
    if r.worker == Passed {
      steps, r := Extend(machine, s, steps, r, WStart);
    }
    if r.worker == Starting {
      steps, r := Extend(machine, s, steps, r, WProcess(false));
    }
    steps, r := Extend(machine, s, steps, r, WStage);
  }

  /** It does happen: the caller ends up asleep with the worker gone. */
  lemma StopCanBeLost() returns (steps: seq<Step>)
    ensures Runs(machine, Init, steps)
    ensures var s := Run(machine, Init, steps);
            Overslept(s) && PastStaging(s.worker) && s.worker == Ended && s.stopper == Broken
  {
    var s;
    steps, s := ReachWindow();
    steps, s := Extend(machine, Init, steps, s, SFinal);
    steps, s := Extend(machine, Init, steps, s, SNotify);
    steps, s := Extend(machine, Init, steps, s, SBreak);
    steps, s := Extend(machine, Init, steps, s, CSleep);
    steps, s := Extend(machine, Init, steps, s, WTest);
    steps, s := Extend(machine, Init, steps, s, WEnd);
  }

  /** The worker has completed one operation and the caller is about to sleep. */
  lemma ReachWindow() returns (steps: seq<Step>, s: State)
    ensures Runs(machine, Init, steps) && Run(machine, Init, steps) == s
    ensures s == Init.(caller := AboutToSleep, ops := 1, log := [(0, Completed)])
  {
    steps, s := [], Init;
    steps, s := Extend(machine, Init, steps, s, WTest);
    steps, s := Extend(machine, Init, steps, s, WStart);
    steps, s := Extend(machine, Init, steps, s, WProcess(true));
    steps, s := Extend(machine, Init, steps, s, WResume);
    steps, s := Extend(machine, Init, steps, s, CTest);
    steps, s := Extend(machine, Init, steps, s, CWait);
    assert s.log == [(0, Completed)];
  }

  // ---------------------------------------------------------------- the context object

  /** Where the caller is after a round of the spin. */
  function AfterSpin(stop: bool, worker: Option<Op>): Caller {
    if stop then Joining
    else if worker.Some? then Stopping(worker.value)
    else Spinning
  }

  /** The shared fields of the context.  `view` adds the positions of the threads and the
      history; the methods are the critical sections, in the position of their thread. */
  class ContextObject {
    var staged: Option<Op>
    var pending: Option<Op>
    var finalStop: bool
    var waitProcessStopped: bool
    var workerAt: Worker
    var started: nat
    ghost var view: State

    ghost predicate Valid()
      reads this
    {
      && Inv(view)
      && view.staged == staged && view.pending == pending && view.finalStop == finalStop
      && view.stopped == waitProcessStopped && view.worker == workerAt && view.ops == started
    }

    constructor ()
      ensures Valid() && view == Init
    {
      staged, pending, finalStop, waitProcessStopped := None, None, false, false;
      workerAt, started := LoopTop, 0;
      view := Init;
    }

    /** The critical section of `start`, which must not overwrite another operation. */
    method Stage(op: Op)
      requires Valid() && Enabled(view, WStage) && op == Current(view)
      modifies this
      ensures Valid() && view == Next(old(view), WStage)
      ensures old(staged).None? && old(pending).None? && staged == Some(op)
    {
      StepKeepsInv(view, WStage);
      staged := Some(op);
      workerAt := Suspended;
      view := Next(view, WStage);
    }

    /** The end of the worker's loop. */
    method EndLoop()
      requires Valid() && Enabled(view, WEnd)
      modifies this
      ensures Valid() && view == Next(old(view), WEnd)
    {
      StepKeepsInv(view, WEnd);
      waitProcessStopped := true;
      workerAt := Ended;
      view := Next(view, WEnd);
    }

    /** The critical section of `wait_once`: whether the caller goes on instead of sleeping. */
    method TakeStaged() returns (ready: bool)
      requires Valid() && Enabled(view, CWait)
      modifies this
      ensures Valid() && view == Next(old(view), CWait)
      ensures !ready ==> pending.None? && staged.None? && !finalStop
      ensures ready && !finalStop ==> pending.Some? && staged.None?
    {
      StepKeepsInv(view, CWait);
      view := Next(view, CWait);
      ready := pending.Some? || staged.Some? || finalStop;
      if ready && pending.None? {
        pending := staged;
        staged := None;
      }
    }

    /** dbus_event_handle: the operation to complete. */
    method DbusEventHandle() returns (op: Option<Op>)
      requires Valid() && Enabled(view, CDispatch)
      modifies this
      ensures Valid() && view == Next(old(view), CDispatch)
      ensures op == old(pending) && op.Some? && pending.None?
    {
      StepKeepsInv(view, CDispatch);
      view := Next(view, CDispatch);
      op := pending;
      pending := None;
    }

    /** One step of the worker while the caller yields; `more` is what process_discard
        returns. */
    method WorkerMoves(more: bool)
      requires Valid() && view.caller == Spinning && finalStop && !waitProcessStopped && staged.None?
      modifies this
      ensures Valid() && view.caller == Spinning && finalStop
      ensures Rank(workerAt) < Rank(old(workerAt))
      ensures Rank(workerAt) > 0 ==> !waitProcessStopped && staged.None?
    {
      SpinStep(view, WorkerStep(workerAt, more));
      assert Rank(workerAt) > 0;
      StepKeepsInv(view, WorkerStep(workerAt, more));
      view := Next(view, WorkerStep(workerAt, more));
      match workerAt
      case LoopTop => workerAt := Ending;
      case Passed => workerAt, started := Starting, started + 1;
      case Starting => workerAt := if more then Resumable else Staging;
      case Staging =>
        staged := Some(started - 1);
        workerAt := Suspended;
      case Resumable => workerAt := LoopTop;
      case Ending =>
        workerAt := Ended;
        waitProcessStopped := true;
      case Suspended | Ended => assert false;
    }

    /** The worker runs on while the caller yields: at least one step, and as many as it
        likes until it stages or ends. */
    method Yield(moves: seq<bool>)
      requires Valid() && view.caller == Spinning && finalStop && !waitProcessStopped && staged.None?
      requires moves != []
      modifies this
      ensures Valid() && view.caller == Spinning && finalStop
      ensures Rank(workerAt) < Rank(old(workerAt))
    {
      WorkerMoves(moves[0]);
      for i := 1 to |moves|
        invariant Valid() && view.caller == Spinning && finalStop
        invariant Rank(workerAt) < Rank(old(workerAt))
        invariant Rank(workerAt) > 0 ==> !waitProcessStopped && staged.None?
      {
        if workerAt == Suspended || workerAt == Ended {
          break;
        }
        WorkerMoves(moves[i]);
      }
    }

    /** The exchange of `pending` at the start of wait_for_wait_process_stopped. */
    method ExchangePending() returns (worker: Option<Op>)
      requires Valid() && Enabled(view, CExchange)
      modifies this
      ensures Valid() && view == Next(old(view), CExchange) && worker == old(pending)
      ensures finalStop && view.caller == AfterSpin(false, worker)
    {
      StepKeepsInv(view, CExchange);
      view := Next(view, CExchange);
      worker := pending;
      pending := None;
    }

    /** One round of its loop, under the lock. */
    method SpinRound() returns (stop: bool, worker: Option<Op>)
      requires Valid() && Enabled(view, CSpin)
      modifies this
      ensures Valid() && view == Next(old(view), CSpin) && workerAt == old(workerAt)
      ensures stop == waitProcessStopped && (if stop then worker.None? else worker == old(staged))
      ensures finalStop && view.caller == AfterSpin(stop, worker) && (!stop ==> staged.None?)
    {
      StepKeepsInv(view, CSpin);
      view := Next(view, CSpin);
      stop, worker := waitProcessStopped, None;
      if !stop {
        worker := staged;
        staged := None;
      }
    }

    /** The calls of `stop` on the operation found and the flag set after it. */
    method StopWorker(worker: Op)
      requires Valid() && view.caller == Stopping(worker)
      modifies this
      ensures Valid() && view == Next(Next(old(view), CStop), CMark)
      ensures view.log == old(view.log) + [(worker, Stopped)]
      ensures view.caller == Joining
    {
      StepKeepsInv(view, CStop);
      StepKeepsInv(Next(view, CStop), CMark);
      view := Next(Next(view, CStop), CMark);
      workerAt := Resumable;
      waitProcessStopped := true;
    }

    /** wait_for_wait_process_stopped, up to the call of stop: the operation to stop, if any.
        `moves` tells how far the worker gets in each round, and what process_discard
        returns; the loop ends because the worker comes to its end or stages. */
    method FindWorker(moves: nat -> seq<bool>) returns (worker: Option<Op>)
      requires forall round :: moves(round) != []
      requires Valid() && Enabled(view, CExchange)
      modifies this
      ensures Valid() && view.caller == AfterSpin(worker.None?, worker)
    {
      worker := ExchangePending();
      var stop := false;
      var rounds := 0;
      while worker == None && !stop
        invariant Valid() && finalStop
        invariant view.caller == AfterSpin(stop, worker)
        invariant stop ==> worker.None?
        decreases !stop && worker.None?, Rank(workerAt)
      {
        stop, worker := SpinOrYield(moves(rounds));
        rounds := rounds + 1;
      }
    }

    /** A round that finds nothing yields. */
    method SpinOrYield(moves: seq<bool>) returns (stop: bool, worker: Option<Op>)
      requires moves != []
      requires Valid() && Enabled(view, CSpin)
      modifies this
      ensures Valid() && finalStop && view.caller == AfterSpin(stop, worker)
      ensures stop ==> worker.None?
      ensures !stop && worker.None? ==> Rank(workerAt) < Rank(old(workerAt))
    {
      stop, worker := SpinRound();
      if !stop && worker == None {
        Yield(moves);
      }
    }

    /** All of wait_for_wait_process_stopped. */
    method WaitForWaitProcessStopped(moves: nat -> seq<bool>)
      requires forall round :: moves(round) != []
      requires Valid() && Enabled(view, CExchange)
      modifies this
      ensures Valid() && view.caller == Joining
      ensures waitProcessStopped && staged.None? && pending.None?
    {
      var worker := FindWorker(moves);
      if worker.Some? {
        StopWorker(worker.value);
      }
      AtJoining(view);
    }
  }

  lemma AtJoining(s: State)
    requires Inv(s) && s.caller == Joining
    ensures s.stopped && s.staged.None? && s.pending.None?
  {
  }
}
