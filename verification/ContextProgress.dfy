/** That the caller/worker handshake of `Context` gets on: operations are completed one after
    the other until the final stop, and then `run` returns. */
module ContextProgress {
  import opened Wrappers
  import opened Machines
  import opened Context

  // ---------------------------------------------------------------- after the final stop

  function CallerRank(c: Caller): (n: nat)
    ensures n <= 12
  {
    match c
    case AboutToSleep => 12
    case Asleep => 11
    case Waiting => 10
    case Checking => 9
    case InRun => 8
    case Completing(_) => 7
    case Top => 6
    case Shutdown => 5
    case Spinning => 4
    case Stopping(_) => 3
    case Marking => 2
    case Joining => 1
    case Returned => 0
  }

  function WorkerRank(w: Worker): (n: nat)
    ensures n <= 7
  {
    match w
    case Passed => 7
    case Starting => 6
    case Staging => 5
    case Suspended => 4
    case Resumable => 3
    case LoopTop => 2
    case Ending => 1
    case Ended => 0
  }

  /** How far the two threads still are from the return of `run`. */
  function ToReturn(s: State): nat {
    CallerRank(s.caller) + WorkerRank(s.worker)
  }

  /** A step of one of the two threads, other than an idle round of the spin. */
  predicate Effective(s: State, step: Step) {
    && (IsWorkerStep(step) || IsCallerStep(step) || IsClosingStep(step))
    && !(step.CSpin? && Next(s, step).caller == Spinning)
  }

  lemma WorkerSinks(s: State, step: Step)
    requires Inv(s) && s.finalStop && Enabled(s, step) && IsWorkerStep(step)
    ensures ToReturn(Next(s, step)) < ToReturn(s)
  {
  }

  lemma CallerSinks(s: State, step: Step)
    requires Inv(s) && s.finalStop && Enabled(s, step) && IsCallerStep(step)
    ensures ToReturn(Next(s, step)) < ToReturn(s)
  {
  }

  lemma ClosingSinks(s: State, step: Step)
    requires Inv(s) && s.finalStop && Enabled(s, step) && IsClosingStep(step) && step != CRunAgain
    ensures ToReturn(Next(s, step)) + (if Effective(s, step) then 1 else 0) <= ToReturn(s)
  {
  }

  lemma StepSinks(s: State, step: Step)
    requires Inv(s) && s.finalStop && Enabled(s, step) && step != CRunAgain
    ensures ToReturn(Next(s, step)) + (if Effective(s, step) then 1 else 0) <= ToReturn(s)
  {
    if IsWorkerStep(step) {
      WorkerSinks(s, step);
    } else if IsCallerStep(step) {
      CallerSinks(s, step);
    } else if IsClosingStep(step) {
      ClosingSinks(s, step);
    }
  }

  lemma StepSinksKept(s: State, step: Step)
    requires Inv(s) && s.finalStop && Enabled(s, step) && step != CRunAgain
    ensures Inv(Next(s, step)) && Next(s, step).finalStop
    ensures ToReturn(Next(s, step)) + (if Effective(s, step) then 1 else 0) <= ToReturn(s)
  {
    StepSinks(s, step);
    StepKeepsInv(s, step);
  }

  function Effects(s: State, steps: seq<Step>): nat
    decreases steps
  {
    if steps == [] then 0
    else (if Effective(s, steps[0]) then 1 else 0) + Effects(Next(s, steps[0]), steps[1..])
  }

  /** Whatever the interleaving, after the final stop the two threads take at most nineteen
      steps before `run` returns. */
  lemma {:induction false} ReturnIsNear(s: State, steps: seq<Step>)
    requires Inv(s) && s.finalStop && Runs(machine, s, steps) && CRunAgain !in steps
    ensures Effects(s, steps) + ToReturn(Run(machine, s, steps)) <= ToReturn(s) <= 19
    decreases steps
  {
    if steps != [] {
      StepSinksKept(s, steps[0]);
      ReturnIsNear(Next(s, steps[0]), steps[1..]);
    }
  }

  /** Asleep, or bound to fall asleep, after the notification and with nothing left to be
      staged. */
  predicate Doomed(s: State) {
    && (s.caller == Asleep || s.caller == AboutToSleep)
    && (s.stopper == Notified || s.stopper == Broken) && s.finalStop && PastStaging(s.worker)
  }

  /** Unless it is doomed, a thread or the stopper can always bring `run` closer to its return
      without dooming it. */
  lemma Progress(s: State) returns (step: Step)
    requires Inv(s) && s.finalStop && !Doomed(s) && s.caller != Returned
    ensures Enabled(s, step) && step != Spurious && step != CRunAgain
    ensures ToReturn(Next(s, step)) < ToReturn(s) && !Doomed(Next(s, step))
  {
    step := Closer(s);
    if step == SNotify {
      assert Next(s, step).caller == Waiting;
    } else {
      StepSinks(s, step);
    }
  }

  lemma Closer(s: State) returns (step: Step)
    requires Inv(s) && s.finalStop && !Doomed(s) && s.caller != Returned
    ensures Enabled(s, step) && step != CRunAgain && !Doomed(Next(s, step))
    ensures Effective(s, step) || (step == SNotify && s.caller == Asleep)
  {
    if s.caller == Asleep || s.caller == Spinning || s.caller == Joining {
      step := CloserWaiting(s);
      return;
    }
    match s.caller
    case AboutToSleep => step := CSleep;
    case Waiting => step := CWait;
    case Checking => step := CCheck;
    case InRun => step := COtherEvent;
    case Completing(_) => step := CComplete;
    case Top => step := CTest;
    case Shutdown => step := CExchange;
    case Stopping(_) => step := CStop;
    case _ => step := CMark;
  }

  /** Where the caller waits for somebody else. */
  lemma CloserWaiting(s: State) returns (step: Step)
    requires Inv(s) && s.finalStop && !Doomed(s)
    requires s.caller == Asleep || s.caller == Spinning || s.caller == Joining
    ensures Enabled(s, step) && step != CRunAgain && !Doomed(Next(s, step))
    ensures Effective(s, step) || (step == SNotify && s.caller == Asleep)
  {
    match s.caller
    case Asleep => step := if s.stopper == Finalised then SNotify else WorkerStep(s.worker, false);
    case Spinning => step := if s.stopped || s.staged.Some? then CSpin else WorkerStep(s.worker, true);
    case _ => step := if s.worker == Ended then CJoin else WorkerStep(s.worker, true);
  }

  lemma ReturningRun(s: State) returns (steps: seq<Step>)
    requires Inv(s) && s.finalStop && !Doomed(s)
    ensures Runs(machine, s, steps) && Run(machine, s, steps).caller == Returned
    ensures Spurious !in steps && CRunAgain !in steps && |steps| <= ToReturn(s)
  {
    var u := s;
    steps := [];
    while u.caller != Returned
      invariant Inv(u) && u.finalStop && !Doomed(u)
      invariant Runs(machine, s, steps) && Run(machine, s, steps) == u
      invariant Spurious !in steps && CRunAgain !in steps && |steps| + ToReturn(u) <= ToReturn(s)
      decreases ToReturn(u)
    {
      var step := Progress(u);
      StepKeepsInv(u, step);
      steps, u := Extend(machine, s, steps, u, step);
    }
  }

  lemma DoomedForEver(s: State, steps: seq<Step>)
    requires Doomed(s) && Runs(machine, s, steps) && Spurious !in steps
    ensures Doomed(Run(machine, s, steps))
  {
    RunKeeps(machine, (step: Step) => step != Spurious, (r: State) => Doomed(r), s, steps);
  }

  /** Once the final stop is set `run` can return, in at most nineteen steps, exactly when the
      caller is not doomed. */
  lemma ReturnsIffNotDoomed(before: seq<Step>)
    requires Runs(machine, Init, before) && Run(machine, Init, before).finalStop
    ensures var s := Run(machine, Init, before);
            !Doomed(s)
            <==> exists steps ::
                   Runs(machine, s, steps) && Spurious !in steps && Run(machine, s, steps).caller == Returned
  {
    RunKeepsInv(Init, before);
    var s := Run(machine, Init, before);
    if Doomed(s) {
      forall steps | Runs(machine, s, steps) && Spurious !in steps
        ensures Run(machine, s, steps).caller != Returned
      {
        DoomedForEver(s, steps);
      }
    } else {
      var steps := ReturningRun(s);
      assert Run(machine, s, steps).caller == Returned;
    }
  }

  /** A condition variable that wakes up by itself saves a caller that is doomed and asleep. */
  lemma SpuriousSaves(s: State, step: Step) returns (steps: seq<Step>)
    requires Inv(s) && Doomed(s) && s.caller == Asleep && step == Spurious
    ensures Enabled(s, step) && Runs(machine, Next(s, step), steps)
    ensures Run(machine, Next(s, step), steps).caller == Returned
  {
    StepKeepsInv(s, step);
    steps := ReturningRun(Next(s, step));
  }

  /** A repeated `run` starts over, and returns again. */
  lemma RunAgainReturns(s: State, step: Step) returns (steps: seq<Step>)
    requires Inv(s) && s.caller == Returned && step == CRunAgain
    ensures Enabled(s, step) && Next(s, step).caller == Top
    ensures Runs(machine, Next(s, step), steps) && Run(machine, Next(s, step), steps).caller == Returned
    ensures |steps| <= ToReturn(Next(s, step))
  {
    StepKeepsInv(s, step);
    steps := ReturningRun(Next(s, step));
  }

  ghost predicate StartsLike(s: State, r: State) {
    && Inv(r) && r.finalStop
    && r.ops + (if r.worker == Passed then 1 else 0) <= s.ops + (if s.worker == Passed then 1 else 0)
  }

  /** After the final stop at most one operation is started, and only by a worker that is past
      its test. */
  lemma StartsAfterStop(s: State, steps: seq<Step>)
    requires Inv(s) && s.finalStop && Runs(machine, s, steps)
    ensures Run(machine, s, steps).ops <= s.ops + if s.worker == Passed then 1 else 0
  {
    forall r, step | StartsLike(s, r) && machine.enabled(r, step)
      ensures StartsLike(s, machine.next(r, step))
    {
      StepKeepsInv(r, step);
    }
    RunKeeps(machine, _ => true, (r: State) => StartsLike(s, r), s, steps);
  }

  ghost predicate CountsLike(s: State, r: State) {
    r.finalStop && r.ops - r.lateStarts == s.ops - s.lateStarts
  }

  /** What `lateStarts` counts: none before the final stop, and after it every start. */
  lemma LateStartsCount(before: seq<Step>, after: seq<Step>)
    requires Runs(machine, Init, before) && Runs(machine, Run(machine, Init, before), after)
    ensures var s := Run(machine, Init, before);
            if s.finalStop then
              Run(machine, s, after).lateStarts - s.lateStarts == Run(machine, s, after).ops - s.ops
            else s.lateStarts == 0
  {
    RunKeepsInv(Init, before);
    var s := Run(machine, Init, before);
    if s.finalStop {
      RunCounts(s, after);
    }
  }

  lemma RunCounts(s: State, steps: seq<Step>)
    requires s.finalStop && Runs(machine, s, steps)
    ensures CountsLike(s, Run(machine, s, steps))
  {
    forall r, step | CountsLike(s, r) && machine.enabled(r, step)
      ensures CountsLike(s, machine.next(r, step))
    {
      StepCounts(s, r, step);
    }
    RunKeeps(machine, _ => true, (r: State) => CountsLike(s, r), s, steps);
  }

  lemma StepCounts(s: State, r: State, step: Step)
    requires CountsLike(s, r) && Enabled(r, step)
    ensures CountsLike(s, Next(r, step))
  {
  }

  predicate NotMissedYet(s: State) {
    s.missed ==> s.stopper == Notified || s.stopper == Broken
  }

  /** What `missed` tells: the stop was notified while the caller was about to sleep. */
  lemma MissedIffAboutToSleep(before: seq<Step>, step: Step)
    requires Runs(machine, Init, before) && step == SNotify && Enabled(Run(machine, Init, before), step)
    ensures Next(Run(machine, Init, before), step).missed <==> Run(machine, Init, before).caller == AboutToSleep
  {
    forall r, t | NotMissedYet(r) && machine.enabled(r, t)
      ensures NotMissedYet(machine.next(r, t))
    {
      StepKeepsMissed(r, t);
    }
    RunKeeps(machine, _ => true, (r: State) => NotMissedYet(r), Init, before);
  }

  lemma StepKeepsMissed(s: State, step: Step)
    requires NotMissedYet(s) && Enabled(s, step)
    ensures NotMissedYet(Next(s, step))
  {
  }

  predicate AwakeAfterNotify(s: State) {
    s.finalStop && (s.stopper == Notified || s.stopper == Broken) && s.caller != Asleep && s.caller != AboutToSleep
  }

  /** A caller that is not about to sleep when the stop is notified never sleeps again. */
  lemma NotifiedStaysAwake(s: State, step: Step, steps: seq<Step>)
    requires Inv(s) && step == SNotify && Enabled(s, step) && s.caller != AboutToSleep
    requires Runs(machine, Next(s, step), steps)
    ensures AwakeAfterNotify(Run(machine, Next(s, step), steps))
  {
    forall r, t | AwakeAfterNotify(r) && machine.enabled(r, t)
      ensures AwakeAfterNotify(machine.next(r, t))
    {
      StepStaysAwake(r, t);
    }
    RunKeeps(machine, _ => true, (r: State) => AwakeAfterNotify(r), Next(s, step), steps);
  }

  lemma StepStaysAwake(s: State, step: Step)
    requires AwakeAfterNotify(s) && Enabled(s, step)
    ensures AwakeAfterNotify(Next(s, step))
  {
  }

  // ---------------------------------------------------------------- before it

  /** A caller that has found a pending operation enters the event loop with it. */
  lemma PendingIsPolled(s: State, step: Step)
    requires s.caller == Checking && s.pending.Some? && !s.finalStop && step == CCheck
    ensures Enabled(s, step) && Next(s, step) == s.(caller := InRun)
  {
  }

  function ToCompletion(s: State): nat {
    match s.caller
    case Completing(_) => 1
    case InRun => 2
    case Checking => if s.pending.Some? then 3 else 6
    case Waiting => 4
    case Top => 5
    case _ => 0
  }

  /** A suspended operation can be completed, by the caller alone and in a few steps. */
  lemma OperationCompletes(s: State) returns (steps: seq<Step>)
    requires Inv(s) && !s.finalStop && s.worker == Suspended
    ensures Runs(machine, s, steps) && |steps| <= 6 && forall step | step in steps :: IsCallerStep(step)
    ensures var r := Run(machine, s, steps);
            && r.log == s.log + [(Current(s), Completed)] && r.worker == Resumable
            && r.ops == s.ops && !r.finalStop
  {
    var u := s;
    steps := [];
    while u.worker == Suspended
      invariant Inv(u) && !u.finalStop && u.ops == s.ops
      invariant if u.worker == Suspended then u.log == s.log
                else u.worker == Resumable && u.log == s.log + [(Current(s), Completed)]
      invariant Runs(machine, s, steps) && Run(machine, s, steps) == u
      invariant forall step | step in steps :: IsCallerStep(step)
      invariant |steps| + (if u.worker == Suspended then ToCompletion(u) else 0) <= 6
      decreases if u.worker == Suspended then 1 + ToCompletion(u) else 0
    {
      var step := TowardsCompletion(u);
      StepKeepsInv(u, step);
      steps, u := Extend(machine, s, steps, u, step);
    }
  }

  lemma TowardsCompletion(s: State) returns (step: Step)
    requires Inv(s) && !s.finalStop && s.worker == Suspended
    ensures Enabled(s, step) && IsCallerStep(step)
    ensures var r := Next(s, step);
            && r.ops == s.ops && !r.finalStop && ToCompletion(s) > 0
            && (if r.worker == Suspended then r.log == s.log && ToCompletion(r) < ToCompletion(s)
                else r.worker == Resumable && r.log == s.log + [(Current(s), Completed)])
  {
    match s.caller
    case Completing(_) => step := CComplete;
    case InRun => step := CDispatch;
    case Checking => step := CCheck;
    case Waiting => step := CWait;
    case _ => step := CTest;
  }

  /** Until the final stop there is always another operation to come, and all before it are
      signalled. */
  lemma GoesOn(s: State) returns (steps: seq<Step>)
    requires Inv(s) && !s.finalStop
    ensures Runs(machine, s, steps)
    ensures var r := Run(machine, s, steps);
            r.ops == s.ops + 1 && r.worker == Starting && |r.log| == s.ops && !r.finalStop
  {
    var u;
    steps, u := ToResumable(s);
    var step := WResume;
    if u.worker == Resumable {
      steps, u := Go(s, steps, u, step);
    }
    step := WTest;
    if u.worker == LoopTop {
      steps, u := Go(s, steps, u, step);
    }
    step := WStart;
    steps, u := Go(s, steps, u, step);
  }

  /** The operation that is under way, if any, comes to its end. */
  lemma ToResumable(s: State) returns (steps: seq<Step>, u: State)
    requires Inv(s) && !s.finalStop
    ensures Runs(machine, s, steps) && Run(machine, s, steps) == u && Inv(u) && !u.finalStop && u.ops == s.ops
    ensures u.worker == Resumable || u.worker == LoopTop || u.worker == Passed
  {
    steps, u := [], s;
    if u.worker == Starting {
      steps, u := Go(s, steps, u, WProcess(true));
    } else if u.worker == Staging || u.worker == Suspended {
      if u.worker == Staging && u.caller == AboutToSleep {
        steps, u := Go(s, steps, u, CSleep);
      }
      if u.worker == Staging {
        steps, u := Go(s, steps, u, WStage);
      }
      var more := OperationCompletes(u);
      RunConcat(machine, s, steps, more);
      RunKeepsInv(u, more);
      steps, u := steps + more, Run(machine, u, more);
    }
  }

  lemma Go(s: State, steps: seq<Step>, u: State, step: Step) returns (more: seq<Step>, r: State)
    requires Runs(machine, s, steps) && Run(machine, s, steps) == u && Inv(u) && Enabled(u, step)
    ensures r == Next(u, step) && Inv(r) && Runs(machine, s, more) && Run(machine, s, more) == r
  {
    StepKeepsInv(u, step);
    more, r := Extend(machine, s, steps, u, step);
  }

  // ---------------------------------------------------------------- wake-ups

  /** The signals to the event loop since it was last woken. */
  function SignalsSince(steps: seq<Step>, waiting: nat): nat
    decreases steps
  {
    if steps == [] then waiting
    else if steps[0] == SBreak || steps[0] == OtherSignal then SignalsSince(steps[1..], waiting + 1)
    else if steps[0] == CWake then SignalsSince(steps[1..], 0)
    else SignalsSince(steps[1..], waiting)
  }

  lemma {:induction false} WakesCount(s: State, steps: seq<Step>)
    requires Runs(machine, s, steps)
    ensures Run(machine, s, steps).wakes == SignalsSince(steps, s.wakes)
    decreases steps
  {
    if steps != [] {
      WakesCount(Next(s, steps[0]), steps[1..]);
    }
  }

  /** A polling caller is woken exactly by signals: one is enough, none is lost, and waking up
      takes them all. */
  lemma WokenIffSignalled(steps: seq<Step>, wake: Step)
    requires Runs(machine, Init, steps) && wake == CWake
    ensures var s := Run(machine, Init, steps);
            Enabled(s, wake) <==> s.caller == InRun && SignalsSince(steps, 0) > 0
  {
    WakesCount(Init, steps);
  }

  // ---------------------------------------------------------------- signals to the operations

  /** A stop is the last signal, and only comes after the final stop. */
  predicate StopsRight(s: State) {
    forall i | 0 <= i < |s.log| && s.log[i].1 == Stopped :: i == |s.log| - 1 && s.finalStop && Finishing(s.worker)
  }

  lemma StopIsLast(steps: seq<Step>)
    requires Runs(machine, Init, steps)
    ensures StopsRight(Run(machine, Init, steps))
  {
    forall r, step | Inv(r) && StopsRight(r) && machine.enabled(r, step)
      ensures Inv(machine.next(r, step)) && StopsRight(machine.next(r, step))
    {
      StepKeepsInv(r, step);
      StepKeepsStops(r, step);
    }
    RunKeeps(machine, _ => true, (r: State) => Inv(r) && StopsRight(r), Init, steps);
  }

  lemma StepKeepsStops(s: State, step: Step)
    requires Inv(s) && StopsRight(s) && Enabled(s, step)
    ensures StopsRight(Next(s, step))
  {
    var r := Next(s, step);
    if r.log == s.log {
      SameStops(s, step);
    } else {
      assert !Finishing(s.worker) && Finishing(r.worker);
      assert forall i | 0 <= i < |s.log| :: r.log[i] == s.log[i] && s.log[i].1 != Stopped;
      assert |r.log| == |s.log| + 1 && (r.log[|s.log|].1 == Stopped ==> step == CStop && r.finalStop);
    }
  }

  lemma SameStops(s: State, step: Step)
    requires Inv(s) && StopsRight(s) && Enabled(s, step) && Next(s, step).log == s.log
    ensures StopsRight(Next(s, step))
  {
    if s.finalStop && Finishing(s.worker) {
      assert Next(s, step).finalStop && Finishing(Next(s, step).worker);
    }
  }
}
