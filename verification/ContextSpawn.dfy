/** Spawning and the final stop in src/async/context.cpp: the set of user tasks, the watcher
    that waits for it to become empty, and the stop sources.  Of the scope's `on_empty` it
    is assumed that it fires once, when the set is empty or becomes empty. */
module ContextSpawn {
  import opened Machines

  datatype State = State(
    tasks: nat,              // user tasks in pending_tasks
    flag: bool,              // spawn_watcher_running
    armed: nat,              // watchers that wait for the set to become empty
    fired: nat,              // watchers that fired, before spawn_complete runs
    initialStop: bool,
    finalStop: bool
  )

  datatype Step =
    | Spawn                  // spawn, with its watcher
    | TaskDone
    | SpawnComplete          // the continuation of a watcher that fired
    | RequestStop
    | Watch                  // spawn_watcher from a repeated run

  const Init := State(0, false, 0, 0, false, false)

  predicate Enabled(s: State, step: Step) {
    match step
    case TaskDone => s.tasks > 0
    case SpawnComplete => s.fired > 0
    case _ => true
  }

  /** on_empty: a watcher armed on an empty set fires at once. */
  function Arm(s: State): State {
    if s.flag then s
    else if s.tasks == 0 then s.(flag := true, fired := s.fired + 1)
    else s.(flag := true, armed := s.armed + 1)
  }

  function Next(s: State, step: Step): State {
    match step
    case Spawn => if s.initialStop then s else Arm(s.(tasks := s.tasks + 1))
    case TaskDone =>
      if s.tasks == 1 then s.(tasks := 0, armed := 0, fired := s.fired + s.armed)
      else if s.tasks > 1 then s.(tasks := s.tasks - 1)
      else s
    case SpawnComplete =>
      s.(fired := if s.fired > 0 then s.fired - 1 else 0, flag := false,
         finalStop := s.finalStop || s.initialStop)
    case RequestStop => s.(initialStop := true)
    case Watch => Arm(s)
  }

  /** Outstanding tasks are watched, and after the final stop there are none. */
  predicate Inv(s: State) {
    && (s.tasks > 0 ==> s.armed == 1 && s.fired == 0)
    && (s.flag <==> s.armed + s.fired == 1)
    && s.armed + s.fired <= 1
    && (s.fired == 1 ==> s.tasks == 0) && (s.armed == 1 ==> s.tasks > 0)
    && (s.finalStop ==> s.initialStop && s.tasks == 0)
  }

  /** Whole steps: nothing is spawned between the firing of a watcher and its
      spawn_complete.  This is also necessary. */
  predicate Serialised(s: State, step: Step) {
    step == Spawn ==> s.fired == 0 || s.initialStop
  }

  lemma StepIsSafe(s: State, step: Step)
    requires Inv(s) && Enabled(s, step)
    ensures Inv(Next(s, step)) <==> Serialised(s, step)
  {
    match step
    case Spawn =>
    case TaskDone =>
    case SpawnComplete =>
    case RequestStop =>
    case Watch =>
  }

  const machine: Machine<State, Step> := Machine(Enabled, Next)

  const serialised: Machine<State, Step> :=
    Machine((s: State, step: Step) => Enabled(s, step) && Serialised(s, step), Next)

  ghost predicate Kept(s: State, r: State) {
    && Inv(r)
    && (s.finalStop ==> r.finalStop)
    && (s.initialStop ==> r.initialStop && r.tasks <= s.tasks)
  }

  lemma RunKeepsInv(s: State, steps: seq<Step>)
    requires Inv(s) && Runs(serialised, s, steps)
    ensures Kept(s, Run(serialised, s, steps))
  {
    forall r, step | Kept(s, r) && serialised.enabled(r, step)
      ensures Kept(s, serialised.next(r, step))
    {
      StepIsSafe(r, step);
    }
    RunKeeps(serialised, _ => true, (r: State) => Kept(s, r), s, steps);
  }

  /** In every serialised run: outstanding tasks have an armed watcher; once the final stop
      is set there are no tasks, and none is ever added. */
  lemma TasksAreWatched(before: seq<Step>, after: seq<Step>)
    requires Runs(serialised, Init, before)
    requires var s := Run(serialised, Init, before); Runs(serialised, s, after)
    ensures var s, r := Run(serialised, Init, before), Run(serialised, Run(serialised, Init, before), after);
            && (s.tasks > 0 ==> s.flag && s.armed == 1)
            && (s.finalStop ==> s.tasks == 0 && r.tasks == 0 && r.finalStop)
  {
    RunKeepsInv(Init, before);
    RunKeepsInv(Run(serialised, Init, before), after);
  }

  /** When a stop was requested while tasks are outstanding, the completion of the last
      task fires the watcher, and its continuation sets the final stop. */
  lemma LastTaskStops(steps: seq<Step>)
    requires Runs(serialised, Init, steps)
    requires Run(serialised, Init, steps).initialStop && Run(serialised, Init, steps).tasks == 1
    ensures WatcherStops(Next(Run(serialised, Init, steps), TaskDone), SpawnComplete)
  {
    RunKeepsInv(Init, steps);
    LastTask(Run(serialised, Init, steps), TaskDone);
  }

  lemma LastTask(s: State, step: Step)
    requires Inv(s) && s.initialStop && s.tasks == 1 && step.TaskDone?
    ensures WatcherStops(Next(s, step), SpawnComplete)
  {
    var r := Next(s, step);
    assert r.tasks == 0 && r.fired == 1;
    Completes(r, SpawnComplete);
  }

  lemma Completes(s: State, completion: Step)
    requires s.tasks == 0 && s.fired == 1 && s.initialStop && completion.SpawnComplete?
    ensures WatcherStops(s, completion)
  {
  }

  predicate WatcherStops(s: State, completion: Step) {
    && s.tasks == 0 && s.fired == 1
    && Enabled(s, completion) && Next(s, completion).finalStop
  }

  // ---------------------------------------------------------------- when the stop becomes final

  /** A stop was requested, but no watcher is left whose continuation would make it final. */
  predicate Abandoned(s: State) {
    s.initialStop && !s.finalStop && s.armed == 0 && s.fired == 0
  }

  /** The flag tells whether there is a watcher, and a watcher only waits while there are tasks. */
  predicate FlagRight(s: State) {
    s.armed + s.fired == (if s.flag then 1 else 0) && (s.armed > 0 ==> s.tasks > 0)
  }

  lemma FlagIsRight(steps: seq<Step>)
    requires Runs(machine, Init, steps)
    ensures FlagRight(Run(machine, Init, steps))
  {
    RunKeepsFlag(Init, steps);
  }

  lemma RunKeepsFlag(s: State, steps: seq<Step>)
    requires FlagRight(s) && Runs(machine, s, steps)
    ensures FlagRight(Run(machine, s, steps))
  {
    forall r, step | FlagRight(r) && machine.enabled(r, step)
      ensures FlagRight(machine.next(r, step))
    {
      StepKeepsFlag(r, step);
    }
    RunKeeps(machine, _ => true, (r: State) => FlagRight(r), s, steps);
  }

  lemma StepKeepsFlag(s: State, step: Step)
    requires FlagRight(s) && Enabled(s, step)
    ensures FlagRight(Next(s, step))
  {
  }

  /** In every run, serialised or not: a requested stop can become final, with tasks ending and
      watchers continuing but no other call of `run`, exactly when there is a watcher, which is
      what `spawn_watcher_running` tells. */
  lemma FinalStopIffWatcher(before: seq<Step>)
    requires Runs(machine, Init, before)
    requires Run(machine, Init, before).initialStop && !Run(machine, Init, before).finalStop
    ensures var s := Run(machine, Init, before);
            && (s.flag <==> s.armed + s.fired > 0)
            && (s.flag
                <==> exists steps :: Runs(machine, s, steps) && Watch !in steps && Run(machine, s, steps).finalStop)
  {
    FlagIsRight(before);
    FinalStopIff(Run(machine, Init, before));
  }

  /** A repeated `run` makes up for it: its watch, and what follows from it, set the final stop. */
  lemma RepeatedRunFinalises(before: seq<Step>) returns (steps: seq<Step>)
    requires Runs(machine, Init, before)
    requires Run(machine, Init, before).initialStop && !Run(machine, Init, before).finalStop
    ensures var s := Run(machine, Init, before);
            && Runs(machine, s, steps) && Run(machine, s, steps).finalStop
            && steps != [] && steps[0] == Watch && |steps| <= s.tasks + 2
  {
    FlagIsRight(before);
    var s := Run(machine, Init, before);
    var step := Watch;
    var u;
    steps, u := Extend(machine, s, [], s, step);
    var more := FinalisingRun(u);
    RunConcat(machine, s, steps, more);
    steps := steps + more;
  }

  lemma FinalStopIff(s: State)
    requires FlagRight(s) && s.initialStop && !s.finalStop
    ensures s.flag
            <==> exists steps :: Runs(machine, s, steps) && Watch !in steps && Run(machine, s, steps).finalStop
  {
    if s.flag {
      var steps := FinalisingRun(s);
      assert Run(machine, s, steps).finalStop;
    } else {
      forall steps | Runs(machine, s, steps) && Watch !in steps
        ensures !Run(machine, s, steps).finalStop
      {
        AbandonedForEver(s, steps);
      }
    }
  }

  /** The tasks end one by one until the watcher fires. */
  lemma FinalisingRun(s: State) returns (steps: seq<Step>)
    requires FlagRight(s) && s.initialStop && s.flag
    ensures Runs(machine, s, steps) && Watch !in steps && Run(machine, s, steps).finalStop
    ensures |steps| <= s.tasks + 1
  {
    var u := s;
    var step := TaskDone;
    steps := [];
    while u.fired == 0
      invariant FlagRight(u) && u.initialStop && u.flag
      invariant Runs(machine, s, steps) && Run(machine, s, steps) == u && Watch !in steps
      invariant |steps| + u.tasks <= s.tasks
      decreases u.tasks
    {
      steps, u := Extend(machine, s, steps, u, step);
    }
    step := SpawnComplete;
    steps, u := Extend(machine, s, steps, u, step);
  }

  lemma {:induction false} AbandonedForEver(s: State, steps: seq<Step>)
    requires Abandoned(s) && Runs(machine, s, steps) && Watch !in steps
    ensures Abandoned(Run(machine, s, steps))
  {
    RunKeeps(machine, (step: Step) => step != Watch, (r: State) => Abandoned(r), s, steps);
  }

  /** A stop requested before any task was spawned is abandoned at once, though every step is
      serialised: a first call of `run` arms no watcher. */
  lemma EarlyStopIsLost() returns (steps: seq<Step>)
    ensures steps == [RequestStop] && Runs(serialised, Init, steps) && Abandoned(Run(serialised, Init, steps))
  {
    var s: State;
    var step := RequestStop;
    steps, s := Extend(serialised, Init, [], Init, step);
  }

  /** So is one that is requested after all tasks have ended and were reported. */
  lemma IdleStopIsLost(before: seq<Step>)
    requires Runs(serialised, Init, before)
    requires var s := Run(serialised, Init, before); !s.flag && !s.initialStop
    ensures var s := Run(serialised, Init, before);
            s.tasks == 0 && Serialised(s, RequestStop) && Abandoned(Next(s, RequestStop))
  {
    RunKeepsInv(Init, before);
  }

  /** A spawn between the firing of the watcher and its continuation leaves its task without a
      watcher, and the stop is abandoned although it was requested while that task ran. */
  lemma SpawnBetweenIsLost() returns (before: seq<Step>, after: seq<Step>)
    ensures Runs(machine, Init, before) && !Serialised(Run(machine, Init, before), Spawn)
    ensures var s := Next(Run(machine, Init, before), Spawn);
            Runs(machine, s, after) && Abandoned(Run(machine, s, after)) && Run(machine, s, after).tasks == 1
  {
    var s: State;
    before, s := Early();
    after := Late(Next(s, Spawn));
  }

  /** The only task has ended, and the watcher has fired. */
  lemma Early() returns (steps: seq<Step>, s: State)
    ensures Runs(machine, Init, steps) && Run(machine, Init, steps) == s == State(0, true, 0, 1, false, false)
  {
    steps, s := Extend(machine, Init, [], Init, Spawn);
    steps, s := Extend(machine, Init, steps, s, TaskDone);
  }

  lemma Late(start: State) returns (steps: seq<Step>)
    requires start == State(1, true, 0, 1, false, false)
    ensures Runs(machine, start, steps) && Abandoned(Run(machine, start, steps))
    ensures Run(machine, start, steps).tasks == 1
  {
    var s: State;
    steps, s := Extend(machine, start, [], start, SpawnComplete);
    steps, s := Extend(machine, start, steps, s, RequestStop);
  }

  // ---------------------------------------------------------------- the context object

  class SpawnObject {
    var tasks: nat
    var spawnWatcherRunning: bool
    var armed: nat
    var fired: nat
    var initialStop: bool
    var finalStop: bool

    ghost function Abs(): State
      reads this
    {
      State(tasks, spawnWatcherRunning, armed, fired, initialStop, finalStop)
    }

    constructor ()
      ensures Abs() == Init
    {
      tasks, spawnWatcherRunning, armed, fired := 0, false, 0, 0;
      initialStop, finalStop := false, false;
    }

    method SpawnWatcher()
      modifies this
      ensures Abs() == Arm(old(Abs()))
    {
      if spawnWatcherRunning {
        return;
      }
      spawnWatcherRunning := true;
      if tasks == 0 {
        fired := fired + 1;
      } else {
        armed := armed + 1;
      }
    }

    /** `spawn`, which throws once a stop was requested. */
    method SpawnTask() returns (throws: bool)
      modifies this
      ensures Abs() == Next(old(Abs()), Spawn)
      ensures throws <==> old(initialStop)
      ensures Inv(old(Abs())) && Serialised(old(Abs()), Spawn) ==> Inv(Abs())
    {
      ghost var s := Abs();
      if Inv(s) {
        StepIsSafe(s, Spawn);
      }
      throws := initialStop;
      if throws {
        return;
      }
      tasks := tasks + 1;
      SpawnWatcher();
    }

    /** `spawn_complete`, up to the wake-ups. */
    method Complete()
      requires fired > 0
      modifies this
      ensures Abs() == Next(old(Abs()), SpawnComplete)
      ensures Inv(old(Abs())) ==> Inv(Abs()) && (finalStop ==> tasks == 0)
    {
      ghost var s := Abs();
      if Inv(s) {
        StepIsSafe(s, SpawnComplete);
      }
      fired := fired - 1;
      spawnWatcherRunning := false;
      if initialStop {
        finalStop := true;
      }
    }
  }
}
