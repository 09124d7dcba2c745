/** The async mutex of src/async/mutex.cpp and its lock guard.  The steps are the critical
    sections; an unlock hands the mutex straight to the first waiter. */
module AsyncMutex {
  import opened Machines
  import opened Sequences

  type Guard = nat

  /** `owned` are the guards whose flag is set, which happens when `lock()` is called and
      not when its sender completes; `called` are those whose sender has not been awaited
      yet, `holders` those whose sender has completed. */
  datatype State = State(
    locked: bool,
    waiting: seq<Guard>,
    owned: set<Guard>,
    called: set<Guard>,
    holders: set<Guard>,
    arrivals: seq<Guard>,   // senders awaited, in order
    grants: seq<Guard>,     // senders completed, in order
    unlocks: nat,
    terminated: bool        // "mutex is not locked!"
  )

  datatype Step =
    | CallLock(g: Guard)    // lock_guard::lock
    | Start(g: Guard)       // mutex_completion::start, when the sender is awaited
    | Release(g: Guard)     // lock_guard::unlock, or the destructor

  const Init := State(false, [], {}, {}, {}, [], [], 0, false)

  predicate Enabled(s: State, step: Step) {
    && !s.terminated
    && match step
       case CallLock(g) => g !in s.owned
       case Start(g) => g in s.called
       case Release(g) => true
  }

  function Granted(s: State, g: Guard): State {
    s.(holders := s.holders + {g}, grants := s.grants + [g])
  }

  /** mutex::unlock */
  function AfterUnlock(s: State): State {
    if s.waiting == [] then
      if s.locked then s.(locked := false, unlocks := s.unlocks + 1) else s.(terminated := true)
    else
      Granted(s, s.waiting[0]).(waiting := s.waiting[1..], unlocks := s.unlocks + 1)
  }

  function Next(s: State, step: Step): State {
    match step
    case CallLock(g) =>
      s.(owned := s.owned + {g}, called := s.called + {g})
    case Start(g) =>
      var s' := s.(called := s.called - {g}, arrivals := s.arrivals + [g]);
      if s.locked then s'.(waiting := s.waiting + [g]) else Granted(s', g).(locked := true)
    case Release(g) =>
      if g !in s.owned then s
      else AfterUnlock(s.(owned := s.owned - {g}, called := s.called - {g}, holders := s.holders - {g}))
  }

  /** The sender of every lock is awaited before its guard unlocks. */
  predicate Awaited(s: State, step: Step) {
    step.Release? ==> step.g !in s.called && step.g !in s.waiting
  }

  /** At most one holder, and the books balance. */
  ghost predicate Inv(s: State) {
    && !s.terminated
    && (if s.locked then exists h :: s.holders == {h} else s.holders == {} && s.waiting == [])
    && s.grants + s.waiting == s.arrivals
    && |s.grants| == s.unlocks + (if s.locked then 1 else 0)
    && Distinct(s.waiting)
    && (forall g :: g in s.owned <==> g in s.called || g in s.holders || g in s.waiting)
    && (forall g | g in s.called :: g !in s.holders && g !in s.waiting)
    && (forall g | g in s.holders :: g !in s.waiting)
  }

  lemma CallLockKeepsInv(s: State, g: Guard)
    requires Inv(s) && Enabled(s, CallLock(g))
    ensures Inv(Next(s, CallLock(g)))
  {
  }

  lemma StartKeepsInv(s: State, g: Guard)
    requires Inv(s) && Enabled(s, Start(g))
    ensures Inv(Next(s, Start(g)))
  {
    var r := Next(s, Start(g));
    if s.locked {
      assert r.grants + r.waiting == s.grants + s.waiting + [g];
    } else {
      assert r.holders == {g};
      assert s.grants + [] == s.arrivals && r.grants + [] == r.arrivals;
    }
  }

  lemma UnlockBalances(s: State)
    requires s.locked && s.grants + s.waiting == s.arrivals
    ensures var r := AfterUnlock(s); r.grants + r.waiting == r.arrivals
  {
  }

  lemma ReleaseKeepsInv(s: State, g: Guard)
    requires Inv(s) && Enabled(s, Release(g)) && Awaited(s, Release(g))
    ensures Inv(Next(s, Release(g)))
  {
    if g in s.owned {
      var h :| s.holders == {h};
      assert g in s.holders && g == h;
      var s' := s.(owned := s.owned - {g}, called := s.called - {g}, holders := s.holders - {g});
      assert s'.holders == {} && s'.called == s.called;
      UnlockBalances(s');
      var r := AfterUnlock(s');
      if s.waiting != [] {
        assert r.holders == {s.waiting[0]};
        assert forall x :: x in s.waiting <==> x == s.waiting[0] || x in r.waiting;
      }
    }
  }

  lemma StepKeepsInv(s: State, step: Step)
    requires Inv(s) && Enabled(s, step) && Awaited(s, step)
    ensures Inv(Next(s, step))
  {
    match step
    case CallLock(g) => CallLockKeepsInv(s, g);
    case Start(g) => StartKeepsInv(s, g);
    case Release(g) => ReleaseKeepsInv(s, g);
  }

  /** Awaiting first is not only enough: a guard that unlocks between `lock()` and the
      completion of its sender always breaks the mutex. */
  lemma ReleaseIsSafe(s: State, g: Guard)
    requires Inv(s)
    ensures Inv(Next(s, Release(g))) <==> Awaited(s, Release(g))
  {
    if Awaited(s, Release(g)) {
      ReleaseKeepsInv(s, g);
    } else if s.locked {
      var h :| s.holders == {h};
      var r := Next(s, Release(g));
      assert h in r.holders && h != g;
      if s.waiting != [] {
        assert s.waiting[0] in r.holders && s.waiting[0] in s.waiting;
      }
    }
  }

  /** What it does: it terminates exactly when the mutex is unlocked; otherwise it lets a second
      guard in beside the holder, or leaves the holder with an unlocked mutex. */
  lemma UnawaitedRelease(s: State, g: Guard)
    requires Inv(s) && !Awaited(s, Release(g))
    ensures var r := Next(s, Release(g));
            && (r.terminated <==> !s.locked)
            && (s.locked && s.waiting != [] ==> |r.holders| == 2 && s.waiting[0] in r.holders && s.holders < r.holders)
            && (s.locked && s.waiting == [] ==> !r.locked && r.holders == s.holders && |r.holders| == 1)
  {
    if s.locked {
      var h :| s.holders == {h};
      var r := Next(s, Release(g));
      assert g !in s.holders && s.holders - {g} == {h};
      if s.waiting != [] {
        assert s.waiting[0] in s.waiting && s.waiting[0] != h;
        assert r.holders == {h, s.waiting[0]};
      }
    }
  }

  /** Two such misuses from the unlocked mutex: the first reaches std::terminate, the
      second leaves two holders. */
  lemma UnawaitedReleases()
    ensures var s := Next(Init, CallLock(0)); !Awaited(s, Release(0)) && Next(s, Release(0)).terminated
    ensures var s := Next(Next(Next(Init, CallLock(0)), Start(0)), CallLock(1));
            !Awaited(s, Release(1)) && Next(Next(Next(s, Release(1)), CallLock(2)), Start(2)).holders == {0, 2}
  {
    var s := Next(Next(Next(Init, CallLock(0)), Start(0)), CallLock(1));
    assert s.holders == {0} && s.owned == {0, 1} && s.locked;
    var r := Next(s, Release(1));
    assert r.holders == {0} && !r.locked;
  }

  // ---------------------------------------------------------------- whole runs

  /** Runs in which every sender is awaited before its guard unlocks. */
  const awaiting: Machine<State, Step> := Machine((s: State, step: Step) => Enabled(s, step) && Awaited(s, step), Next)

  ghost predicate Kept(s: State, r: State) {
    Inv(r) && s.arrivals <= r.arrivals && s.unlocks <= r.unlocks
  }

  lemma RunKeepsInv(s: State, steps: seq<Step>)
    requires Inv(s) && Runs(awaiting, s, steps)
    ensures Kept(s, Run(awaiting, s, steps))
  {
    forall r, step | Kept(s, r) && awaiting.enabled(r, step)
      ensures Kept(s, awaiting.next(r, step))
    {
      StepKeepsInv(r, step);
    }
    RunKeeps(awaiting, _ => true, (r: State) => Kept(s, r), s, steps);
  }

  /** From the unlocked mutex, no run terminates the program, and in every state there is
      at most one holder and the grants followed by the queue are the arrivals: nobody
      overtakes. */
  lemma MutualExclusion(steps: seq<Step>)
    requires Runs(awaiting, Init, steps)
    ensures var s := Run(awaiting, Init, steps);
            && !s.terminated
            && |s.holders| == (if s.locked then 1 else 0)
            && |s.grants| == s.unlocks + |s.holders|
            && s.grants + s.waiting == s.arrivals
  {
    RunKeepsInv(Init, steps);
  }

  /** The waiter at position `k` of the queue is granted the mutex by the `k + 1`-st unlock
      from now on, neither earlier nor later. */
  lemma GrantedInTurn(s: State, steps: seq<Step>, k: nat)
    requires Inv(s) && Runs(awaiting, s, steps) && k < |s.waiting|
    ensures var r := Run(awaiting, s, steps);
            && (|r.grants| > |s.grants| + k <==> r.unlocks >= s.unlocks + k + 1)
            && (|r.grants| > |s.grants| + k ==> r.grants[|s.grants| + k] == s.waiting[k])
  {
    RunKeepsInv(s, steps);
    var r := Run(awaiting, s, steps);
    var n := |s.grants| + k;
    assert s.arrivals[n] == s.waiting[k] && r.arrivals[n] == s.arrivals[n];
    if |r.grants| > n {
      assert r.grants[n] == r.arrivals[n];
    }
    if r.unlocks >= s.unlocks + k + 1 && !r.locked {
      assert |r.grants| == |r.arrivals|;
    }
  }

  // ---------------------------------------------------------------- the objects

  class MutexObject {
    var locked: bool
    var waitingTasks: seq<Guard>
    ghost var history: State

    ghost predicate Valid()
      reads this
    {
      history.locked == locked && history.waiting == waitingTasks
    }

    constructor ()
      ensures Valid() && history == Init
    {
      locked := false;
      waitingTasks := [];
      history := Init;
    }

    /** `mutex_completion::start`: whether the sender completes at once. */
    method Start(g: Guard) returns (complete: bool)
      requires Valid() && Enabled(history, Step.Start(g))
      modifies this
      ensures Valid() && history == Next(old(history), Step.Start(g))
      ensures complete <==> history.grants == old(history.grants) + [g]
    {
      var wasLocked := locked;
      locked := true;
      complete := !wasLocked;
      if wasLocked {
        waitingTasks := waitingTasks + [g];
      }
      history := Next(history, Step.Start(g));
    }

    /** `mutex::unlock`: the task to complete, if any.  `throws` stands for the call of
        std::terminate. */
    method Unlock() returns (throws: bool, completion: seq<Guard>)
      requires Valid() && !history.terminated
      modifies this
      ensures Valid() && history == AfterUnlock(old(history))
      ensures throws == history.terminated
      ensures history.grants == old(history.grants) + completion
    {
      throws, completion := false, [];
      history := AfterUnlock(history);
      if waitingTasks == [] {
        var wasLocked := locked;
        locked := false;
        throws := !wasLocked;
        return;
      }
      completion := [waitingTasks[0]];
      waitingTasks := waitingTasks[1..];
    }
  }

  class LockGuard {
    const mutex: MutexObject
    const id: Guard
    var owned: bool

    ghost predicate Valid()
      reads this, mutex
    {
      mutex.Valid() && (owned <==> id in mutex.history.owned)
    }

    constructor (m: MutexObject, id: Guard)
      requires m.Valid() && id !in m.history.owned
      ensures Valid() && mutex == m && this.id == id && !owned
    {
      mutex := m;
      this.id := id;
      owned := false;
    }

    method Lock()
      requires Valid() && Enabled(mutex.history, CallLock(id))
      modifies this`owned, mutex`history
      ensures Valid() && mutex.history == Next(old(mutex.history), CallLock(id))
    {
      owned := true;
      mutex.history := Next(mutex.history, CallLock(id));
    }

    /** `unlock()` and the destructor. */
    method Release() returns (throws: bool)
      requires Valid() && !mutex.history.terminated
      modifies this`owned, mutex
      ensures Valid() && !owned
      ensures mutex.history == Next(old(mutex.history), Step.Release(id))
      ensures Inv(old(mutex.history)) && Awaited(old(mutex.history), Step.Release(id)) ==> !throws
    {
      throws := false;
      ghost var s := mutex.history;
      if owned {
        mutex.history := s.(owned := s.owned - {id}, called := s.called - {id}, holders := s.holders - {id});
        var completion;
        throws, completion := mutex.Unlock();
        owned := false;
      }
      if Inv(s) && Awaited(s, Step.Release(id)) {
        ReleaseKeepsInv(s, id);
      }
    }
  }
}
