/** The async match of src/async/match.cpp, which pairs incoming messages with awaiting
    receivers.  The steps are the critical sections and the completions that run after
    them; awaits are numbered in the order in which they start. */
module AsyncMatch {
  import opened Wrappers
  import opened Sequences
  import opened Machines

  datatype State<Msg> = State(
    queue: seq<Msg>,
    awaiting: Option<nat>,   // `complete`, the receiver that waits for a message
    received: seq<Msg>,
    awaits: nat,
    paired: seq<Msg>,        // the message taken out for await 0, 1, 2, ...
    running: set<nat>,       // awaits paired whose completion has not run yet
    completed: seq<nat>,
    stopped: seq<nat>,
    destroyed: bool,
    terminated: bool         // a second await was started
  )

  datatype Step<Msg> =
    | StartAwait             // match_completion::start
    | Message(msg: Msg)      // handle_match
    | Complete(which: nat)   // the call of `complete` after the lock was released
    | Destroy                // ~match

  function Init<Msg>(): State<Msg> {
    State([], None, [], 0, [], {}, [], [], false, false)
  }

  /** handle_completion, up to the release of the lock. */
  function Pair<Msg>(s: State<Msg>): State<Msg> {
    if s.awaiting.None? || s.queue == [] then s
    else
      s.(awaiting := None, queue := s.queue[1..],
         paired := s.paired + [s.queue[0]], running := s.running + {s.awaiting.value})
  }

  predicate Enabled<Msg>(s: State<Msg>, step: Step<Msg>) {
    && !s.terminated
    && match step
       case StartAwait => !s.destroyed
       case Message(_) => !s.destroyed
       case Complete(a) => a in s.running
       case Destroy => !s.destroyed
  }

  function Next<Msg>(s: State<Msg>, step: Step<Msg>): State<Msg> {
    match step
    case StartAwait =>
      if s.awaiting.Some? then s.(terminated := true)
      else Pair(s.(awaiting := Some(s.awaits), awaits := s.awaits + 1))
    case Message(msg) =>
      Pair(s.(queue := s.queue + [msg], received := s.received + [msg]))
    case Complete(a) =>
      s.(running := s.running - {a}, completed := s.completed + [a])
    case Destroy =>
      s.(awaiting := None, destroyed := true,
         stopped := if s.awaiting.Some? then s.stopped + [s.awaiting.value] else s.stopped)
  }

  ghost predicate Inv<Msg>(s: State<Msg>) {
    Books(s) && (s.awaiting.Some? ==> s.queue == [])
  }

  /** The part of the invariant that also holds inside a critical section. */
  ghost predicate Books<Msg>(s: State<Msg>) {
    && s.paired + s.queue == s.received
    && s.awaits == |s.paired| + (if s.awaiting.Some? then 1 else 0) + |s.stopped|
    && (s.awaiting.Some? ==> s.awaiting.value == |s.paired|)
    && (if s.destroyed then s.awaiting.None? else s.stopped == [])
    && (s.stopped != [] ==> s.stopped == [|s.paired|])
    && Distinct(s.completed)
    && (forall a: nat :: a in s.running || a in s.completed <==> a < |s.paired|)
    && (forall a | a in s.running :: a !in s.completed)
  }

  lemma PairKeepsInv<Msg>(s: State<Msg>)
    requires Books(s)
    ensures Inv(Pair(s))
  {
    if s.awaiting.Some? && s.queue != [] {
      var r := Pair(s);
      assert r.paired + r.queue == s.paired + s.queue;
    }
  }

  /** Every step keeps the pairing right, and only a second await terminates. */
  lemma StepKeepsInv<Msg>(s: State<Msg>, step: Step<Msg>)
    requires Inv(s) && Enabled(s, step)
    ensures Inv(Next(s, step))
    ensures Next(s, step).terminated <==> step.StartAwait? && s.awaiting.Some?
  {
    match step
    case StartAwait =>
      if s.awaiting.None? {
        PairKeepsInv(s.(awaiting := Some(s.awaits), awaits := s.awaits + 1));
      }
    case Message(msg) =>
      assert s.paired + (s.queue + [msg]) == s.received + [msg];
      PairKeepsInv(s.(queue := s.queue + [msg], received := s.received + [msg]));
    case Complete(a) =>
    case Destroy =>
  }

  function MatchMachine<Msg>(): Machine<State<Msg>, Step<Msg>> {
    Machine(Enabled<Msg>, Next<Msg>)
  }

  lemma RunKeepsInv<Msg(!new)>(s: State<Msg>, steps: seq<Step<Msg>>)
    requires Inv(s) && Runs(MatchMachine(), s, steps)
    ensures Inv(Run(MatchMachine(), s, steps))
  {
    forall r: State<Msg>, step | Inv(r) && Enabled(r, step)
      ensures Inv(Next(r, step))
    {
      StepKeepsInv(r, step);
    }
    RunKeeps(MatchMachine<Msg>(), _ => true, (r: State<Msg>) => Inv(r), s, steps);
  }

  function Min(a: nat, b: nat): nat {
    if a < b then a else b
  }

  /** In every state of every run: messages are handed over in the order in which they came,
      message `n` to await `n`; before destruction as many as there are both messages and
      awaits; and no await is completed twice, or both completed and stopped. */
  lemma Pairing<Msg(!new)>(steps: seq<Step<Msg>>)
    requires Runs(MatchMachine(), Init<Msg>(), steps)
    ensures var s := Run(MatchMachine(), Init<Msg>(), steps);
            && s.paired + s.queue == s.received
            && (!s.destroyed ==> |s.paired| == Min(|s.received|, s.awaits))
            && Distinct(s.completed + s.stopped)
            && (forall a | a in s.completed :: a < |s.paired|)
            && (s.destroyed && s.running == {} ==>
                  forall a: nat :: a in s.completed + s.stopped <==> a < s.awaits)
  {
    RunKeepsInv(Init<Msg>(), steps);
    var s := Run(MatchMachine(), Init<Msg>(), steps);
    assert |s.received| == |s.paired| + |s.queue|;
    var ended := s.completed + s.stopped;
    assert forall i | 0 <= i < |s.completed| :: ended[i] == s.completed[i] && s.completed[i] in s.completed;
    assert forall a | a in s.completed :: a < |s.paired|;
    assert forall a: nat :: a in ended <==> a in s.completed || a in s.stopped;
  }

  // ---------------------------------------------------------------- the match object

  /** A step that may pair, and then the completion of the pair. */
  function Stepped<Msg>(s: State<Msg>, step: Step<Msg>): State<Msg> {
    var r := Next(s, step);
    if |r.paired| == |s.paired| then r else Next(r, Complete(|s.paired|))
  }

  /** All of handle_completion: the pairing and then the completion of the pair. */
  function Delivered<Msg>(s: State<Msg>): State<Msg> {
    if s.awaiting.None? || s.queue == [] then s else Next(Pair(s), Complete(s.awaiting.value))
  }

  class MatchObject<Msg(0, !new)> {
    var queue: seq<Msg>
    var complete: Option<nat>
    var lockHeld: bool
    ghost var history: State<Msg>

    ghost predicate Valid()
      reads this
    {
      && !lockHeld && Inv(history)
      && history.queue == queue && history.awaiting == complete
    }

    constructor ()
      ensures Valid() && history == Init<Msg>()
    {
      queue := [];
      complete := None;
      lockHeld := false;
      history := Init<Msg>();
    }

    /** The call of `complete(msg)` on an awaiting receiver, which may run any task: the
        lock must not be held. */
    method RunCompletion(ghost which: nat, msg: Msg)
      requires Valid() && !history.terminated
      requires which in history.running && history.paired[which] == msg
      modifies this`history
      ensures Valid() && history == Next(old(history), Complete(which))
      ensures which !in old(history.completed)
    {
      StepKeepsInv(history, Complete(which));
      history := Next(history, Complete(which));
    }

    /** `handle_completion`, entered with the lock held. */
    method HandleCompletion()
      requires lockHeld && !history.terminated && Books(history)
      requires history.queue == queue && history.awaiting == complete
      modifies this
      ensures Valid()
      ensures history == Delivered(old(history))
    {
      PairKeepsInv(history);
      if complete == None || queue == [] {
        lockHeld := false;
        return;
      }
      var c := complete.value;
      complete := None;
      var msg := queue[0];
      queue := queue[1..];
      history := Pair(history);
      lockHeld := false;
      RunCompletion(c, msg);
    }

    method HandleMatch(msg: Msg)
      requires Valid() && Enabled(history, Message(msg))
      modifies this
      ensures Valid()
      ensures history == Stepped(old(history), Message(msg))
    {
      assert history.paired + (history.queue + [msg]) == history.received + [msg];
      lockHeld := true;
      queue := queue + [msg];
      history := history.(queue := history.queue + [msg], received := history.received + [msg]);
      HandleCompletion();
    }

    /** `match_completion::start`; `terminates` is the logic error of a second await. */
    method Start(c: nat) returns (terminates: bool)
      requires Valid() && Enabled(history, StartAwait) && c == history.awaits
      modifies this
      ensures terminates <==> old(complete) != None
      ensures terminates ==> history == Next(old(history), StartAwait) && history.terminated
      ensures !terminates ==> Valid()
      ensures !terminates ==> history == Stepped(old(history), StartAwait)
    {
      lockHeld := true;
      if complete != None {
        history := history.(terminated := true);
        return true;
      }
      complete := Some(c);
      history := history.(awaiting := Some(c), awaits := c + 1);
      HandleCompletion();
      return false;
    }

    /** `~match` */
    method Destruct() returns (stop: Option<nat>)
      requires Valid() && Enabled(history, Destroy)
      modifies this
      ensures Valid() && history == Next(old(history), Destroy)
      ensures stop == old(complete)
    {
      StepKeepsInv(history, Destroy);
      lockHeld := true;
      stop := complete;
      complete := None;
      history := Next(history, Destroy);
      lockHeld := false;
    }
  }
}
