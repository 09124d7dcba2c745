/** The async barrier of src/async/barrier.cpp.  A critical section appends the arriving
    task and, when enough tasks have arrived, swaps the whole batch out; the batch is
    completed after the lock is released, so later arrivals and other batches interleave
    with its completions.  Arrivals are numbered in the order in which they take the lock. */
module Barrier {
  import opened Wrappers
  import opened Sequences
  import opened Machines

  datatype State = State(
    count: nat,
    waiters: seq<nat>,
    arrivals: nat,
    batches: seq<seq<nat>>,   // every batch swapped out so far
    done: seq<nat>,           // how many tasks of each batch have been completed
    log: seq<nat>             // completions, in the order in which they ran
  )

  datatype Step = Arrive | Complete(batch: nat)

  function Init(count: nat): State {
    State(count, [], 0, [], [], [])
  }

  predicate Enabled(s: State, step: Step) {
    match step
    case Arrive => true
    case Complete(b) => b < |s.batches| && b < |s.done| && s.done[b] < |s.batches[b]|
  }

  function Next(s: State, step: Step): State {
    match step
    case Arrive =>
      var waiters := s.waiters + [s.arrivals];
      if |waiters| >= s.count then
        s.(waiters := [], arrivals := s.arrivals + 1, batches := s.batches + [waiters], done := s.done + [0])
      else
        s.(waiters := waiters, arrivals := s.arrivals + 1)
    case Complete(b) =>
      if Enabled(s, step) then
        s.(done := s.done[b := s.done[b] + 1], log := s.log + [s.batches[b][s.done[b]]])
      else s
  }

  const machine: Machine<State, Step> := Machine(Enabled, Next)

  // ---------------------------------------------------------------- invariant

  /** `s` lists the consecutive arrivals from `from` on. */
  predicate Consecutive(s: seq<nat>, from: nat) {
    forall i | 0 <= i < |s| :: s[i] == from + i
  }

  /** Task `i` of batch `b` is the arrival `b * count + i`. */
  predicate BatchesRight(s: State) {
    forall b | 0 <= b < |s.batches| :: |s.batches[b]| == s.count && Consecutive(s.batches[b], b * s.count)
  }

  /** The log holds exactly the completed tasks of each batch. */
  predicate LogRight(s: State)
    requires |s.done| == |s.batches|
  {
    && Distinct(s.log)
    && (forall b | 0 <= b < |s.done| :: s.done[b] <= s.count)
    && (forall n | n in s.log :: n < |s.batches| * s.count)
    && (forall b, i | 0 <= b < |s.batches| && 0 <= i < |s.batches[b]| ::
          s.batches[b][i] in s.log <==> i < s.done[b])
  }

  predicate Inv(s: State) {
    && |s.done| == |s.batches|
    && s.count >= 1
    && |s.waiters| < s.count
    && |s.batches| * s.count + |s.waiters| == s.arrivals
    && Consecutive(s.waiters, |s.batches| * s.count)
    && BatchesRight(s)
    && LogRight(s)
  }

  lemma MulSucc(b: nat, count: nat)
    ensures (b + 1) * count == b * count + count
  {
  }

  lemma MulApart(b: nat, i: nat, c: nat, j: nat, count: nat)
    requires i < count && j < count && b * count + i == c * count + j
    ensures b == c && i == j
  {
    if b < c {
      MulMono(b + 1, c, count);
      MulSucc(b, count);
    } else if c < b {
      MulMono(c + 1, b, count);
      MulSucc(c, count);
    }
  }

  lemma MulMono(b: nat, c: nat, count: nat)
    requires b <= c
    ensures b * count <= c * count
  {
  }

  lemma ArriveKeepsInv(s: State)
    requires Inv(s)
    ensures Inv(Next(s, Arrive))
  {
    var r := Next(s, Arrive);
    var n := |s.batches|;
    MulSucc(n, s.count);
    if r.batches != s.batches {
      assert forall b | 0 <= b < n :: r.batches[b] == s.batches[b] && r.done[b] == s.done[b];
      assert forall i | 0 <= i < s.count :: r.batches[n][i] == n * s.count + i && r.batches[n][i] !in s.log;
    }
  }

  lemma CompleteKeepsInv(s: State, b: nat)
    requires Inv(s) && Enabled(s, Complete(b))
    ensures Inv(Next(s, Complete(b)))
  {
    var r := Next(s, Complete(b));
    var i := s.done[b];
    var n := s.batches[b][i];
    assert n == b * s.count + i && n !in s.log;
    MulMono(b + 1, |s.batches|, s.count);
    MulSucc(b, s.count);
    forall c, j | 0 <= c < |s.batches| && 0 <= j < |s.batches[c]|
      ensures r.batches[c][j] in r.log <==> j < r.done[c]
    {
      assert s.batches[c][j] == c * s.count + j;
      if s.batches[c][j] == n {
        MulApart(c, j, b, i, s.count);
      }
    }
  }

  lemma StepKeepsInv(s: State, step: Step)
    requires Inv(s) && Enabled(s, step)
    ensures Inv(Next(s, step))
  {
    match step
    case Arrive => ArriveKeepsInv(s);
    case Complete(b) => CompleteKeepsInv(s, b);
  }

  ghost predicate Kept(s: State, r: State) {
    Inv(r) && r.count == s.count
  }

  lemma RunKeepsInv(s: State, steps: seq<Step>)
    requires Inv(s) && Runs(machine, s, steps)
    ensures Kept(s, Run(machine, s, steps))
  {
    forall r, step | Kept(s, r) && machine.enabled(r, step)
      ensures Kept(s, machine.next(r, step))
    {
      StepKeepsInv(r, step);
    }
    RunKeeps(machine, _ => true, (r: State) => Kept(s, r), s, steps);
  }

  // ---------------------------------------------------------------- what every run does

  lemma DivUnique(n: nat, b: nat, i: nat, count: nat)
    requires i < count && n == b * count + i
    ensures n / count == b && n % count == i
  {
    MulApart(n / count, n % count, b, i, count);
  }

  /** The waiters are what is left over of the arrivals, and the batches hold the
      arrivals generation by generation. */
  predicate ByGeneration(s: State) {
    && s.count >= 1
    && |s.waiters| == s.arrivals % s.count && |s.batches| == s.arrivals / s.count
    && forall n: nat | n < |s.batches| * s.count :: GenerationOf(s, n)
  }

  predicate GenerationOf(s: State, n: nat)
    requires s.count >= 1
  {
    && n / s.count < |s.batches|
    && n % s.count < |s.batches[n / s.count]|
    && s.batches[n / s.count][n % s.count] == n
    && (n / s.count + 1) * s.count <= s.arrivals
  }

  predicate Drained(s: State) {
    forall b | 0 <= b < |s.done| :: s.done[b] == s.count
  }

  /** A completed task belongs to a full generation, and once every batch has been
      drained the converse holds too. */
  predicate LogByGeneration(s: State, n: nat)
    requires s.count >= 1
  {
    && (n in s.log ==> GenerationOf(s, n))
    && (Drained(s) ==> (n in s.log <==> n < |s.batches| * s.count))
  }

  /** In every state of every run: arrivals are grouped by generation, no task is completed
      twice, none before its generation is full, and a drained barrier has completed
      exactly the full generations. */
  lemma Generations(count: nat, steps: seq<Step>)
    requires count >= 1 && Runs(machine, Init(count), steps)
    ensures var s := Run(machine, Init(count), steps);
            && s.count == count && ByGeneration(s) && Distinct(s.log)
            && forall n: nat :: LogByGeneration(s, n)
  {
    RunKeepsInv(Init(count), steps);
    var s := Run(machine, Init(count), steps);
    InvByGeneration(s);
    forall n: nat
      ensures LogByGeneration(s, n)
    {
      InvLogByGeneration(s, n);
    }
  }

  lemma InvByGeneration(s: State)
    requires Inv(s)
    ensures ByGeneration(s)
  {
    DivUnique(s.arrivals, |s.batches|, |s.waiters|, s.count);
    forall n: nat | n < |s.batches| * s.count
      ensures GenerationOf(s, n)
    {
      InvGenerationOf(s, n);
    }
  }

  lemma InvGenerationOf(s: State, n: nat)
    requires s.count >= 1 && BatchesRight(s) && n < |s.batches| * s.count <= s.arrivals
    ensures GenerationOf(s, n)
  {
    var b, i := n / s.count, n % s.count;
    Locate(n, |s.batches|, s.count);
    MulMono(b + 1, |s.batches|, s.count);
    assert Consecutive(s.batches[b], b * s.count);
    assert s.batches[b][i] == b * s.count + i;
  }

  lemma InvLogByGeneration(s: State, n: nat)
    requires Inv(s)
    ensures LogByGeneration(s, n)
  {
    var full := |s.batches| * s.count;
    if n < full {
      InvGenerationOf(s, n);
      var b, i := n / s.count, n % s.count;
      assert s.batches[b][i] == n && (n in s.log <==> i < s.done[b]) && i < s.count;
    }
  }

  lemma Locate(n: nat, batches: nat, count: nat)
    requires count >= 1 && n < batches * count
    ensures n / count < batches && n % count < count && n == n / count * count + n % count
  {
    if n / count >= batches {
      MulMono(batches, n / count, count);
    }
  }

  // ---------------------------------------------------------------- the barrier object

  datatype BarrierError = InvalidCount

  class BarrierObject {
    const count: nat
    var waiters: seq<nat>
    ghost var history: State

    ghost predicate Valid()
      reads this
    {
      Inv(history) && history.count == count && history.waiters == waiters
    }

    constructor (n: nat)
      requires n >= 1
      ensures Valid() && history == Init(n)
    {
      count := n;
      waiters := [];
      history := Init(n);
    }

    /** The public constructor, which throws for a count of zero. */
    static method Create(n: nat) returns (r: Result<BarrierObject, BarrierError>)
      ensures r.Failure? <==> n < 1
      ensures r.Success? ==> fresh(r.value) && r.value.Valid() && r.value.history == Init(n)
    {
      if n < 1 {
        return Failure(InvalidCount);
      }
      var b := new BarrierObject(n);
      return Success(b);
    }

    /** `start`, up to the point where the lock is released: the tasks to complete. */
    method Start(task: nat) returns (tasks: seq<nat>)
      requires Valid() && task == history.arrivals
      modifies this
      ensures Valid() && history == Next(old(history), Arrive)
      ensures |tasks| == if (task + 1) % count == 0 then count else 0
      ensures forall i | 0 <= i < |tasks| :: tasks[i] == task + 1 - count + i
      ensures waiters == if tasks == [] then old(waiters) + [task] else []
    {
      ArriveKeepsInv(history);
      ghost var n := |history.batches|;
      waiters := waiters + [task];
      history := Next(history, Arrive);
      tasks := [];
      DivUnique(task, n, |waiters| - 1, count);
      if |waiters| >= count {
        tasks, waiters := waiters, [];
        MulSucc(n, count);
        DivUnique(task + 1, n + 1, 0, count);
      } else {
        DivUnique(task + 1, n, |waiters|, count);
      }
    }

    /** One round of the completion loop over a batch that was swapped out. */
    method CompleteOne(ghost batch: nat, tasks: seq<nat>, i: nat) returns (task: nat)
      requires Valid() && batch < |history.batches| && history.batches[batch] == tasks
      requires history.done[batch] == i < |tasks|
      modifies this`history
      ensures Valid() && history == Next(old(history), Complete(batch))
      ensures task == batch * count + i && history.log == old(history.log) + [task] && task !in old(history.log)
    {
      CompleteKeepsInv(history, batch);
      task := tasks[i];
      history := Next(history, Complete(batch));
    }
  }
}
