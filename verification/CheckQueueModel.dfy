/**
 The check queue as a state machine. One master and any number of workers share a queue;
 every critical section of the code is one step, and so is the execution of one check.
 */
module CheckQueueModel {
  import opened Powers

  datatype Check = Check(id: nat, passes: bool)

  /**
   Where a thread is: outside the loop, blocked on its condition variable (and perhaps
   notified), or working off a batch outside the lock.
   */
  datatype Thread =
    | Outside
    | Waiting(notified: bool)
    | Running(batch: seq<Check>, done: nat, ok: bool)

  /** What one call of Wait covered and returned. */
  datatype Outcome = Outcome(checks: seq<Check>, result: bool)

  /** The fields of CCheckQueue, its threads (the master first), and what has been asked of it. */
  datatype State = State(
    queue: seq<Check>, nIdle: int, nTotal: int, fAllOk: bool, nTodo: int, nBatchSize: nat,
    threads: seq<Thread>, added: seq<Check>, outcomes: seq<Outcome>)

  const MASTER: nat := 0

  function Init(batchSize: nat, workers: nat): State {
    State([], 0, 0, true, 0, batchSize, seq(workers + 1, _ => Outside), [], [])
  }

  // ---- steps

  /** A share of n, rounded down, or less, fits k times; one more than the share does not. */
  lemma ShareIsFair(n: nat, k: nat, r: nat)
    requires k > 0
    ensures r <= n / k ==> r * k <= n
    ensures n / k <= r ==> n < (r + 1) * k
  {
    var share := n / k;
    assert n == share * k + n % k;
    if r <= share {
      MulMonotone(r, share, k);
    }
    if share <= r {
      MulMonotone(share + 1, r + 1, k);
      assert (share + 1) * k == share * k + k;
    }
  }

  /**
   How many checks a thread takes from a queue of n: at least one, never more than n, and otherwise as many as
   leave the same for each of the other threads and one more, up to the limit.
   */
  function BatchSize(n: nat, nTotal: int, nIdle: int, nBatchSize: nat): (r: nat)
    requires n > 0 && nTotal + nIdle >= 0
    ensures 1 <= r <= n && (r <= nBatchSize || r == 1)
    ensures r > 1 ==> r * (nTotal + nIdle + 1) <= n
    ensures r < nBatchSize ==> n < (r + 1) * (nTotal + nIdle + 1)
  {
    DivShrinks(n, nTotal + nIdle + 1);
    var share := n / (nTotal + nIdle + 1);
    var limited := if share < nBatchSize then share else nBatchSize;
    var r := if limited < 1 then 1 else limited;
    ShareIsFair(n, nTotal + nIdle + 1, r);
    r
  }

  function Reverse(s: seq<Check>): (r: seq<Check>)
    ensures |r| == |s|
  {
    if s == [] then [] else Reverse(s[1..]) + [s[0]]
  }

  /** With the lock held and work there: move a batch off the end of the queue. */
  function Take(s: State, i: nat): State
    requires i < |s.threads| && s.queue != [] && s.nTotal + s.nIdle >= 0
  {
    var k := |s.queue| - BatchSize(|s.queue|, s.nTotal, s.nIdle, s.nBatchSize);
    s.(queue := s.queue[..k], threads := s.threads[i := Running(Reverse(s.queue[k..]), 0, s.fAllOk)])
  }

  /** With the lock held, at the top of the inner loop: return, wait, or take work. */
  function Proceed(s: State, i: nat): State
    requires i < |s.threads| && s.nTotal + s.nIdle >= 0
  {
    if s.queue != [] then Take(s, i)
    else if i == MASTER && s.nTodo == 0 then
      s.(nTotal := s.nTotal - 1, fAllOk := true, added := [], outcomes := s.outcomes + [Outcome(s.added, s.fAllOk)])
    else s.(nIdle := s.nIdle + 1, threads := s.threads[i := Waiting(false)])
  }

  function Notified(t: Thread): Thread { if t.Waiting? then Waiting(true) else t }

  /** May the thread take the lock: to enter the loop, after a wait, or when its batch is done? */
  predicate CanLock(t: Thread) { t.Running? ==> t.done == |t.batch| }

  /** Taking the lock: entering counts the thread in, waking ends its wait, and a finished batch is settled. */
  function Lock(s: State, i: nat): State
    requires i < |s.threads| && CanLock(s.threads[i])
  {
    var t := s.threads[i];
    match t
    case Outside => s.(nTotal := s.nTotal + 1)
    case Waiting(_) => s.(nIdle := s.nIdle - 1, threads := s.threads[i := Outside])
    case Running(batch, _, ok) =>
      var todo := s.nTodo - |batch|;
      var threads := s.threads[i := Outside];
      s.(fAllOk := s.fAllOk && ok, nTodo := todo,
         threads := if todo == 0 && i != MASTER then threads[MASTER := Notified(threads[MASTER])] else threads)
  }

  /** Executing the next check of a batch, unless one has failed already. */
  function Execute(t: Thread): Thread
    requires t.Running? && t.done < |t.batch|
  {
    t.(done := t.done + 1, ok := t.ok && t.batch[t.done].passes)
  }

  /** The master adds checks; one waiting worker, or all of them, are notified. */
  function Add(s: State, checks: seq<Check>, who: nat): State {
    s.(queue := s.queue + checks, nTodo := s.nTodo + |checks|, added := s.added + checks,
       threads := seq(|s.threads|, i requires 0 <= i < |s.threads| =>
         if i != MASTER && (|checks| > 1 || (|checks| == 1 && i == who)) then Notified(s.threads[i]) else s.threads[i]))
  }

  datatype Step = AddChecks(checks: seq<Check>, who: nat) | Critical(i: nat) | Exec(i: nat)

  predicate Enabled(s: State, step: Step) {
    match step
    case AddChecks(_, _) => s.threads != [] && s.threads[MASTER].Outside?
    case Critical(i) => i < |s.threads| && CanLock(s.threads[i])
    case Exec(i) => i < |s.threads| && s.threads[i].Running? && s.threads[i].done < |s.threads[i].batch|
  }

  function Apply(s: State, step: Step): State
    requires Inv(s) && Enabled(s, step)
  {
    match step
    case AddChecks(checks, who) => Add(s, checks, who)
    case Critical(i) =>
      LockKeeps(s, i);
      Proceed(Lock(s, i), i)
    case Exec(i) => s.(threads := s.threads[i := Execute(s.threads[i])])
  }

  // ---- sums over the threads

  function Load(t: Thread): nat { if t.Running? then |t.batch| else 0 }
  function Busy(t: Thread): nat { if t.Running? then 1 else 0 }
  function Idle(t: Thread): nat { if t.Waiting? then 1 else 0 }

  function Sum(f: Thread -> nat, threads: seq<Thread>, n: nat): nat
    requires n <= |threads|
  {
    if n == 0 then 0 else Sum(f, threads, n - 1) + f(threads[n - 1])
  }

  function Total(f: Thread -> nat, threads: seq<Thread>): nat { Sum(f, threads, |threads|) }

  lemma {:induction false} SumSame(f: Thread -> nat, a: seq<Thread>, b: seq<Thread>, n: nat)
    requires n <= |a| && n <= |b| && forall i :: 0 <= i < n ==> f(a[i]) == f(b[i])
    ensures Sum(f, a, n) == Sum(f, b, n)
  {
    if n > 0 {
      SumSame(f, a, b, n - 1);
    }
  }

  lemma {:induction false} SumUpdate(f: Thread -> nat, a: seq<Thread>, i: nat, t: Thread, n: nat)
    requires i < n <= |a|
    ensures Sum(f, a[i := t], n) == Sum(f, a, n) - f(a[i]) + f(t)
  {
    if i == n - 1 {
      SumSame(f, a[i := t], a, n - 1);
    } else {
      SumUpdate(f, a, i, t, n - 1);
    }
  }

  lemma TotalUpdate(f: Thread -> nat, a: seq<Thread>, i: nat, t: Thread)
    requires i < |a|
    ensures Total(f, a[i := t]) == Total(f, a) - f(a[i]) + f(t)
  {
    SumUpdate(f, a, i, t, |a|);
  }

  lemma {:induction false} SumBounds(f: Thread -> nat, a: seq<Thread>, i: nat, n: nat)
    requires i < n <= |a|
    ensures f(a[i]) <= Sum(f, a, n)
  {
    if i < n - 1 {
      SumBounds(f, a, i, n - 1);
    }
  }

  lemma {:induction false} SumWitness(f: Thread -> nat, a: seq<Thread>, n: nat) returns (i: nat)
    requires n <= |a| && Sum(f, a, n) > 0
    ensures i < n && f(a[i]) > 0
  {
    if f(a[n - 1]) > 0 {
      i := n - 1;
    } else {
      i := SumWitness(f, a, n - 1);
    }
  }

  // ---- the invariant

  predicate SomeFails(checks: seq<Check>) { exists k :: 0 <= k < |checks| && !checks[k].passes }

  /** Has the thread seen a failure, or is there one still ahead of it? */
  predicate Failing(t: Thread) {
    t.Running? && t.done <= |t.batch| && (!t.ok || SomeFails(t.batch[t.done..]))
  }
  predicate AnyFailing(threads: seq<Thread>) { exists i :: 0 <= i < |threads| && Failing(threads[i]) }

  predicate ThreadOk(t: Thread) { t.Running? ==> 0 < |t.batch| && t.done <= |t.batch| }

  /** The counters, with `extra` threads that hold the lock. */
  predicate Counts(s: State, extra: nat) {
    && s.nTodo == |s.queue| + Total(Load, s.threads)
    && s.nIdle == Total(Idle, s.threads)
    && s.nTotal == Total(Idle, s.threads) + Total(Busy, s.threads) + extra
  }

  predicate ThreadsOk(s: State) {
    && s.threads != []
    && forall i :: 0 <= i < |s.threads| ==> ThreadOk(s.threads[i])
  }

  /** A waiting master has nothing left to take; not yet notified, it has something to wait for. */
  predicate MasterOk(s: State) {
    s.threads != [] && s.threads[MASTER].Waiting? ==>
      s.queue == [] && (!s.threads[MASTER].notified ==> s.nTodo > 0)
  }

  /** A failure among the added checks is recorded, or still ahead, and nothing else is. */
  predicate Verdict(s: State) {
    SomeFails(s.added) <==> !s.fAllOk || SomeFails(s.queue) || AnyFailing(s.threads)
  }

  predicate NothingAdded(s: State) { s.added == [] ==> s.nTodo == 0 && s.fAllOk }

  predicate OutcomesOk(s: State) {
    forall k :: 0 <= k < |s.outcomes| ==> (s.outcomes[k].result <==> !SomeFails(s.outcomes[k].checks))
  }

  predicate Core(s: State, extra: nat) {
    Counts(s, extra) && ThreadsOk(s) && MasterOk(s) && Verdict(s) && NothingAdded(s) && OutcomesOk(s)
  }

  predicate Inv(s: State) { Core(s, 0) }

  /** Taking the lock keeps the invariant, with one thread counted that is neither idle nor busy. */
  lemma LockKeeps(s: State, i: nat)
    requires Inv(s) && i < |s.threads| && CanLock(s.threads[i])
    ensures Core(Lock(s, i), 1) && Lock(s, i).threads[i].Outside?
  {
    LockCounts(s, i);
    LockVerdict(s, i);
  }

  lemma LockCounts(s: State, i: nat)
    requires Counts(s, 0) && ThreadsOk(s) && i < |s.threads| && CanLock(s.threads[i])
    ensures Counts(Lock(s, i), 1)
  {
    var t := s.threads[i];
    if !t.Outside? {
      var a := s.threads[i := Outside];
      AllUpdate(s.threads, i, Outside);
      AllUpdate(a, MASTER, Notified(a[MASTER]));
    }
  }

  lemma AllUpdate(a: seq<Thread>, i: nat, t: Thread)
    requires i < |a|
    ensures Total(Load, a[i := t]) == Total(Load, a) - Load(a[i]) + Load(t)
    ensures Total(Idle, a[i := t]) == Total(Idle, a) - Idle(a[i]) + Idle(t)
    ensures Total(Busy, a[i := t]) == Total(Busy, a) - Busy(a[i]) + Busy(t)
  {
    TotalUpdate(Load, a, i, t);
    TotalUpdate(Idle, a, i, t);
    TotalUpdate(Busy, a, i, t);
  }

  /** Replacing a thread changes what is failing by that thread alone. */
  lemma FailingUpdate(a: seq<Thread>, i: nat, t: Thread)
    requires i < |a|
    ensures AnyFailing(a[i := t]) || Failing(a[i]) <==> AnyFailing(a) || Failing(t)
    ensures AnyFailing(a) && !Failing(a[i]) ==> AnyFailing(a[i := t])
    ensures AnyFailing(a[i := t]) && !Failing(t) ==> AnyFailing(a)
    ensures Failing(a[i]) ==> AnyFailing(a)
    ensures Failing(t) ==> AnyFailing(a[i := t])
  {
    var b := a[i := t];
    if AnyFailing(a) {
      var j :| 0 <= j < |a| && Failing(a[j]);
      assert j != i ==> Failing(b[j]);
    }
    if AnyFailing(b) {
      var j :| 0 <= j < |b| && Failing(b[j]);
      assert j != i ==> Failing(a[j]);
    }
    assert Failing(t) ==> Failing(b[i]);
  }

  lemma LockVerdict(s: State, i: nat)
    requires Inv(s) && i < |s.threads| && CanLock(s.threads[i])
    ensures Verdict(Lock(s, i))
  {
    var t := s.threads[i];
    if !t.Outside? {
      var a := s.threads[i := Outside];
      FailingUpdate(s.threads, i, Outside);
      FailingUpdate(a, MASTER, Notified(a[MASTER]));
      if t.Running? {
        assert t.batch[t.done..] == [];
      }
    }
  }

  // ---- what a thread does with the lock

  lemma {:induction false} ReverseFails(s: seq<Check>)
    ensures SomeFails(Reverse(s)) <==> SomeFails(s)
  {
    if s != [] {
      ReverseFails(s[1..]);
      FailsConcat(Reverse(s[1..]), [s[0]]);
      FailsConcat([s[0]], s[1..]);
      assert s == [s[0]] + s[1..];
    }
  }

  lemma FailsConcat(a: seq<Check>, b: seq<Check>)
    ensures SomeFails(a + b) <==> SomeFails(a) || SomeFails(b)
  {
    if SomeFails(a) {
      var k :| 0 <= k < |a| && !a[k].passes;
      assert !(a + b)[k].passes;
    }
    if SomeFails(b) {
      var k :| 0 <= k < |b| && !b[k].passes;
      assert !(a + b)[|a| + k].passes;
    }
  }

  lemma TakeKeeps(s: State, i: nat)
    requires Core(s, 1) && i < |s.threads| && s.threads[i].Outside? && s.queue != []
    ensures Inv(Take(s, i))
  {
    var t := Take(s, i);
    var k := |t.queue|;
    var r := t.threads[i];
    AllUpdate(s.threads, i, r);
    FailingUpdate(s.threads, i, r);
    assert s.queue == s.queue[..k] + s.queue[k..];
    FailsConcat(s.queue[..k], s.queue[k..]);
    ReverseFails(s.queue[k..]);
    assert r.batch[0..] == r.batch;
  }

  /** When the master returns, no check is queued or in flight, so the flag is the verdict. */
  lemma ReturnKeeps(s: State)
    requires Core(s, 1) && s.threads[MASTER].Outside? && s.queue == [] && s.nTodo == 0
    ensures Inv(Proceed(s, MASTER)) && (s.fAllOk <==> !SomeFails(s.added))
  {
    forall i | 0 <= i < |s.threads|
      ensures !Failing(s.threads[i])
    {
      SumBounds(Load, s.threads, i, |s.threads|);
    }
  }

  lemma WaitKeeps(s: State, i: nat)
    requires Core(s, 1) && i < |s.threads| && s.threads[i].Outside? && s.queue == [] && (i != MASTER || s.nTodo != 0)
    ensures Inv(Proceed(s, i))
  {
    AllUpdate(s.threads, i, Waiting(false));
    FailingUpdate(s.threads, i, Waiting(false));
  }

  lemma ProceedKeeps(s: State, i: nat)
    requires Core(s, 1) && i < |s.threads| && s.threads[i].Outside?
    ensures Inv(Proceed(s, i))
  {
    if s.queue != [] {
      TakeKeeps(s, i);
    } else if i == MASTER && s.nTodo == 0 {
      ReturnKeeps(s);
    } else {
      WaitKeeps(s, i);
    }
  }

  // ---- the other steps

  lemma ExecKeeps(s: State, i: nat)
    requires Inv(s) && Enabled(s, Exec(i))
    ensures Inv(Apply(s, Exec(i)))
  {
    var t := s.threads[i];
    var u := Execute(t);
    AllUpdate(s.threads, i, u);
    FailingUpdate(s.threads, i, u);
    assert t.batch[t.done..] == [t.batch[t.done]] + t.batch[u.done..];
    FailsConcat([t.batch[t.done]], t.batch[u.done..]);
    assert SomeFails([t.batch[t.done]]) <==> ![t.batch[t.done]][0].passes;
  }

  lemma AddKeeps(s: State, checks: seq<Check>, who: nat)
    requires Inv(s) && Enabled(s, AddChecks(checks, who))
    ensures Inv(Add(s, checks, who))
  {
    var t := Add(s, checks, who);
    SumSame(Load, s.threads, t.threads, |s.threads|);
    SumSame(Idle, s.threads, t.threads, |s.threads|);
    SumSame(Busy, s.threads, t.threads, |s.threads|);
    FailsConcat(s.queue, checks);
    FailsConcat(s.added, checks);
    assert AnyFailing(s.threads) <==> AnyFailing(t.threads) by {
      assert forall i :: 0 <= i < |s.threads| ==> (Failing(s.threads[i]) <==> Failing(t.threads[i]));
    }
  }

  /** Every step keeps the invariant. */
  lemma ApplyKeeps(s: State, step: Step)
    requires Inv(s) && Enabled(s, step)
    ensures Inv(Apply(s, step))
  {
    match step
    case AddChecks(checks, who) => AddKeeps(s, checks, who);
    case Critical(i) =>
      LockKeeps(s, i);
      ProceedKeeps(Lock(s, i), i);
    case Exec(i) => ExecKeeps(s, i);
  }

  lemma InitOk(batchSize: nat, workers: nat)
    ensures Inv(Init(batchSize, workers))
  {
    var a := Init(batchSize, workers).threads;
    AllOutside(Load, a, |a|);
    AllOutside(Idle, a, |a|);
    AllOutside(Busy, a, |a|);
    assert !AnyFailing(a);
  }

  lemma {:induction false} AllOutside(f: Thread -> nat, a: seq<Thread>, n: nat)
    requires n <= |a| && f(Outside) == 0 && forall i :: 0 <= i < |a| ==> a[i] == Outside
    ensures Sum(f, a, n) == 0
  {
    if n > 0 {
      AllOutside(f, a, n - 1);
    }
  }

  // ---- whole runs

  ghost predicate Possible(s: State, steps: seq<Step>)
    requires Inv(s)
    decreases |steps|
  {
    steps == [] || (Enabled(s, steps[0]) && (ApplyKeeps(s, steps[0]); Possible(Apply(s, steps[0]), steps[1..])))
  }

  ghost function Run(s: State, steps: seq<Step>): State
    requires Inv(s) && Possible(s, steps)
    decreases |steps|
  {
    if steps == [] then s else
    ApplyKeeps(s, steps[0]);
    Run(Apply(s, steps[0]), steps[1..])
  }

  lemma {:induction false} RunKeeps(s: State, steps: seq<Step>)
    requires Inv(s) && Possible(s, steps)
    ensures Inv(Run(s, steps))
    decreases |steps|
  {
    if steps != [] {
      ApplyKeeps(s, steps[0]);
      RunKeeps(Apply(s, steps[0]), steps[1..]);
    }
  }

  // ---- one batch, while the other threads go on

  function Executions(steps: seq<Step>, i: nat): nat {
    if steps == [] then 0 else (if steps[0] == Exec(i) then 1 else 0) + Executions(steps[1..], i)
  }

  /** What n checks make of a thread in a batch. */
  function Executed(t: Thread, n: nat): Thread
    requires t.Running? && t.done + n <= |t.batch|
  {
    t.(done := t.done + n, ok := t.ok && !SomeFails(t.batch[t.done..t.done + n]))
  }

  /** Nothing other threads do touches a thread in a batch. */
  lemma OthersLeave(s: State, step: Step, i: nat)
    requires Inv(s) && Enabled(s, step) && i < |s.threads| && s.threads[i].Running? && step != Critical(i)
    ensures var r := Apply(s, step);
      |r.threads| == |s.threads| && r.threads[i] == if step == Exec(i) then Execute(s.threads[i]) else s.threads[i]
  {
  }

  lemma ExecutedNext(t: Thread, n: nat)
    requires t.Running? && t.done + n + 1 <= |t.batch|
    ensures Executed(Execute(t), n) == Executed(t, n + 1)
  {
    var first, rest := [t.batch[t.done]], t.batch[t.done + 1..t.done + 1 + n];
    assert t.batch[t.done..t.done + n + 1] == first + rest;
    FailsConcat(first, rest);
    assert SomeFails(first) <==> !first[0].passes;
  }

  /** In every run in which thread i stays in its batch, it has executed as many checks as there were such steps. */
  lemma {:induction false} BatchAdvances(s: State, steps: seq<Step>, i: nat)
    requires Inv(s) && Possible(s, steps) && i < |s.threads| && s.threads[i].Running? && Critical(i) !in steps
    ensures var t, r, n := s.threads[i], Run(s, steps), Executions(steps, i);
      t.done + n <= |t.batch| && |r.threads| == |s.threads| && r.threads[i] == Executed(t, n)
    decreases |steps|
  {
    var t := s.threads[i];
    if steps == [] {
      assert t.batch[t.done..t.done + 0] == [];
    } else {
      ApplyKeeps(s, steps[0]);
      OthersLeave(s, steps[0], i);
      BatchAdvances(Apply(s, steps[0]), steps[1..], i);
      if steps[0] == Exec(i) {
        ExecutedNext(t, Executions(steps[1..], i));
      }
    }
  }

  /** Once through its batch, whatever else happened, the thread is ready to lock with the flag the loop computes. */
  lemma BatchEnds(s: State, steps: seq<Step>, i: nat)
    requires Inv(s) && Possible(s, steps) && i < |s.threads| && s.threads[i].Running? && Critical(i) !in steps
    requires s.threads[i].done == 0 && Executions(steps, i) == |s.threads[i].batch|
    ensures var t, r := s.threads[i], Run(s, steps);
      && |r.threads| == |s.threads| && Enabled(r, Critical(i))
      && r.threads[i] == Running(t.batch, |t.batch|, t.ok && !SomeFails(t.batch))
  {
    BatchAdvances(s, steps, i);
    var t := s.threads[i];
    assert t.batch[0..|t.batch|] == t.batch;
  }

  /** A state some interleaving of one master and the given workers leads to. */
  ghost predicate Reachable(s: State) {
    exists batchSize: nat, workers: nat, steps: seq<Step> ::
      && Inv(Init(batchSize, workers)) && Possible(Init(batchSize, workers), steps)
      && s == Run(Init(batchSize, workers), steps)
  }

  lemma ReachableOk(s: State)
    requires Reachable(s)
    ensures Inv(s)
  {
    var batchSize: nat, workers: nat, steps: seq<Step> :|
      && Inv(Init(batchSize, workers)) && Possible(Init(batchSize, workers), steps)
      && s == Run(Init(batchSize, workers), steps);
    RunKeeps(Init(batchSize, workers), steps);
  }

  /**
   In every interleaving, each Wait returned true exactly when all checks added since the
   previous Wait pass, though checks are skipped once one has failed.
   */
  lemma EveryWaitIsRight(s: State, k: nat)
    requires Reachable(s) && k < |s.outcomes|
    ensures s.outcomes[k].result <==> forall j :: 0 <= j < |s.outcomes[k].checks| ==> s.outcomes[k].checks[j].passes
  {
    ReachableOk(s);
  }

  /** Every check is queued or in a batch until it is accounted for. */
  lemma TodoIsExact(s: State)
    requires Reachable(s)
    ensures s.nTodo == |s.queue| + Total(Load, s.threads)
  {
    ReachableOk(s);
  }

  /** No wake-up is lost: a master that waits un-notified has a worker in the middle of a batch. */
  lemma NoLostWakeUp(s: State) returns (worker: nat)
    requires Reachable(s) && s.threads != [] && s.threads[MASTER] == Waiting(false)
    ensures 0 < worker < |s.threads| && s.threads[worker].Running? && s.threads[worker].batch != []
  {
    ReachableOk(s);
    worker := SumWitness(Load, s.threads, |s.threads|);
  }

  predicate IsIdle(s: State) { s.nTotal == s.nIdle && s.nTodo == 0 && s.fAllOk }

  /** Outside Wait, with nothing added since the last one, the queue reports itself idle. */
  lemma IdleUntilAdd(s: State)
    requires Reachable(s) && s.added == []
    ensures IsIdle(s)
  {
    ReachableOk(s);
    NothingBusy(s);
  }

  lemma NothingBusy(s: State)
    requires Inv(s)
    ensures s.added == [] ==> IsIdle(s)
  {
    if s.added == [] && Total(Busy, s.threads) > 0 {
      var i := SumWitness(Busy, s.threads, |s.threads|);
      SumBounds(Load, s.threads, i, |s.threads|);
    }
  }

  /** A return of Wait leaves nothing added. */
  lemma WaitReturnsIdle(s: State)
    requires Inv(s) && CanLock(s.threads[MASTER]) && Apply(s, Critical(MASTER)).threads[MASTER].Outside?
    ensures var t := Apply(s, Critical(MASTER));
      && t.added == [] && IsIdle(t)
      && t.outcomes == s.outcomes + [Outcome(s.added, t.outcomes[|s.outcomes|].result)]
  {
    LockKeeps(s, MASTER);
    var t := Apply(s, Critical(MASTER));
    ApplyKeeps(s, Critical(MASTER));
    NothingBusy(t);
  }

  // ---- progress

  /** Work left, weighted so that moving a check on always costs some. */
  function Effort(t: Thread): nat {
    if t.Running? && t.done <= |t.batch| then 2 * (|t.batch| - t.done) + 1 else 0
  }
  function Work(s: State): nat { 4 * |s.queue| + Total(Effort, s.threads) }

  /** Executing a check, and settling a finished batch, use up work; waking and waiting add none. */
  lemma WorkShrinks(s: State, step: Step)
    requires Inv(s) && Enabled(s, step) && !step.AddChecks?
    ensures Work(Apply(s, step)) <= Work(s)
    ensures s.threads[step.i].Running? ==> Work(Apply(s, step)) < Work(s)
  {
    var i := step.i;
    if step.Exec? {
      TotalUpdate(Effort, s.threads, i, Execute(s.threads[i]));
    } else {
      LockKeeps(s, i);
      LockWork(s, i);
      var t := Lock(s, i);
      if t.queue != [] || !(i == MASTER && t.nTodo == 0) {
        TotalUpdate(Effort, t.threads, i, Proceed(t, i).threads[i]);
      }
    }
  }

  lemma LockWork(s: State, i: nat)
    requires Inv(s) && i < |s.threads| && CanLock(s.threads[i])
    ensures Work(Lock(s, i)) == Work(s) - Effort(s.threads[i])
  {
    if !s.threads[i].Outside? {
      var a := s.threads[i := Outside];
      TotalUpdate(Effort, s.threads, i, Outside);
      TotalUpdate(Effort, a, MASTER, Notified(a[MASTER]));
    }
  }

  /** While the master is in Wait some thread can do more than wait again: it is never stuck. */
  lemma NeverStuck(s: State) returns (step: Step)
    requires Inv(s) && !s.threads[MASTER].Outside?
    ensures Enabled(s, step) && !step.AddChecks?
    ensures s.threads[step.i].Running? || (step == Critical(MASTER) && Apply(s, step).threads[MASTER].Outside?)
  {
    var m := s.threads[MASTER];
    if m.Running? {
      step := if m.done < |m.batch| then Exec(MASTER) else Critical(MASTER);
    } else if s.nTodo > 0 {
      var w := SumWitness(Load, s.threads, |s.threads|);
      var t := s.threads[w];
      step := if t.done < |t.batch| then Exec(w) else Critical(w);
    } else {
      step := Critical(MASTER);
    }
  }

  /** How many steps of a run are taken by a thread in the middle of a batch. */
  ghost function Working(s: State, steps: seq<Step>): nat
    requires Inv(s) && Possible(s, steps) && forall step :: step in steps ==> !step.AddChecks?
    decreases |steps|
  {
    if steps == [] then 0 else
    ApplyKeeps(s, steps[0]);
    (if s.threads[steps[0].i].Running? then 1 else 0) + Working(Apply(s, steps[0]), steps[1..])
  }

  /** In a run without Add every working step uses up work: there are at most as many as there was work. */
  lemma {:induction false} WorkIsBounded(s: State, steps: seq<Step>)
    requires Inv(s) && Possible(s, steps) && forall step :: step in steps ==> !step.AddChecks?
    ensures Working(s, steps) + Work(Run(s, steps)) <= Work(s)
    decreases |steps|
  {
    if steps != [] {
      ApplyKeeps(s, steps[0]);
      WorkShrinks(s, steps[0]);
      WorkIsBounded(Apply(s, steps[0]), steps[1..]);
    }
  }

  /** Once no thread is in a batch, the waiting master's next step is to return. */
  lemma ReturnsWhenDone(s: State)
    requires Inv(s) && !s.threads[MASTER].Outside? && forall i :: 0 <= i < |s.threads| ==> !s.threads[i].Running?
    ensures Enabled(s, Critical(MASTER)) && Apply(s, Critical(MASTER)).threads[MASTER].Outside?
  {
    var step := NeverStuck(s);
  }

  /** From wherever it waits, the master can return within one step more than there is work. */
  lemma {:induction false} MasterReturns(s: State) returns (steps: seq<Step>)
    requires Inv(s) && !s.threads[MASTER].Outside?
    ensures Possible(s, steps) && |steps| <= Work(s) + 1 && forall step :: step in steps ==> !step.AddChecks?
    ensures Run(s, steps).threads != [] && Run(s, steps).threads[MASTER].Outside?
    decreases Work(s)
  {
    var step := NeverStuck(s);
    ApplyKeeps(s, step);
    WorkShrinks(s, step);
    var t, rest := Apply(s, step), [];
    if !t.threads[MASTER].Outside? {
      rest := MasterReturns(t);
    }
    steps := [step] + rest;
    assert steps[1..] == rest;
  }
}
