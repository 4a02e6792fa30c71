/**
 The fields of CCheckQueue and the code of its critical sections. The threads, and what
 has been added since the last Wait, are ghost: each critical section is proved to be the
 step of the state machine that its thread takes.
 */
module CheckQueue {
  import opened CheckQueueModel
  import M = CheckQueueModel

  /** How a critical section of Loop ends. */
  datatype Next = Return(result: bool) | Block | Batch(checks: seq<Check>, ok: bool)

  lemma {:induction false} ReverseNext(q: seq<Check>, k: nat)
    requires 0 < k <= |q|
    ensures Reverse(q[k - 1..]) == Reverse(q[k..]) + [q[k - 1]]
  {
    assert q[k - 1..][1..] == q[k..];
  }

  /**
   The checks of a batch, in order; after a failure the rest is skipped. The flag is that of the
   machine's BatchEnds.
   */
  method RunBatch(checks: seq<Check>, ok: bool) returns (fOk: bool)
    ensures fOk <==> ok && !SomeFails(checks)
  {
    fOk := ok;
    for k := 0 to |checks|
      invariant fOk <==> ok && !SomeFails(checks[..k])
    {
      assert checks[..k + 1] == checks[..k] + [checks[k]];
      FailsConcat(checks[..k], [checks[k]]);
      assert SomeFails([checks[k]]) <==> ![checks[k]][0].passes;
      if fOk {
        fOk := checks[k].passes;
      }
    }
    assert checks[..|checks|] == checks;
  }

  class Queue {
    var queue: seq<Check>
    var nIdle: int
    var nTotal: int
    var fAllOk: bool
    var nTodo: int
    const nBatchSize: nat
    ghost var threads: seq<Thread>
    ghost var added: seq<Check>
    ghost var outcomes: seq<Outcome>

    ghost function Model(): State
      reads this
    {
      State(queue, nIdle, nTotal, fAllOk, nTodo, nBatchSize, threads, added, outcomes)
    }

    constructor (batchSize: nat, ghost workers: nat)
      ensures Model() == M.Init(batchSize, workers) && Inv(Model())
    {
      queue, nIdle, nTotal, fAllOk, nTodo, nBatchSize := [], 0, 0, true, 0, batchSize;
      threads, added, outcomes := seq(workers + 1, _ => Outside), [], [];
      new;
      InitOk(batchSize, workers);
    }

    /** The master adds checks; `who` is the worker a single notification reaches. */
    method Add(checks: seq<Check>, ghost who: nat)
      requires Inv(Model()) && Enabled(Model(), AddChecks(checks, who))
      modifies this
      ensures Model() == Apply(old(Model()), AddChecks(checks, who)) && Inv(Model())
    {
      AddKeeps(Model(), checks, who);
      ghost var after := M.Add(Model(), checks, who);
      for k := 0 to |checks|
        invariant queue == old(queue) + checks[..k]
        invariant Model() == old(Model()).(queue := queue)
      {
        queue := queue + [checks[k]];
        assert checks[..k + 1] == checks[..k] + [checks[k]];
      }
      assert checks[..|checks|] == checks;
      nTodo := nTodo + |checks|;
      threads, added := after.threads, after.added;
    }

    /** Pops a batch off the end of the queue. */
    method TakeBatch() returns (batch: seq<Check>)
      requires queue != [] && nTotal + nIdle >= 0
      modifies this`queue
      ensures |batch| == BatchSize(|old(queue)|, nTotal, nIdle, nBatchSize) <= |old(queue)|
      ensures queue == old(queue)[..|old(queue)| - |batch|]
      ensures batch == Reverse(old(queue)[|old(queue)| - |batch|..])
    {
      ghost var q := queue;
      var n := BatchSize(|queue|, nTotal, nIdle, nBatchSize);
      batch := [];
      for i := 0 to n
        invariant |batch| == i <= |q| && queue == q[..|q| - i] && batch == Reverse(q[|q| - i..])
      {
        ReverseNext(q, |q| - i);
        batch := batch + [queue[|queue| - 1]];
        queue := queue[..|queue| - 1];
      }
    }

    /** The top of the inner loop, with the lock held. */
    method Proceed(ghost i: nat, fMaster: bool) returns (next: Next)
      requires Core(Model(), 1) && i < |threads| && threads[i].Outside? && (fMaster <==> i == MASTER)
      modifies this
      ensures Model() == M.Proceed(old(Model()), i) && Inv(Model())
      ensures match next
        case Batch(checks, ok) => threads[i] == Running(checks, 0, ok)
        case Block => threads[i] == Waiting(false)
        case Return(result) => i == MASTER && (result <==> !SomeFails(old(added)))
    {
      ProceedKeeps(Model(), i);
      if queue == [] {
        if fMaster && nTodo == 0 {
          nTotal := nTotal - 1;
          next := Return(fAllOk);
          fAllOk := true;
          outcomes, added := outcomes + [Outcome(added, next.result)], [];
          assert outcomes[|old(outcomes)|] == Outcome(old(added), next.result);
        } else {
          nIdle := nIdle + 1;
          next := Block;
          threads := threads[i := Waiting(false)];
        }
      } else {
        var batch := TakeBatch();
        next := Batch(batch, fAllOk);
        threads := threads[i := Running(batch, 0, fAllOk)];
      }
    }

    /** Entering the loop, or coming back with a finished batch of nNow checks. */
    method LoopTop(ghost i: nat, fMaster: bool, nNow: nat, fOk: bool) returns (next: Next)
      requires Inv(Model()) && i < |threads| && (fMaster <==> i == MASTER)
      requires if nNow == 0 then threads[i].Outside?
        else threads[i].Running? && nNow == threads[i].done == |threads[i].batch| && fOk == threads[i].ok
      modifies this
      ensures Model() == Apply(old(Model()), Critical(i)) && Inv(Model())
      ensures next.Return? ==> fMaster && (next.result <==> !SomeFails(old(added)))
      ensures next.Batch? ==> threads[i] == Running(next.checks, 0, next.ok)
    {
      LockKeeps(Model(), i);
      ghost var locked := M.Lock(Model(), i);
      if nNow != 0 {
        fAllOk := fAllOk && fOk;
        nTodo := nTodo - nNow;
        threads := locked.threads;
      } else {
        nTotal := nTotal + 1;
      }
      next := Proceed(i, fMaster);
    }

    /** Coming back from a wait, notified or not. */
    method WakeUp(ghost i: nat, fMaster: bool) returns (next: Next)
      requires Inv(Model()) && i < |threads| && (fMaster <==> i == MASTER) && threads[i].Waiting?
      modifies this
      ensures Model() == Apply(old(Model()), Critical(i)) && Inv(Model())
      ensures next.Return? ==> fMaster && (next.result <==> !SomeFails(old(added)))
      ensures next.Batch? ==> threads[i] == Running(next.checks, 0, next.ok)
    {
      LockKeeps(Model(), i);
      nIdle := nIdle - 1;
      threads := threads[i := Outside];
      next := Proceed(i, fMaster);
    }

    /** CCheckQueueControl asserts this before it takes the queue into use. */
    method IsIdle() returns (idle: bool)
      requires Inv(Model())
      ensures idle <==> M.IsIdle(Model())
      ensures added == [] ==> idle
    {
      NothingBusy(Model());
      idle := nTotal == nIdle && nTodo == 0 && fAllOk;
    }
  }
}
