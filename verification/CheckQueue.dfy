/**
 The fields of CCheckQueue and the code that runs under its mutex, as methods proved to make the
 steps of CheckQueueModel.
 */
module CheckQueue {
  import opened Basics
  import opened CheckQueueModel
  import opened CheckQueueProofs

  class Queue<T> {
    var queue: seq<T>
    var nIdle: int
    var nTotal: int
    var allOk: bool
    var nTodo: int
    const batchSize: nat

    ghost function Model(): Shared<T>
      reads this
    {
      Shared(queue, nIdle, nTotal, allOk, nTodo, batchSize)
    }

    constructor (batchSize: nat)
      ensures Model() == Shared([], 0, 0, true, 0, batchSize) && IsIdle(Model())
    {
      queue, nIdle, nTotal, allOk, nTodo := [], 0, 0, true, 0;
      this.batchSize := batchSize;
    }

    /** Add: push the checks one by one. How many workers to notify: none, one, or all. */
    method AddChecks(checks: seq<T>) returns (notifyOne: bool, notifyAll: bool)
      modifies this
      ensures Model() == old(Model()).(queue := old(queue) + checks, nTodo := old(nTodo) + |checks|)
      ensures notifyOne == (|checks| == 1) && notifyAll == (|checks| > 1)
    {
      for i := 0 to |checks|
        invariant Model() == old(Model()).(queue := old(queue) + checks[..i])
      {
        assert checks[..i + 1] == checks[..i] + [checks[i]];
        queue := queue + [checks[i]];
      }
      assert checks[..|checks|] == checks;
      nTodo := nTodo + |checks|;
      return |checks| == 1, |checks| > 1;
    }

    /** The first lines of the critical section; true if the master is to be notified. */
    method Report(master: bool, nNow: nat, ok: bool) returns (notifyMaster: bool)
      modifies this
      ensures Model() == CleanUp(old(Model()), nNow, ok)
      ensures notifyMaster <==> nNow > 0 && nTodo == 0 && !master
    {
      if nNow > 0 {
        allOk := allOk && ok;
        nTodo := nTodo - nNow;
        return nTodo == 0 && !master;
      } else {
        nTotal := nTotal + 1;
        return false;
      }
    }

    /** Swap jobs from the back of the queue into a local batch. */
    method PopBatch(n: nat) returns (batch: seq<T>)
      requires n <= |queue|
      modifies `queue
      ensures queue == old(queue)[..|old(queue)| - n] && batch == Popped(old(queue), n)
    {
      batch := [];
      for i := 0 to n
        invariant queue == old(queue)[..|old(queue)| - i]
        invariant batch + Popped(queue, n - i) == Popped(old(queue), n)
      {
        var last := queue[|queue| - 1];
        assert batch + ([last] + Popped(queue[..|queue| - 1], n - i - 1))
            == (batch + [last]) + Popped(queue[..|queue| - 1], n - i - 1);
        batch := batch + [last];
        queue := queue[..|queue| - 1];
      }
    }

    /** The rest of it, up to returning, going to sleep, or leaving with a batch. */
    method Continue(master: bool) returns (o: Outcome<T>)
      requires Counted(Model())
      modifies this
      ensures (Model(), o) == Proceed(old(Model()), master)
    {
      hide Popped;
      if queue == [] {
        if master && nTodo == 0 {
          nTotal := nTotal - 1;
          var result := allOk;
          allOk := true;
          return Returned(result);
        }
        nIdle := nIdle + 1;
        return Slept;
      }
      var n := Max(1, Min(batchSize, |queue| / (nTotal + nIdle + 1)));
      assert n == TakeCount(Model());
      hide TakeCount, Max, Min;
      var batch := PopBatch(n);
      return Took(batch, allOk);
    }

    /** After the condition variable's wait. */
    method Wake()
      modifies `nIdle
      ensures Model() == old(Model()).(nIdle := old(nIdle) - 1)
    {
      nIdle := nIdle - 1;
    }

    method Idle() returns (idle: bool)
      ensures idle == IsIdle(Model())
    {
      return nTotal == nIdle && nTodo == 0 && allOk;
    }
  }

  /** Executing a batch outside the lock: a failed check ends all further evaluation. */
  method RunBatch<T>(eval: T -> bool, batch: seq<T>, start: bool) returns (ok: bool)
    ensures ok == Execute(eval, batch, start)
    ensures ok <==> start && forall i :: 0 <= i < |batch| ==> eval(batch[i])
  {
    ExecuteMeans(eval, batch, start);
    ok := start;
    for i := 0 to |batch|
      invariant Execute(eval, batch[i..], ok) == Execute(eval, batch, start)
    {
      assert batch[i..][1..] == batch[i + 1..];
      if ok {
        ok := eval(batch[i]);
      }
    }
  }
}
