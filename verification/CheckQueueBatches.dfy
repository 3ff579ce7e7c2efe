/**
 How the check queue is shared out: the size of a batch, and which checks it holds.
 */
module CheckQueueBatches {
  import opened Basics
  import opened CheckQueueModel

  /** The thread that takes a batch leaves as much for each of the others and one more. */
  ghost predicate Fair<T>(q: Shared<T>, n: nat) {
    n * (q.nTotal + q.nIdle + 1) <= |q.queue|
  }

  /** A batch is the largest fair number of checks within the batch size, but at least one check. */
  lemma BatchIsFairShare<T>(q: Shared<T>)
    requires q.queue != [] && 0 <= q.nTotal && 0 <= q.nIdle
    ensures var n := TakeCount(q);
            && 1 <= n <= Max(1, q.batchSize)
            && (n > 1 ==> Fair(q, n))
            && forall m: nat :: m <= q.batchSize && Fair(q, m) ==> m <= n
  {
    var d := q.nTotal + q.nIdle + 1;
    var share := |q.queue| / d;
    assert share * d <= |q.queue| < (share + 1) * d;
    var n := TakeCount(q);
    if n > 1 { MulMono(share, n, d); }
    forall m: nat | m <= q.batchSize && Fair(q, m) ensures m <= n {
      if m > share { MulMono(m, share + 1, d); }
    }
  }

  lemma {:induction false} PoppedAt<T>(q: seq<T>, n: nat, k: nat)
    requires k < n <= |q|
    ensures Popped(q, n)[k] == q[|q| - 1 - k]
  {
    if k > 0 { PoppedAt(q[..|q| - 1], n - 1, k - 1); }
  }

  /** Taking a batch: its checks are the last of the queue, last one first, and the others stay in order. */
  lemma BatchTaken<T>(q: Shared<T>, master: bool)
    requires q.queue != [] && 0 <= q.nTotal && 0 <= q.nIdle
    ensures var (p, o) := Proceed(q, master);
            && o.Took? && o.ok == q.allOk && |o.batch| + |p.queue| == |q.queue| && |o.batch| == TakeCount(q)
            && (forall k: nat :: k < |p.queue| ==> p.queue[k] == q.queue[k])
            && (forall k: nat :: k < |o.batch| ==> o.batch[k] == q.queue[|q.queue| - 1 - k])
            && p == q.(queue := p.queue)
  {
    hide TakeCount;
    var n := TakeCount(q);
    forall k: nat | k < n ensures Popped(q.queue, n)[k] == q.queue[|q.queue| - 1 - k] {
      PoppedAt(q.queue, n, k);
    }
  }

  /**
   With nothing queued: the master returns the verdict, and only once no check is unreported, and leaves a
   clean verdict behind. Everyone else goes to sleep.
   */
  lemma NothingQueued<T>(q: Shared<T>, master: bool)
    requires q.queue == []
    ensures var (p, o) := Proceed(q, master);
            && (o.Returned? <==> master && q.nTodo == 0)
            && (o.Returned? ==> o.result == q.allOk && p.allOk && p.nTotal == q.nTotal - 1 && p.nIdle == q.nIdle)
            && (!o.Returned? ==> o.Slept? && p.nIdle == q.nIdle + 1 && p.nTotal == q.nTotal && p.allOk == q.allOk)
            && p.queue == [] && p.nTodo == q.nTodo && p.batchSize == q.batchSize
  {
  }
}
