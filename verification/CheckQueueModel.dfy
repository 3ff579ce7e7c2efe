/**
 The script-check queue as a state machine. One master adds checks and waits; any number of workers
 take batches. A step is one critical section of CCheckQueue::Loop (up to leaving the lock or going
 to sleep) or one Add; batches are executed between steps.
 */
module CheckQueueModel {
  import opened Basics

  /** The fields the mutex protects. */
  datatype Shared<T> = Shared(
    queue: seq<T>, nIdle: int, nTotal: int, allOk: bool, nTodo: int, batchSize: nat)

  /** How a pass through the critical section ends. */
  datatype Outcome<T> = Took(batch: seq<T>, ok: bool) | Slept | Returned(result: bool)

  function Min(x: int, y: int): int { if x < y then x else y }

  function BatchCount<T>(q: Shared<T>): int
    requires q.nTotal + q.nIdle + 1 > 0
  {
    Max(1, Min(q.batchSize, |q.queue| / (q.nTotal + q.nIdle + 1)))
  }

  /** The last n elements, last one first: the order in which the stack is emptied. */
  function Popped<T>(q: seq<T>, n: nat): (r: seq<T>)
    requires n <= |q|
    ensures |r| == n
  {
    if n == 0 then [] else [q[|q| - 1]] + Popped(q[..|q| - 1], n - 1)
  }

  /** Reporting a batch of nNow checks, or entering the loop for the first time. */
  function CleanUp<T>(q: Shared<T>, nNow: nat, ok: bool): Shared<T> {
    if nNow > 0 then q.(allOk := q.allOk && ok, nTodo := q.nTodo - nNow) else q.(nTotal := q.nTotal + 1)
  }

  /** Return, sleep, or take a batch. */
  function Proceed<T>(q: Shared<T>, master: bool): (Shared<T>, Outcome<T>)
    requires q.queue != [] ==> 0 <= q.nTotal && 0 <= q.nIdle
  {
    if q.queue == [] then
      if master && q.nTodo == 0 then (q.(nTotal := q.nTotal - 1, allOk := true), Returned(q.allOk))
      else (q.(nIdle := q.nIdle + 1), Slept)
    else
      var n := TakeCount(q);
      (q.(queue := q.queue[..|q.queue| - n]), Took(Popped(q.queue, n), q.allOk))
  }

  function TakeCount<T>(q: Shared<T>): (n: nat)
    requires q.queue != [] && 0 <= q.nTotal && 0 <= q.nIdle
    ensures 1 <= n <= |q.queue|
  {
    var d := q.nTotal + q.nIdle + 1;
    assert |q.queue| / d <= |q.queue|;
    BatchCount(q)
  }

  /** Executing a batch: after the first failure the rest is skipped. */
  function Execute<T>(eval: T -> bool, batch: seq<T>, ok: bool): bool {
    if batch == [] then ok else Execute(eval, batch[1..], if ok then eval(batch[0]) else ok)
  }

  // ---------------------------------------------------------------- threads

  datatype Thread<T> =
    | Outside                          // a worker not yet started, or the master between Waits
    | Busy(batch: seq<T>, ok: bool)    // holds a batch it has not reported
    | Asleep(notified: bool)           // on its condition variable

  /** `added` collects the checks since the last Wait returned; `answer` is that Wait's result. */
  datatype System<!T> = System(
    eval: T -> bool, shared: Shared<T>, workers: seq<Thread<T>>, master: Thread<T>,
    added: multiset<T>, answer: Option<bool>)

  datatype Action<T> =
    | Add(checks: seq<T>)
    | WorkerStarts(i: nat)
    | WorkerReports(i: nat)
    | WorkerWakes(i: nat)
    | MasterWaits
    | MasterReports
    | MasterWakes

  predicate Enabled<T>(s: System<T>, a: Action<T>) {
    match a
    case Add(_) => s.master.Outside?
    case WorkerStarts(i) => i < |s.workers| && s.workers[i].Outside?
    case WorkerReports(i) => i < |s.workers| && s.workers[i].Busy?
    case WorkerWakes(i) => i < |s.workers| && s.workers[i].Asleep?
    case MasterWaits => s.master.Outside?
    case MasterReports => s.master.Busy?
    case MasterWakes => s.master.Asleep?
  }

  function Resumed<T>(o: Outcome<T>): Thread<T> {
    match o
    case Took(batch, ok) => Busy(batch, ok)
    case Slept => Asleep(false)
    case Returned(_) => Outside
  }

  /** A worker continues with shared state q; `last` says that its report made nTodo zero. */
  function WorkerGoes<T>(s: System<T>, i: nat, q: Shared<T>, last: bool): System<T>
    requires i < |s.workers| && (q.queue != [] ==> 0 <= q.nTotal && 0 <= q.nIdle)
  {
    var (p, o) := Proceed(q, false);
    s.(shared := p, workers := s.workers[i := Resumed(o)],
       master := if last && s.master.Asleep? then Asleep(true) else s.master)
  }

  function MasterGoes<T>(s: System<T>, q: Shared<T>): System<T>
    requires q.queue != [] ==> 0 <= q.nTotal && 0 <= q.nIdle
  {
    var (p, o) := Proceed(q, true);
    if o.Returned? then s.(shared := p, master := Outside, added := multiset{}, answer := Some(o.result))
    else s.(shared := p, master := Resumed(o))
  }

  /** Notified workers wake at their own step, as they may also do unprompted. */
  function AddChecks<T>(s: System<T>, checks: seq<T>): System<T> {
    s.(shared := s.shared.(queue := s.shared.queue + checks, nTodo := s.shared.nTodo + |checks|),
       added := s.added + multiset(checks))
  }

  ghost predicate Counted<T>(q: Shared<T>) {
    0 <= q.nTotal && 0 <= q.nIdle
  }

  /** Enabled, with counters that make sense; the proofs show that the second part always holds. */
  ghost predicate CanStep<T>(s: System<T>, a: Action<T>) {
    Enabled(s, a) && Counted(s.shared) && (a.WorkerWakes? || a.MasterWakes? ==> s.shared.nIdle > 0)
  }

  ghost function Apply<T>(s: System<T>, a: Action<T>): System<T>
    requires CanStep(s, a)
  {
    match a
    case Add(checks) => AddChecks(s, checks)
    case WorkerStarts(i) => WorkerGoes(s, i, CleanUp(s.shared, 0, true), false)
    case WorkerReports(i) =>
      var w := s.workers[i];
      var q := CleanUp(s.shared, |w.batch|, Execute(s.eval, w.batch, w.ok));
      WorkerGoes(s, i, q, w.batch != [] && q.nTodo == 0)
    case WorkerWakes(i) => WorkerGoes(s, i, s.shared.(nIdle := s.shared.nIdle - 1), false)
    case MasterWaits => MasterGoes(s, CleanUp(s.shared, 0, true))
    case MasterReports => MasterGoes(s, CleanUp(s.shared, |s.master.batch|, Execute(s.eval, s.master.batch, s.master.ok)))
    case MasterWakes => MasterGoes(s, s.shared.(nIdle := s.shared.nIdle - 1))
  }

  predicate IsIdle<T>(q: Shared<T>) {
    q.nTotal == q.nIdle && q.nTodo == 0 && q.allOk
  }

  /** A new queue with n worker threads that have not started yet. */
  function Start<T>(eval: T -> bool, n: nat, batchSize: nat): System<T> {
    System(eval, Shared([], 0, 0, true, 0, batchSize), seq(n, _ => Outside), Outside, multiset{}, None)
  }
}
