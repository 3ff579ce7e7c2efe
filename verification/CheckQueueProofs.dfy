/**
 Safety of the check queue under every interleaving: conservation of checks, correctness of the
 answer, no lost wake-up of the master, and idleness between uses.
 */
module CheckQueueProofs {
  import opened Basics
  import opened CheckQueueModel

  // ---------------------------------------------------------------- sums over threads

  function BatchOf<T>(t: Thread<T>): multiset<T> {
    if t.Busy? then multiset(t.batch) else multiset{}
  }

  function Held<T>(ws: seq<Thread<T>>): multiset<T> {
    if ws == [] then multiset{} else BatchOf(ws[0]) + Held(ws[1..])
  }

  function Sleeping<T>(t: Thread<T>): nat { if t.Asleep? then 1 else 0 }
  function Inside<T>(t: Thread<T>): nat { if t.Outside? then 0 else 1 }

  function Sleepers<T>(ws: seq<Thread<T>>): nat {
    if ws == [] then 0 else Sleeping(ws[0]) + Sleepers(ws[1..])
  }

  function Insiders<T>(ws: seq<Thread<T>>): nat {
    if ws == [] then 0 else Inside(ws[0]) + Insiders(ws[1..])
  }

  lemma {:induction false} HeldUpdate<T>(ws: seq<Thread<T>>, i: nat, t: Thread<T>)
    requires i < |ws|
    ensures Held(ws[i := t]) + BatchOf(ws[i]) == Held(ws) + BatchOf(t)
  {
    hide BatchOf;
    if i == 0 {
      assert ws[i := t][1..] == ws[1..];
    } else {
      assert ws[i := t][1..] == ws[1..][i - 1 := t];
      HeldUpdate(ws[1..], i - 1, t);
      var a, b, c := BatchOf(ws[0]), Held(ws[1..]), Held(ws[1..][i - 1 := t]);
      assert a + c + BatchOf(ws[i]) == a + (c + BatchOf(ws[i]));
    }
  }

  lemma {:induction false} CountsUpdate<T>(ws: seq<Thread<T>>, i: nat, t: Thread<T>)
    requires i < |ws|
    ensures Sleepers(ws[i := t]) + Sleeping(ws[i]) == Sleepers(ws) + Sleeping(t)
    ensures Insiders(ws[i := t]) + Inside(ws[i]) == Insiders(ws) + Inside(t)
  {
    if i == 0 {
      assert ws[i := t][1..] == ws[1..];
    } else {
      assert ws[i := t][1..] == ws[1..][i - 1 := t];
      CountsUpdate(ws[1..], i - 1, t);
    }
  }

  lemma {:induction false} SumsOutside<T>(n: nat)
    ensures var ws: seq<Thread<T>> := seq(n, _ => Outside);
            Held(ws) == multiset{} && Sleepers(ws) == 0 && Insiders(ws) == 0
  {
    var ws: seq<Thread<T>> := seq(n, _ => Outside);
    if n > 0 {
      SumsOutside<T>(n - 1);
      assert ws[1..] == seq(n - 1, _ => Outside);
    }
  }

  lemma {:induction false} HeldIncludes<T>(ws: seq<Thread<T>>, i: nat)
    requires i < |ws|
    ensures BatchOf(ws[i]) <= Held(ws)
  {
    if i > 0 { HeldIncludes(ws[1..], i - 1); }
  }

  /** Without batches, everyone inside is asleep. */
  lemma {:induction false} NobodyBusy<T>(ws: seq<Thread<T>>)
    requires forall i :: 0 <= i < |ws| ==> !ws[i].Busy?
    ensures Sleepers(ws) == Insiders(ws) && Held(ws) == multiset{}
  {
    if ws != [] { NobodyBusy(ws[1..]); }
  }

  // ---------------------------------------------------------------- the invariant

  /** Checks queued or in an unreported batch. */
  ghost function Pending<T>(s: System<T>): multiset<T> {
    multiset(s.shared.queue) + Held(s.workers) + BatchOf(s.master)
  }

  ghost predicate Conserved<T>(s: System<T>) {
    Pending(s) <= s.added && s.shared.nTodo == |Pending(s)|
  }

  /** `extra` is 1 while a thread, shown as Outside, is inside the critical section. */
  ghost predicate Counts<T>(s: System<T>, extra: nat) {
    && s.shared.nIdle == Sleepers(s.workers) + Sleeping(s.master)
    && s.shared.nTotal == Insiders(s.workers) + Inside(s.master) + extra
  }

  ghost predicate BatchOk<T>(s: System<T>, t: Thread<T>) {
    t.Busy? ==> t.batch != [] && (!t.ok ==> !s.shared.allOk)
  }

  /** The flag is honest: false means a failure, true means nothing reported has failed. */
  ghost predicate Verdict<T(!new)>(s: System<T>) {
    && (s.shared.allOk ==> forall c :: c in s.added - Pending(s) ==> s.eval(c))
    && (!s.shared.allOk ==> exists c :: c in s.added && !s.eval(c))
    && BatchOk(s, s.master) && forall i :: 0 <= i < |s.workers| ==> BatchOk(s, s.workers[i])
  }

  ghost predicate Wakeups<T>(s: System<T>) {
    && (s.master.Asleep? ==> s.shared.queue == [])
    && (s.master.Asleep? && !s.master.notified ==> s.shared.nTodo > 0)
  }

  ghost predicate Inv<T(!new)>(s: System<T>, extra: nat) {
    Conserved(s) && Counts(s, extra) && Verdict(s) && Wakeups(s)
  }

  // ---------------------------------------------------------------- batches

  lemma {:induction false} PoppedSplits<T>(q: seq<T>, n: nat)
    requires n <= |q|
    ensures multiset(q[..|q| - n]) + multiset(Popped(q, n)) == multiset(q)
  {
    if n > 0 {
      var p := q[..|q| - 1];
      PoppedSplits(p, n - 1);
      assert p[..|p| - (n - 1)] == q[..|q| - n];
      assert q == p + [q[|q| - 1]];
    } else {
      assert q[..|q| - n] == q;
    }
  }

  /** A batch's result: false without a failure in it only if it started false. */
  lemma {:induction false} ExecuteMeans<T>(eval: T -> bool, batch: seq<T>, ok: bool)
    ensures Execute(eval, batch, ok) <==> ok && forall i :: 0 <= i < |batch| ==> eval(batch[i])
    decreases |batch|
  {
    if batch != [] {
      ExecuteMeans(eval, batch[1..], if ok then eval(batch[0]) else ok);
      assert batch == [batch[0]] + batch[1..];
    }
  }

  lemma ExecuteMultiset<T>(eval: T -> bool, batch: seq<T>, ok: bool)
    ensures Execute(eval, batch, ok) ==> ok && forall c :: c in multiset(batch) ==> eval(c)
    ensures ok && !Execute(eval, batch, ok) ==> exists c :: c in multiset(batch) && !eval(c)
  {
    ExecuteMeans(eval, batch, ok);
    if ok && !Execute(eval, batch, ok) {
      var i :| 0 <= i < |batch| && !eval(batch[i]);
      assert batch[i] in multiset(batch);
    }
  }

  // ---------------------------------------------------------------- reports

  /** Thread state t, holding a batch, is replaced by Outside; its result is recorded. */
  ghost predicate Reported<T>(s: System<T>, m: System<T>, t: Thread<T>) {
    && t.Busy? && m.eval == s.eval && m.added == s.added
    && m.shared == CleanUp(s.shared, |t.batch|, Execute(s.eval, t.batch, t.ok))
    && Pending(m) + multiset(t.batch) == Pending(s)
  }

  lemma ReportVerdict<T(!new)>(s: System<T>, m: System<T>, t: Thread<T>)
    requires Conserved(s) && Verdict(s) && BatchOk(s, t) && Reported(s, m, t)
    ensures Conserved(m)
    ensures m.shared.allOk ==> s.shared.allOk
    ensures m.shared.allOk ==> forall c :: c in m.added - Pending(m) ==> m.eval(c)
    ensures !m.shared.allOk ==> exists c :: c in m.added && !m.eval(c)
  {
    ExecuteMultiset(s.eval, t.batch, t.ok);
    assert |multiset(t.batch)| == |t.batch|;
    var before, after := s.added - Pending(s), m.added - Pending(m);
    assert after == before + multiset(t.batch);
    if m.shared.allOk {
      forall c | c in after ensures m.eval(c) {
        assert c in before || c in multiset(t.batch);
      }
    } else if s.shared.allOk {
      var c :| c in multiset(t.batch) && !s.eval(c);
      assert c in Pending(s);
    }
  }

  /** The same with the threads: whoever is not as before holds nothing. */
  lemma ReportKeepsVerdict<T(!new)>(s: System<T>, m: System<T>, t: Thread<T>)
    requires Conserved(s) && Verdict(s) && BatchOk(s, t) && Reported(s, m, t)
    requires m.master == s.master || !m.master.Busy?
    requires |m.workers| == |s.workers|
    requires forall j :: 0 <= j < |m.workers| ==> m.workers[j] == s.workers[j] || !m.workers[j].Busy?
    ensures Conserved(m) && Verdict(m)
  {
    hide Pending, Conserved, Reported, BatchOk;
    ReportVerdict(s, m, t);
    BatchStays(s, m, s.master, m.master);
    forall j | 0 <= j < |m.workers| ensures BatchOk(m, m.workers[j]) { BatchStays(s, m, s.workers[j], m.workers[j]); }
  }

  lemma BatchStays<T>(s: System<T>, m: System<T>, was: Thread<T>, now: Thread<T>)
    requires BatchOk(s, was) && (now == was || !now.Busy?) && (m.shared.allOk ==> s.shared.allOk)
    ensures BatchOk(m, now)
  {
  }

  // ---------------------------------------------------------------- pending checks

  lemma MoveOut<T>(q: multiset<T>, h: multiset<T>, h': multiset<T>, m: multiset<T>, b: multiset<T>)
    requires h' + b == h
    ensures q + h' + m + b == q + h + m
  {
    assert q + h' + m + b == q + (h' + b) + m;
  }

  lemma MoveIn<T>(q: multiset<T>, q': multiset<T>, h: multiset<T>, h': multiset<T>, m: multiset<T>, b: multiset<T>)
    requires h' == h + b && q' + b == q
    ensures q' + h' + m == q + h + m
  {
    assert q' + (h + b) + m == (q' + b) + h + m;
  }

  lemma PendingLeaves<T>(s: System<T>, m: System<T>, i: nat)
    requires i < |s.workers| && m.workers == s.workers[i := Outside] && m.shared.queue == s.shared.queue
    requires BatchOf(m.master) == BatchOf(s.master)
    ensures Pending(m) + BatchOf(s.workers[i]) == Pending(s)
  {
    hide BatchOf, Held;
    HeldUpdate(s.workers, i, Outside);
    OutsideBatch<T>();
    MoveOut(multiset(s.shared.queue), Held(s.workers), Held(m.workers), BatchOf(s.master), BatchOf(s.workers[i]));
  }

  lemma OutsideBatch<T>()
    ensures forall x: multiset<T> :: x + BatchOf<T>(Outside) == x
    ensures forall n :: BatchOf<T>(Asleep(n)) == multiset{}
  {
  }

  lemma PendingEnters<T>(m: System<T>, r: System<T>, i: nat, n: nat)
    requires i < |m.workers| && m.workers[i].Outside? && n <= |m.shared.queue|
    requires |r.workers| == |m.workers| && r.workers == m.workers[i := r.workers[i]]
    requires BatchOf(r.workers[i]) == multiset(Popped(m.shared.queue, n))
    requires r.shared.queue == m.shared.queue[..|m.shared.queue| - n] && r.master == m.master
    ensures Pending(r) == Pending(m)
  {
    hide BatchOf, Held, Popped;
    HeldUpdate(m.workers, i, r.workers[i]);
    OutsideBatch<T>();
    PoppedSplits(m.shared.queue, n);
    MoveIn(multiset(m.shared.queue), multiset(r.shared.queue), Held(m.workers), Held(r.workers), BatchOf(m.master),
           BatchOf(r.workers[i]));
  }

  lemma PendingMaster<T>(m: System<T>, r: System<T>, n: nat)
    requires m.master.Outside? && n <= |m.shared.queue| && r.workers == m.workers
    requires BatchOf(r.master) == multiset(Popped(m.shared.queue, n))
    requires r.shared.queue == m.shared.queue[..|m.shared.queue| - n]
    ensures Pending(r) == Pending(m)
  {
    hide Held, Popped;
    PoppedSplits(m.shared.queue, n);
    MoveIn(multiset(m.shared.queue), multiset(r.shared.queue), BatchOf(m.master), BatchOf(r.master), Held(m.workers),
           BatchOf(r.master));
  }

  /** Verdict only looks at added, eval, allOk, the pending checks and the batches. */
  lemma VerdictFrame<T(!new)>(s: System<T>, m: System<T>)
    requires Verdict(s) && Pending(m) == Pending(s) && m.added == s.added && m.eval == s.eval
    requires m.shared.allOk == s.shared.allOk && BatchOk(m, m.master)
    requires |m.workers| == |s.workers|
    requires forall j :: 0 <= j < |m.workers| ==> m.workers[j] == s.workers[j] || BatchOk(m, m.workers[j])
    ensures Verdict(m)
  {
    hide Pending;
    forall j | 0 <= j < |m.workers| ensures BatchOk(m, m.workers[j]) { assert BatchOk(s, s.workers[j]); }
  }

  // ---------------------------------------------------------------- entering the critical section

  /** Worker i inside the critical section: out of its old state, not yet in its new one. */
  function WorkerOut<T>(s: System<T>, i: nat, q: Shared<T>, last: bool): System<T>
    requires i < |s.workers|
  {
    s.(shared := q, workers := s.workers[i := Outside],
       master := if last && s.master.Asleep? then Asleep(true) else s.master)
  }

  lemma WorkerReportsMid<T(!new)>(s: System<T>, i: nat)
    requires Inv(s, 0) && i < |s.workers| && s.workers[i].Busy?
    ensures var w := s.workers[i];
            var q := CleanUp(s.shared, |w.batch|, Execute(s.eval, w.batch, w.ok));
            Inv(WorkerOut(s, i, q, w.batch != [] && q.nTodo == 0), 1)
  {
    hide Execute, Held, Sleepers, Insiders, Pending, Verdict;
    var w := s.workers[i];
    var q := CleanUp(s.shared, |w.batch|, Execute(s.eval, w.batch, w.ok));
    var m := WorkerOut(s, i, q, w.batch != [] && q.nTodo == 0);
    WorkerBatchOk(s, i);
    CountsUpdate(s.workers, i, Outside);
    PendingLeaves(s, m, i);
    ReportKeepsVerdict(s, m, w);
  }

  lemma WorkerBatchOk<T(!new)>(s: System<T>, i: nat)
    requires Verdict(s) && i < |s.workers|
    ensures BatchOk(s, s.workers[i]) && BatchOk(s, s.master)
  {
  }

  lemma WorkerStartsMid<T(!new)>(s: System<T>, i: nat)
    requires Inv(s, 0) && i < |s.workers| && s.workers[i].Outside?
    ensures Inv(WorkerOut(s, i, CleanUp(s.shared, 0, true), false), 1)
  {
    hide Held, Sleepers, Insiders;
    var m := WorkerOut(s, i, CleanUp(s.shared, 0, true), false);
    assert m.workers == s.workers;
    assert Pending(m) == Pending(s);
    VerdictFrame(s, m);
  }

  lemma WorkerWakesMid<T(!new)>(s: System<T>, i: nat)
    requires Inv(s, 0) && i < |s.workers| && s.workers[i].Asleep?
    ensures s.shared.nIdle > 0
    ensures Inv(WorkerOut(s, i, s.shared.(nIdle := s.shared.nIdle - 1), false), 1)
  {
    hide Held, Sleepers, Insiders, Pending;
    var m := WorkerOut(s, i, s.shared.(nIdle := s.shared.nIdle - 1), false);
    CountsUpdate(s.workers, i, Outside);
    PendingLeaves(s, m, i);
    assert Pending(m) + multiset{} == Pending(m);
    VerdictFrame(s, m);
  }

  // ---------------------------------------------------------------- leaving it

  lemma CountedMid<T(!new)>(m: System<T>, extra: nat)
    requires Inv(m, extra)
    ensures Counted(m.shared)
  {
  }

  lemma WorkerProceedsPending<T>(m: System<T>, i: nat)
    requires Counted(m.shared) && i < |m.workers| && m.workers[i].Outside?
    ensures Pending(WorkerGoes(m, i, m.shared, false)) == Pending(m)
  {
    hide TakeCount, Popped, Pending;
    NothingPopped(m.shared.queue);
    PendingEnters(m, WorkerGoes(m, i, m.shared, false), i, if m.shared.queue == [] then 0 else TakeCount(m.shared));
  }

  lemma WorkerProceeds<T(!new)>(m: System<T>, i: nat)
    requires Inv(m, 1) && i < |m.workers| && m.workers[i].Outside?
    ensures Counted(m.shared) && Inv(WorkerGoes(m, i, m.shared, false), 0)
  {
    hide Held, Sleepers, Insiders, TakeCount, Popped, Pending, Verdict;
    CountedMid(m, 1);
    var r := WorkerGoes(m, i, m.shared, false);
    CountsUpdate(m.workers, i, r.workers[i]);
    WorkerProceedsPending(m, i);
    MasterBatchOk(m);
    VerdictFrame(m, r);
  }

  lemma NothingPopped<T>(q: seq<T>)
    ensures Popped(q, 0) == [] && q[..|q| - 0] == q
  {
  }

  lemma WorkerStep<T(!new)>(s: System<T>, i: nat, q: Shared<T>, last: bool)
    requires i < |s.workers| && Inv(WorkerOut(s, i, q, last), 1)
    ensures Counted(q) && Inv(WorkerGoes(s, i, q, last), 0)
  {
    hide Inv, Proceed;
    var m := WorkerOut(s, i, q, last);
    WorkerProceeds(m, i);
    var t := Resumed(Proceed(q, false).1);
    assert m.workers[i := t] == s.workers[i := t];
  }

  // ---------------------------------------------------------------- the master

  lemma MasterReportsMid<T(!new)>(s: System<T>)
    requires Inv(s, 0) && s.master.Busy?
    ensures Inv(s.(shared := CleanUp(s.shared, |s.master.batch|, Execute(s.eval, s.master.batch, s.master.ok)),
                   master := Outside), 1)
  {
    hide Execute, Held, Sleepers, Insiders, Verdict;
    var m := s.(shared := CleanUp(s.shared, |s.master.batch|, Execute(s.eval, s.master.batch, s.master.ok)), master := Outside);
    MasterBatchOk(s);
    PendingMasterLeaves(s, m);
    hide Pending;
    ReportKeepsVerdict(s, m, s.master);
  }

  lemma MasterBatchOk<T(!new)>(s: System<T>)
    requires Verdict(s)
    ensures BatchOk(s, s.master)
  {
  }

  lemma PendingMasterLeaves<T>(s: System<T>, m: System<T>)
    requires m.master.Outside? && m.workers == s.workers && m.shared.queue == s.shared.queue
    ensures Pending(m) + BatchOf(s.master) == Pending(s)
  {
    hide Held;
  }

  lemma MasterWaitsMid<T(!new)>(s: System<T>)
    requires Inv(s, 0) && s.master.Outside?
    ensures Inv(s.(shared := CleanUp(s.shared, 0, true)), 1)
  {
    hide Held, Sleepers, Insiders;
    var m := s.(shared := CleanUp(s.shared, 0, true));
    assert Pending(m) == Pending(s);
    VerdictFrame(s, m);
  }

  lemma MasterWakesMid<T(!new)>(s: System<T>)
    requires Inv(s, 0) && s.master.Asleep?
    ensures s.shared.nIdle > 0
    ensures Inv(s.(shared := s.shared.(nIdle := s.shared.nIdle - 1), master := Outside), 1)
  {
    hide Held, Sleepers, Insiders;
    var m := s.(shared := s.shared.(nIdle := s.shared.nIdle - 1), master := Outside);
    assert Pending(m) == Pending(s);
    VerdictFrame(s, m);
  }

  lemma PendingSizes<T>(s: System<T>)
    ensures |Pending(s)| == |s.shared.queue| + |Held(s.workers)| + |BatchOf(s.master)|
  {
    hide Held;
  }

  lemma BatchSize<T>(ws: seq<Thread<T>>, i: nat)
    requires i < |ws|
    ensures |BatchOf(ws[i])| <= |Held(ws)|
    ensures ws[i].Busy? ==> |BatchOf(ws[i])| == |ws[i].batch|
  {
    HeldIncludes(ws, i);
    assert Held(ws) == BatchOf(ws[i]) + (Held(ws) - BatchOf(ws[i]));
  }

  /** With nothing pending, nobody holds a batch. */
  lemma NothingPending<T(!new)>(s: System<T>, extra: nat)
    requires Inv(s, extra) && s.shared.nTodo == 0
    ensures Pending(s) == multiset{} && s.shared.queue == [] && !s.master.Busy?
    ensures forall j :: 0 <= j < |s.workers| ==> !s.workers[j].Busy?
    ensures Sleepers(s.workers) == Insiders(s.workers)
  {
    hide Held, Sleepers, Insiders, Pending;
    PendingSizes(s);
    MasterBatchOk(s);
    forall j | 0 <= j < |s.workers| ensures !s.workers[j].Busy? {
      WorkerBatchOk(s, j);
      BatchSize(s.workers, j);
    }
    NobodyBusy(s.workers);
  }

  lemma MasterProceedsPending<T>(m: System<T>)
    requires Counted(m.shared) && m.master.Outside?
    ensures !(m.shared.queue == [] && m.shared.nTodo == 0) ==> Pending(MasterGoes(m, m.shared)) == Pending(m)
  {
    hide TakeCount, Popped, Pending;
    if !(m.shared.queue == [] && m.shared.nTodo == 0) {
      NothingPopped(m.shared.queue);
      PendingMaster(m, MasterGoes(m, m.shared), if m.shared.queue == [] then 0 else TakeCount(m.shared));
    }
  }

  lemma MasterProceeds<T(!new)>(m: System<T>)
    requires Inv(m, 1) && m.master.Outside?
    ensures Counted(m.shared) && Inv(MasterGoes(m, m.shared), 0)
  {
    hide Held, Sleepers, Insiders, TakeCount, Popped, Pending, Verdict;
    CountedMid(m, 1);
    var r := MasterGoes(m, m.shared);
    if m.shared.queue == [] && m.shared.nTodo == 0 {
      MasterReturns(m);
    } else {
      MasterProceedsPending(m);
      VerdictFrame(m, r);
    }
  }

  /** When Wait returns, everything is reported, so its answer is the conjunction of all checks. */
  lemma MasterReturns<T(!new)>(m: System<T>)
    requires Inv(m, 1) && m.master.Outside? && m.shared.queue == [] && m.shared.nTodo == 0
    ensures Counted(m.shared) && Inv(MasterGoes(m, m.shared), 0)
    ensures MasterGoes(m, m.shared).answer == Some(m.shared.allOk)
    ensures m.shared.allOk <==> forall c :: c in m.added ==> m.eval(c)
  {
    CountedMid(m, 1);
    NothingPending(m, 1);
    var r := MasterGoes(m, m.shared);
    assert m.added - Pending(m) == m.added;
    assert Pending(r) == Pending(m);
    hide Held, Sleepers, Insiders, Pending;
    forall j | 0 <= j < |r.workers| ensures BatchOk(r, r.workers[j]) {}
  }

  // ---------------------------------------------------------------- every step, every run

  /** An enabled step can be taken: the idle counter never runs below the number of sleepers. */
  lemma Applicable<T(!new)>(s: System<T>, a: Action<T>)
    requires Inv(s, 0) && Enabled(s, a)
    ensures CanStep(s, a)
  {
    hide Inv;
    CountedMid(s, 0);
    if a.WorkerWakes? { WorkerWakesMid(s, a.i); }
    if a.MasterWakes? { MasterWakesMid(s); }
  }

  lemma AddInv<T(!new)>(s: System<T>, checks: seq<T>)
    requires Inv(s, 0) && s.master.Outside?
    ensures Inv(AddChecks(s, checks), 0)
  {
    hide Held, Sleepers, Insiders;
    var r := AddChecks(s, checks);
    assert multiset(r.shared.queue) == multiset(s.shared.queue) + multiset(checks);
    assert Pending(r) == Pending(s) + multiset(checks);
    assert |multiset(checks)| == |checks|;
    assert r.added - Pending(r) == s.added - Pending(s);
    hide Pending;
    if !s.shared.allOk {
      var c :| c in s.added && !s.eval(c);
      assert c in r.added;
    }
    forall j | 0 <= j < |r.workers| ensures BatchOk(r, r.workers[j]) { assert BatchOk(s, s.workers[j]); }
  }

  lemma StepInv<T(!new)>(s: System<T>, a: Action<T>)
    requires Inv(s, 0) && Enabled(s, a)
    ensures CanStep(s, a) && Inv(Apply(s, a), 0)
  {
    hide Inv, Execute, WorkerGoes, MasterGoes, CleanUp, AddChecks;
    Applicable(s, a);
    match a
    case Add(checks) => AddInv(s, checks);
    case WorkerStarts(i) =>
      WorkerStartsMid(s, i);
      WorkerStep(s, i, CleanUp(s.shared, 0, true), false);
    case WorkerReports(i) =>
      WorkerReportsMid(s, i);
      var w := s.workers[i];
      var q := CleanUp(s.shared, |w.batch|, Execute(s.eval, w.batch, w.ok));
      WorkerStep(s, i, q, w.batch != [] && q.nTodo == 0);
    case WorkerWakes(i) =>
      WorkerWakesMid(s, i);
      WorkerStep(s, i, s.shared.(nIdle := s.shared.nIdle - 1), false);
    case MasterWaits =>
      MasterWaitsMid(s);
      MasterStep(s, CleanUp(s.shared, 0, true));
    case MasterReports =>
      MasterReportsMid(s);
      MasterStep(s, CleanUp(s.shared, |s.master.batch|, Execute(s.eval, s.master.batch, s.master.ok)));
    case MasterWakes =>
      MasterWakesMid(s);
      MasterStep(s, s.shared.(nIdle := s.shared.nIdle - 1));
  }

  lemma MasterStep<T(!new)>(s: System<T>, q: Shared<T>)
    requires Inv(s.(shared := q, master := Outside), 1)
    ensures Counted(q) && Inv(MasterGoes(s, q), 0)
  {
    hide Inv;
    MasterProceeds(s.(shared := q, master := Outside));
  }

  ghost predicate Reaches<T>(s: System<T>, actions: seq<Action<T>>, t: System<T>)
    decreases |actions|
  {
    if actions == [] then t == s
    else CanStep(s, actions[0]) && Reaches(Apply(s, actions[0]), actions[1..], t)
  }

  lemma {:induction false} RunInv<T(!new)>(s: System<T>, actions: seq<Action<T>>, t: System<T>)
    requires Inv(s, 0) && Reaches(s, actions, t)
    ensures Inv(t, 0)
    decreases |actions|
  {
    hide Inv, Apply;
    if actions != [] {
      StepInv(s, actions[0]);
      RunInv(Apply(s, actions[0]), actions[1..], t);
    }
  }

  lemma StartInv<T(!new)>(eval: T -> bool, n: nat, batchSize: nat)
    ensures Inv(Start(eval, n, batchSize), 0)
  {
    SumsOutside<T>(n);
    hide Held, Sleepers, Insiders;
    assert Pending(Start(eval, n, batchSize)) == multiset{};
  }

  /** Every interleaving: nTodo counts exactly the queued checks and the unreported batches. */
  lemma TodoCountsPending<T(!new)>(eval: T -> bool, n: nat, batchSize: nat, actions: seq<Action<T>>, t: System<T>)
    requires Reaches(Start(eval, n, batchSize), actions, t)
    ensures Inv(t, 0)
    ensures t.shared.nTodo == |t.shared.queue| + |Held(t.workers)| + |BatchOf(t.master)|
    ensures Pending(t) <= t.added
  {
    hide Start, Held, Pending, Counts, Verdict, Wakeups, Reaches;
    StartInv(eval, n, batchSize);
    RunInv(Start(eval, n, batchSize), actions, t);
    PendingSizes(t);
  }

  /**
   In every reachable state, a check in some thread's batch is skipped only if a check added since
   the last Wait has failed.
   */
  lemma SkippedOnlyAfterFailure<T(!new)>(eval: T -> bool, n: nat, batchSize: nat, actions: seq<Action<T>>, s: System<T>, t: Thread<T>, k: nat)
    requires Reaches(Start(eval, n, batchSize), actions, s)
    requires t.Busy? && (t == s.master || t in s.workers) && k < |t.batch| && !Execute(s.eval, t.batch[..k], t.ok)
    ensures exists c :: c in s.added && !s.eval(c)
  {
    hide Start, Reaches, Execute, Held;
    TodoCountsPending(eval, n, batchSize, actions, s);
    BatchPending(s, t);
    ExecuteMeans(s.eval, t.batch[..k], t.ok);
    if t.ok {
      var i :| 0 <= i < k && !s.eval(t.batch[i]);
      assert t.batch[i] in multiset(t.batch);
    }
  }

  lemma BatchPending<T(!new)>(s: System<T>, t: Thread<T>)
    requires Inv(s, 0) && t.Busy? && (t == s.master || t in s.workers)
    ensures BatchOk(s, t) && multiset(t.batch) <= s.added && Verdict(s)
  {
    if t != s.master {
      var i :| 0 <= i < |s.workers| && s.workers[i] == t;
      HeldIncludes(s.workers, i);
    }
  }

  /** Whenever a step makes Wait return, the answer is true exactly if every check added holds. */
  lemma AnswerIsConjunction<T(!new)>(s: System<T>, a: Action<T>)
    requires Inv(s, 0) && CanStep(s, a) && (a.MasterWaits? || a.MasterReports? || a.MasterWakes?)
    requires Apply(s, a).master.Outside?
    ensures var t := Apply(s, a);
            && t.answer.Some? && t.added == multiset{}
            && (t.answer.value <==> forall c :: c in s.added ==> s.eval(c))
  {
    hide Inv, Execute;
    var q := if a.MasterWaits? then CleanUp(s.shared, 0, true)
             else if a.MasterReports? then CleanUp(s.shared, |s.master.batch|, Execute(s.eval, s.master.batch, s.master.ok))
             else s.shared.(nIdle := s.shared.nIdle - 1);
    if a.MasterWaits? { MasterWaitsMid(s); } else if a.MasterReports? { MasterReportsMid(s); } else { MasterWakesMid(s); }
    var m := s.(shared := q, master := Outside);
    assert Apply(s, a) == MasterGoes(m, q);
    MasterReturns(m);
  }

  /** No lost wake-up: while the master sleeps un-notified, a worker still has a batch to report. */
  lemma NoLostWakeup<T(!new)>(s: System<T>) returns (i: nat)
    requires Inv(s, 0) && s.master.Asleep? && !s.master.notified
    ensures i < |s.workers| && s.workers[i].Busy? && s.workers[i].batch != []
  {
    PendingSizes(s);
    hide Held, Sleepers, Insiders, Pending;
    if forall j :: 0 <= j < |s.workers| ==> !s.workers[j].Busy? { NobodyBusy(s.workers); }
    i :| 0 <= i < |s.workers| && s.workers[i].Busy?;
    WorkerBatchOk(s, i);
  }

  /** Between a returned Wait and the next Add the queue is idle, as CCheckQueueControl asserts. */
  lemma IdleBetweenUses<T(!new)>(s: System<T>)
    requires Inv(s, 0) && s.master.Outside? && s.added == multiset{}
    ensures IsIdle(s.shared)
  {
    hide Held, Sleepers, Insiders, Pending;
    assert Pending(s) == multiset{};
    NothingPending(s, 0);
  }

  /** A report lowers nTodo by the size of the batch and leaves the other side waiting. */
  lemma ReportProgress<T(!new)>(s: System<T>, a: Action<T>)
    requires Inv(s, 0) && CanStep(s, a) && (a.WorkerReports? || a.MasterReports?)
    ensures Apply(s, a).shared.nTodo < s.shared.nTodo
    ensures a.WorkerReports? ==> (Apply(s, a).master.Outside? <==> s.master.Outside?)
  {
    hide Held, Sleepers, Insiders, Pending, Execute, TakeCount, Popped;
    if a.WorkerReports? { WorkerBatchOk(s, a.i); } else { MasterBatchOk(s); }
  }

  lemma LastWake<T(!new)>(s: System<T>)
    requires Inv(s, 0) && s.master.Asleep? && s.shared.nTodo == 0
    ensures CanStep(s, MasterWakes) && Apply(s, MasterWakes).master.Outside?
  {
    Applicable(s, MasterWakes);
  }

  lemma SomeoneReports<T(!new)>(s: System<T>) returns (a: Action<T>)
    requires Inv(s, 0) && !s.master.Outside? && s.shared.nTodo > 0
    ensures CanStep(s, a) && (a.WorkerReports? || a.MasterReports?)
  {
    hide Held, Sleepers, Insiders, Pending;
    if s.master.Busy? {
      a := MasterReports;
    } else {
      PendingSizes(s);
      if forall j :: 0 <= j < |s.workers| ==> !s.workers[j].Busy? { NobodyBusy(s.workers); }
      var i: nat :| i < |s.workers| && s.workers[i].Busy?;
      a := WorkerReports(i);
    }
    Applicable(s, a);
  }

  /** Only reports, and wake-ups of a master that has been notified. */
  ghost predicate Prompted<T>(s: System<T>, actions: seq<Action<T>>)
    decreases |actions|
  {
    actions != [] ==>
      && CanStep(s, actions[0])
      && (actions[0].WorkerReports? || actions[0].MasterReports? || (actions[0].MasterWakes? && s.master.notified))
      && Prompted(Apply(s, actions[0]), actions[1..])
  }

  /**
   A waiting master never gets stuck: reports, and waking when notified, bring every Wait to its
   return. No spurious wake-up is needed.
   */
  lemma {:induction false} MasterCanReturn<T(!new)>(s: System<T>) returns (actions: seq<Action<T>>, t: System<T>)
    requires Inv(s, 0) && !s.master.Outside?
    ensures Reaches(s, actions, t) && t.master.Outside? && Prompted(s, actions)
    decreases s.shared.nTodo
  {
    NonNegative(s);
    hide Inv, Apply, CanStep, Reaches, Prompted;
    if s.shared.nTodo == 0 {
      NothingPending(s, 0);
      NotifiedAtZero(s);
      LastWake(s);
      t := Apply(s, MasterWakes);
      actions := [MasterWakes];
      NoMoreSteps(t);
      StepFirst(s, MasterWakes, [], t);
    } else {
      var a := SomeoneReports(s);
      EnabledOf(s, a);
      StepInv(s, a);
      ReportProgress(s, a);
      var next := Apply(s, a);
      var rest := [];
      if next.master.Outside? {
        t := next;
        NoMoreSteps(t);
      } else {
        rest, t := MasterCanReturn(next);
      }
      actions := [a] + rest;
      StepFirst(s, a, rest, t);
    }
  }

  lemma NoMoreSteps<T>(t: System<T>)
    ensures Reaches(t, [], t) && Prompted(t, [])
  {
  }

  lemma StepFirst<T>(s: System<T>, a: Action<T>, rest: seq<Action<T>>, t: System<T>)
    requires CanStep(s, a) && (a.WorkerReports? || a.MasterReports? || (a.MasterWakes? && s.master.notified))
    requires Reaches(Apply(s, a), rest, t) && Prompted(Apply(s, a), rest)
    ensures Reaches(s, [a] + rest, t) && Prompted(s, [a] + rest)
  {
    hide Apply, CanStep;
    assert ([a] + rest)[0] == a && ([a] + rest)[1..] == rest;
  }

  lemma NotifiedAtZero<T(!new)>(s: System<T>)
    requires Inv(s, 0) && s.master.Asleep? && s.shared.nTodo == 0
    ensures s.master.notified
  {
    hide Conserved, Counts, Verdict;
  }

  lemma EnabledOf<T>(s: System<T>, a: Action<T>)
    requires CanStep(s, a)
    ensures Enabled(s, a)
  {
  }

  lemma NonNegative<T(!new)>(s: System<T>)
    requires Inv(s, 0)
    ensures s.shared.nTodo >= 0
  {
  }
}
