/**
 Tables of 2 to 16 slots can fill up: inserting elements whose eight locations coincide, at slots
 0, 1, 2 and so on around the table, leaves every slot live. From 32 slots on this never happens.
 */
module CuckooSmallTables {
  import opened Basics
  import opened CuckooModel
  import opened CuckooProofs

  /** The slot of the i-th element, for i up to twice around the table. */
  function Slot(i: nat, size: nat): int { if i < size then i else i - size }

  /** The last element before the n-th that was put at slot p. */
  function Latest(p: nat, n: nat, size: nat): nat { if p + size < n then p + size else p }

  /**
   The first n elements have been put around the table: those before a have become garbage, those
   from a to b belong to the old epoch and those from b on to the current one.
   */
  ghost predicate Filling<E>(s: State<E>, a: nat, b: nat, n: nat) {
    && Shape(s) && a <= b <= n && n - a <= |s.table|
    && forall p: nat :: p < |s.table| ==>
         var j := Latest(p, n, |s.table|);
         (s.garbage[p] <==> !(a <= j < n)) && (a <= j < n ==> (s.recent[p] <==> b <= j))
  }

  /** All eight locations of the i-th element are its slot. */
  ghost predicate Around<E>(s: State<E>, elem: nat -> E) {
    && Shape(s)
    && forall i: nat, k: nat :: i < 2 * |s.table| && k < WAYS ==> Loc(s, elem(i), k) == Slot(i, |s.table|)
  }

  // ---------------------------------------------------------------- one insertion

  /** An element with a single location that is garbage goes there. */
  lemma InsertAt<E>(s: State<E>, e: E, p: nat)
    requires Shape(s) && p < |s.table| && s.depthLimit > 0
    requires forall k: nat :: k < WAYS ==> Loc(s, e, k) == p
    requires EpochCheck(s).garbage[p]
    ensures Insert(s, e) == Put(EpochCheck(s), p, e, true)
  {
    hide RecentLive;
    var c := EpochCheck(s);
    assert forall k: nat :: k < WAYS ==> Loc(c, e, k) == Loc(s, e, k);
    hide EpochCheck, Loc;
    assert Loc(c, e, 0) == p;
    var k := FindPresent(c, e, 0);
    if k == WAYS {
      assert FindGarbage(c, e, 0) == 0;
      assert Displace(c, e, true, -1, c.depthLimit) == Put(c, p, e, true);
    }
  }

  /** The slots of elements lo to hi. */
  ghost function SlotSet(lo: nat, hi: nat, size: nat): (r: set<nat>)
    requires lo <= hi <= 2 * size && hi - lo <= size
    ensures |r| == hi - lo
    ensures forall p: nat | p in r :: InRound(p, lo, hi, size)
    decreases hi
  {
    if lo == hi then {}
    else
      assert !InRound(Slot(hi - 1, size), lo, hi - 1, size);
      SlotSet(lo, hi - 1, size) + {Slot(hi - 1, size)}
  }

  /** Slot p was used by one of the elements lo to hi. */
  predicate InRound(p: int, lo: nat, hi: nat, size: nat) { 0 <= p < size && (lo <= p < hi || lo <= p + size < hi) }

  /** The current epoch holds at least the elements from b on. */
  lemma RecentAtLeast<E>(s: State<E>, a: nat, b: nat, n: nat)
    requires Filling(s, a, b, n) && n <= 2 * |s.table|
    ensures |RecentLive(s)| >= n - b
  {
    var r := SlotSet(b, n, |s.table|);
    forall p | p in r ensures p in RecentLive(s) {
      assert InRound(p, b, n, |s.table|);
      assert b <= Latest(p, n, |s.table|) < n;
    }
    SubsetSize(r, RecentLive(s));
  }

  lemma PutFilling<E>(c: State<E>, a: nat, b: nat, n: nat, e: E)
    requires Filling(c, a, b, n) && n < 2 * |c.table| && n - a < |c.table|
    ensures c.garbage[Slot(n, |c.table|)]
    ensures Filling(Put(c, Slot(n, |c.table|), e, true), a, b, n + 1)
  {
    var size := |c.table|;
    var p := Slot(n, size);
    assert !(a <= Latest(p, n, size) < n);
    var r := Put(c, p, e, true);
    forall q: nat | q < size
      ensures var j := Latest(q, n + 1, size);
              (r.garbage[q] <==> !(a <= j < n + 1)) && (a <= j < n + 1 ==> (r.recent[q] <==> b <= j))
    {
      var was := Latest(q, n, size);
      assert c.garbage[q] <==> !(a <= was < n);
    }
  }

  lemma CountedFilling<E>(s: State<E>, a: nat, b: nat, n: nat, counter: nat)
    requires Filling(s, a, b, n)
    ensures Filling(s.(counter := counter), a, b, n)
  {
  }

  lemma AgedFilling<E>(s: State<E>, a: nat, b: nat, n: nat)
    requires Filling(s, a, b, n)
    ensures Filling(Age(s), b, n, n)
  {
    var r := Age(s);
    forall p: nat | p < |s.table|
      ensures var j := Latest(p, n, |s.table|);
              (r.garbage[p] <==> !(b <= j < n)) && (b <= j < n ==> (r.recent[p] <==> n <= j))
    {
      var j := Latest(p, n, |s.table|);
      assert s.garbage[p] <==> !(a <= j < n);
    }
  }

  ghost predicate SameFrame<E>(s: State<E>, t: State<E>) {
    t.hash == s.hash && |t.table| == |s.table| && t.epochSize == s.epochSize && t.depthLimit == s.depthLimit
  }

  lemma AroundFrame<E>(s: State<E>, t: State<E>, elem: nat -> E)
    requires Around(s, elem) && Shape(t) && SameFrame(s, t)
    ensures Around(t, elem)
  {
    forall i: nat, k: nat | i < 2 * |s.table| && k < WAYS ensures Loc(t, elem(i), k) == Slot(i, |s.table|) {
      assert Loc(t, elem(i), k) == Loc(s, elem(i), k);
    }
  }

  /** While the counter lasts, the next element joins the current epoch. */
  lemma InsertCounted<E>(s: State<E>, a: nat, b: nat, n: nat, elem: nat -> E)
    requires Filling(s, a, b, n) && Around(s, elem) && s.counter > 0 && s.depthLimit > 0
    requires n < 2 * |s.table| && n - a < |s.table|
    ensures var t := Insert(s, elem(n));
            Filling(t, a, b, n + 1) && t.counter == s.counter - 1 && SameFrame(s, t)
  {
    hide Filling, Loc;
    var c := s.(counter := s.counter - 1);
    assert EpochCheck(s) == c;
    CountedFilling(s, a, b, n, s.counter - 1);
    PutFilling(c, a, b, n, elem(n));
    InsertAt(s, elem(n), Slot(n, |s.table|));
  }

  /** Once it is used up and the epoch is full, the next element starts a new epoch. */
  lemma InsertAged<E>(s: State<E>, a: nat, b: nat, n: nat, elem: nat -> E)
    requires Filling(s, a, b, n) && Around(s, elem) && s.counter == 0 && s.depthLimit > 0
    requires n < 2 * |s.table| && n - b < |s.table| && n - b >= s.epochSize
    ensures var t := Insert(s, elem(n));
            Filling(t, b, n, n + 1) && t.counter == s.epochSize && SameFrame(s, t)
  {
    RecentAtLeast(s, a, b, n);
    AgedFilling(s, a, b, n);
    hide Filling, Loc, RecentLive;
    var c := Age(s);
    assert EpochCheck(s) == c;
    PutFilling(c, b, n, n, elem(n));
    InsertAt(s, elem(n), Slot(n, |s.table|));
  }

  // ---------------------------------------------------------------- the filling run

  lemma {:induction false} ReachesMore<E>(s: State<E>, ops: seq<Op<E>>, t: State<E>, op: Op<E>)
    requires Shape(s) && Reaches(s, ops, t) && Shape(t)
    ensures Reaches(s, ops + [op], Step(t, op))
    decreases |ops|
  {
    hide Step;
    if ops == [] {
      assert [op][1..] == [];
      assert Reaches(Step(t, op), [], Step(t, op));
    } else {
      assert (ops + [op])[1..] == ops[1..] + [op];
      ReachesMore(Step(s, ops[0]), ops[1..], t, op);
    }
  }

  /** m more insertions while the counter lasts. */
  lemma {:induction false} FillOn<E>(s0: State<E>, ops0: seq<Op<E>>, s: State<E>, a: nat, b: nat, n: nat, m: nat, elem: nat -> E)
    returns (ops: seq<Op<E>>, t: State<E>)
    requires Shape(s0) && Reaches(s0, ops0, s) && Filling(s, a, b, n) && Around(s, elem) && s.counter >= m && s.depthLimit > 0
    requires n + m <= 2 * |s.table| && n + m - a <= |s.table|
    ensures Reaches(s0, ops, t) && Filling(t, a, b, n + m) && t.counter == s.counter - m && SameFrame(s, t)
    decreases m
  {
    hide Filling, Reaches, Insert, Around;
    FillingShape(s, a, b, n);
    if m == 0 {
      ops, t := ops0, s;
    } else {
      InsertCounted(s, a, b, n, elem);
      ReachesMore(s0, ops0, s, InsertOp(elem(n)));
      var next := Insert(s, elem(n));
      AroundFrame(s, next, elem);
      ops, t := FillOn(s0, ops0 + [InsertOp(elem(n))], next, a, b, n + 1, m - 1, elem);
    }
  }

  lemma FillingShape<E>(s: State<E>, a: nat, b: nat, n: nat)
    requires Filling(s, a, b, n)
    ensures Shape(s)
  {
  }

  /** One insertion that starts a new epoch, then the rest of that epoch. */
  lemma FillEpoch<E>(s0: State<E>, ops0: seq<Op<E>>, s: State<E>, a: nat, b: nat, n: nat, m: nat, elem: nat -> E)
    returns (ops: seq<Op<E>>, t: State<E>)
    requires Shape(s0) && Reaches(s0, ops0, s) && Filling(s, a, b, n) && Around(s, elem) && s.depthLimit > 0
    requires s.counter == 0 && n - b >= s.epochSize >= m
    requires n + 1 + m <= 2 * |s.table| && n + 1 + m - b <= |s.table|
    ensures Reaches(s0, ops, t) && Filling(t, b, n, n + 1 + m) && t.counter == s.epochSize - m && SameFrame(s, t)
  {
    hide Filling, Reaches, Insert, Around;
    FillingShape(s, a, b, n);
    InsertAged(s, a, b, n, elem);
    ReachesMore(s0, ops0, s, InsertOp(elem(n)));
    var next := Insert(s, elem(n));
    AroundFrame(s, next, elem);
    ops, t := FillOn(s0, ops0 + [InsertOp(elem(n))], next, b, n, n + 1, m, elem);
  }

  lemma SmallSizes(depthLimit: nat)
    requires 1 <= depthLimit <= 4
    ensures var size := Pow2(depthLimit); var e := EpochSize(size);
            size <= 16 && ((size == 2 && e == 1) || (size == 2 * (e + 1) && size >= 4))
  {
    assert Pow2(1) == 2 && Pow2(2) == 4 && Pow2(3) == 8 && Pow2(4) == 16;
    hide Pow2;
    assert EpochSize(2) == 1 && EpochSize(4) == 1 && EpochSize(8) == 3 && EpochSize(16) == 7;
  }

  ghost predicate NoneDiscardable<E>(t: State<E>) {
    Shape(t) && forall i: nat :: i < |t.table| ==> !t.garbage[i]
  }

  lemma FullTable<E>(t: State<E>, a: nat, b: nat, n: nat)
    requires Filling(t, a, b, n) && n - a == |t.table| && n <= 2 * |t.table|
    ensures NoneDiscardable(t)
  {
  }

  /** In every table of 2 to 16 slots a run of insertions leaves no slot to discard. */
  lemma SmallTableFills<E>(hash: (nat, E) -> nat, depthLimit: nat, blank: E, elem: nat -> E) returns (ops: seq<Op<E>>, t: State<E>)
    requires 1 <= depthLimit <= 4
    requires forall i: nat, k: nat :: i < 32 ==> hash(k, elem(i)) == i
    ensures Reaches(Setup(hash, depthLimit, blank), ops, t) && NoneDiscardable(t)
  {
    hide Filling, Reaches, Around, Setup, NoneDiscardable, Pow2, EpochSize;
    var s := Setup(hash, depthLimit, blank);
    StartsFilling(hash, depthLimit, blank, elem);
    var size, e := |s.table|, s.epochSize;
    ReachesNothing(s);
    ops, t := FillOn(s, [], s, 0, 0, 0, e, elem);
    FillingShape(t, 0, 0, e);
    AroundFrame(s, t, elem);
    if size == 2 {
      ops, t := FillEpoch(s, ops, t, 0, 0, e, 0, elem);
      FullTable(t, 0, e, e + 1);
    } else {
      ops, t := FillEpoch(s, ops, t, 0, 0, e, e, elem);
      FillingShape(t, 0, e, 2 * e + 1);
      AroundFrame(s, t, elem);
      ops, t := FillEpoch(s, ops, t, 0, e, 2 * e + 1, e, elem);
      FullTable(t, e, 2 * e + 1, 3 * e + 2);
    }
  }

  lemma ReachesNothing<E>(s: State<E>)
    requires Shape(s)
    ensures Reaches(s, [], s)
  {
  }

  lemma StartsFilling<E>(hash: (nat, E) -> nat, depthLimit: nat, blank: E, elem: nat -> E)
    requires 1 <= depthLimit <= 4
    requires forall i: nat, k: nat :: i < 32 ==> hash(k, elem(i)) == i
    ensures var s := Setup(hash, depthLimit, blank);
            && Filling(s, 0, 0, 0) && Around(s, elem) && s.counter == s.epochSize && s.depthLimit == depthLimit
            && ((|s.table| == 2 && s.epochSize == 1) || (|s.table| == 2 * (s.epochSize + 1) && |s.table| >= 4))
  {
    var s := Setup(hash, depthLimit, blank);
    SmallSizes(depthLimit);
    var size := |s.table|;
    forall i: nat, k: nat | i < 2 * size && k < WAYS ensures Loc(s, elem(i), k) == Slot(i, size) {
      OnceAround(i, size);
    }
  }

  lemma OnceAround(i: nat, size: nat)
    requires 0 < size && i < 2 * size
    ensures i % size == Slot(i, size)
  {
    if i >= size { assert i == 1 * size + (i - size); }
  }

  // ---------------------------------------------------------------- exactly when a slot remains

  /** Whatever the hash and the run, a slot that may be overwritten remains. */
  ghost predicate AlwaysDiscardable<E(!new)>(depthLimit: nat, blank: E) {
    forall hash: (nat, E) -> nat, ops: seq<Op<E>>, t: State<E> ::
      Reaches(Setup(hash, depthLimit, blank), ops, t) ==> exists i: nat :: i < |t.table| && i < |t.garbage| && t.garbage[i]
  }

  /**
   For an element type with at least 32 values, numbered by index: a discardable slot always remains
   if and only if the table has at least 32 slots. The source's setup gives a depth of at least one.
   */
  lemma DiscardableIff<E(!new)>(depthLimit: nat, blank: E, elem: nat -> E, index: E -> nat)
    requires depthLimit >= 1
    requires forall i: nat :: i < 32 ==> index(elem(i)) == i
    ensures AlwaysDiscardable(depthLimit, blank) <==> depthLimit >= 5
  {
    hide Reaches, Setup;
    if depthLimit >= 5 {
      forall hash: (nat, E) -> nat, ops: seq<Op<E>>, t: State<E> | Reaches(Setup(hash, depthLimit, blank), ops, t)
        ensures exists i: nat :: i < |t.table| && i < |t.garbage| && t.garbage[i]
      {
        DiscardableSlotRemains(hash, depthLimit, blank, ops, t);
      }
    } else {
      var hash := (k: nat, e: E) => index(e);
      var ops, t := SmallTableFills(hash, depthLimit, blank, elem);
      assert Reaches(Setup(hash, depthLimit, blank), ops, t);
    }
  }
}
