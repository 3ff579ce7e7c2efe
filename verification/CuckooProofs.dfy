/**
 What the cuckoo cache guarantees: an insertion loses at most one element, live elements are always
 found, and the epoch bookkeeping always leaves a slot to overwrite.
 */
module CuckooProofs {
  import opened Basics
  import opened CuckooModel

  ghost function Live<E>(s: State<E>): iset<E>
    requires Shape(s)
  {
    iset i: nat | i < |s.table| && !s.garbage[i] :: s.table[i]
  }

  /** Every live element sits at one of its eight locations. */
  ghost predicate Placed<E>(s: State<E>)
    requires Shape(s)
  {
    forall i: nat :: i < |s.table| && !s.garbage[i] ==> AtOwnLocation(s, i)
  }

  ghost predicate AtOwnLocation<E>(s: State<E>, i: nat)
    requires Shape(s) && i < |s.table|
  {
    exists k: nat :: k < WAYS && Loc(s, s.table[i], k) == i
  }

  /** Live elements are found. */
  lemma LiveIsFound<E>(s: State<E>, e: E)
    requires Shape(s) && Placed(s) && e in Live(s)
    ensures Contains(s, e)
  {
    var i: nat :| i < |s.table| && !s.garbage[i] && s.table[i] == e;
    assert AtOwnLocation(s, i);
    var k: nat :| k < WAYS && Loc(s, e, k) == i;
  }

  lemma PutPlaced<E>(s: State<E>, i: nat, e: E, recent: bool, k: nat)
    requires Shape(s) && Placed(s) && i < |s.table| && k < WAYS && Loc(s, e, k) == i
    ensures Placed(Put(s, i, e, recent))
  {
    var r := Put(s, i, e, recent);
    forall j: nat | j < |r.table| && !r.garbage[j] ensures AtOwnLocation(r, j) {
      if j == i {
        assert Loc(r, r.table[j], k) == j;
      } else {
        assert AtOwnLocation(s, j);
        var n: nat :| n < WAYS && Loc(s, s.table[j], n) == j;
        assert Loc(r, r.table[j], n) == j;
      }
    }
  }

  lemma PutLive<E>(s: State<E>, i: nat, e: E, recent: bool)
    requires Shape(s) && i < |s.table| && (s.garbage[i] || s.table[i] == e)
    ensures Live(Put(s, i, e, recent)) == Live(s) + iset{e}
  {
    var r := Put(s, i, e, recent);
    forall x | x in Live(s) + iset{e} ensures x in Live(r) {
      if x == e {
        assert r.table[i] == e;
      } else {
        var j: nat :| j < |s.table| && !s.garbage[j] && s.table[j] == x;
        assert r.table[j] == x;
      }
    }
  }

  /** One round of the eviction loop: put e where a live element was. */
  function Swapped<E>(s: State<E>, i: nat, e: E, recent: bool): (r: State<E>)
    requires Shape(s) && i < |s.table|
    ensures Shape(r) && |r.table| == |s.table|
  {
    s.(table := s.table[i := e], recent := s.recent[i := recent])
  }

  lemma SwapPlaced<E>(s: State<E>, i: nat, e: E, recent: bool, k: nat)
    requires Shape(s) && Placed(s) && i < |s.table| && !s.garbage[i] && k < WAYS && Loc(s, e, k) == i
    ensures Placed(Swapped(s, i, e, recent))
  {
    PutPlaced(s, i, e, recent, k);
    assert s.garbage[i := false] == s.garbage;
  }

  lemma SwapLive<E>(s: State<E>, i: nat, e: E, recent: bool)
    requires Shape(s) && i < |s.table| && !s.garbage[i]
    ensures Live(Swapped(s, i, e, recent)) + iset{s.table[i]} == Live(s) + iset{e}
  {
    var r := Swapped(s, i, e, recent);
    forall x | x in Live(s) + iset{e} ensures x in Live(r) + iset{s.table[i]} {
      if x == e {
        assert r.table[i] == e;
      } else {
        var j: nat :| j < |s.table| && !s.garbage[j] && s.table[j] == x;
        assert r.table[j] == if j == i then e else x;
      }
    }
    forall x | x in Live(r) + iset{s.table[i]} ensures x in Live(s) + iset{e} {
      assert s.table[i] in Live(s);
    }
  }

  /** The eviction loop conserves elements: what was live and what is in hand is live or dropped. */
  lemma {:induction false} DisplaceKeeps<E>(s: State<E>, e: E, recent: bool, last: int, depth: nat)
    requires Shape(s) && Placed(s)
    ensures var r := Displace(s, e, recent, last, depth);
            Placed(r) && Live(r) + iset{Dropped(s, e, recent, last, depth)} == Live(s) + iset{e}
    decreases depth
  {
    hide Placed, Live, Put, Loc, FindGarbage, FindWay;
    if depth > 0 {
      var k := FindGarbage(s, e, 0);
      if k < WAYS {
        PutPlaced(s, Loc(s, e, k), e, recent, k);
        PutLive(s, Loc(s, e, k), e, recent);
      } else {
        var w := (1 + FindWay(s, e, last, 0)) % WAYS;
        var i := Loc(s, e, w);
        SwapPlaced(s, i, e, recent, w);
        SwapLive(s, i, e, recent);
        DisplaceKeeps(Swapped(s, i, e, recent), s.table[i], s.recent[i], i, depth - 1);
      }
    }
  }

  /** The epoch ends: the counter has run out and the scan finds the epoch full. */
  ghost predicate Turns<E>(s: State<E>)
    requires Shape(s)
  {
    s.counter == 0 && |RecentLive(s)| >= s.epochSize
  }

  /** What an epoch check leaves alive: everything, or the current epoch when it ends. */
  ghost function Kept<E>(s: State<E>): iset<E>
    requires Shape(s)
  {
    iset i: nat | i < |s.table| && !s.garbage[i] && (Turns(s) ==> s.recent[i]) :: s.table[i]
  }

  /**
   The epoch check moves no element and revives none. It flags slots only when the epoch ends: then
   the live slots of the current epoch are exactly those that stay live, now as the old epoch, and a
   full epoch is counted again. Otherwise every flag stays, and only the counter goes down by one or,
   once it has run out, is set to the guess of how much room the epoch has left.
   */
  lemma EpochCheckExact<E>(s: State<E>)
    requires Shape(s)
    ensures var c := EpochCheck(s);
            && c.table == s.table && c.hash == s.hash
            && c.epochSize == s.epochSize && c.depthLimit == s.depthLimit
            && RecentLive(c) == (if Turns(s) then {} else RecentLive(s))
            && OldLive(c) == (if Turns(s) then RecentLive(s) else OldLive(s))
            && (!Turns(s) ==> c.garbage == s.garbage && c.recent == s.recent)
            && (Turns(s) ==> c.counter == s.epochSize)
            && (s.counter > 0 ==> c.counter == s.counter - 1)
            && (s.counter == 0 && !Turns(s) ==>
                 c.counter >= 1 && c.counter <= Max(s.epochSize - |RecentLive(s)|, Max(1, s.epochSize / 16))
                 && c.counter >= s.epochSize - |RecentLive(s)| && c.counter >= s.epochSize / 16)
    ensures Live(EpochCheck(s)) == Kept(s) && (!Turns(s) ==> Kept(s) == Live(s))
  {
    var c := EpochCheck(s);
    if Turns(s) {
      assert RecentLive(c) == {} && OldLive(c) == RecentLive(s);
    }
    forall x | x in Kept(s) ensures x in Live(c) {
      var i: nat :| i < |s.table| && !s.garbage[i] && (Turns(s) ==> s.recent[i]) && s.table[i] == x;
      assert !c.garbage[i] && c.table[i] == x;
    }
    forall x | x in Live(c) ensures x in Kept(s) {
      var i: nat :| i < |c.table| && !c.garbage[i] && c.table[i] == x;
      assert !s.garbage[i] && (Turns(s) ==> s.recent[i]);
    }
  }

  lemma EpochCheckPlaced<E>(s: State<E>)
    requires Shape(s) && Placed(s)
    ensures Placed(EpochCheck(s))
  {
    var r := EpochCheck(s);
    forall j: nat | j < |r.table| && !r.garbage[j] ensures AtOwnLocation(r, j) {
      assert AtOwnLocation(s, j);
      var n: nat :| n < WAYS && Loc(s, s.table[j], n) == j;
      assert Loc(r, r.table[j], n) == j;
    }
  }

  /**
   Inserting: of the elements live before the call and e, at most one is lost, or at most one of the
   current epoch and e when the epoch ends. All others are live, at one of their eight locations, and
   are found.
   */
  lemma InsertLosesAtMostOne<E>(s: State<E>, e: E) returns (d: E)
    requires Shape(s) && Placed(s)
    ensures var r := Insert(s, e);
            && Placed(r) && Live(r) + iset{d} == Kept(s) + iset{e}
            && (!Turns(s) ==> Kept(s) == Live(s))
            && forall x :: (x in Kept(s) || x == e) && x != d ==> Contains(r, x)
  {
    EpochCheckPlaced(s);
    EpochCheckExact(s);
    var c := EpochCheck(s);
    var r := Insert(s, e);
    var k := FindPresent(c, e, 0);
    d := e;
    if k < WAYS {
      PutPlaced(c, Loc(c, e, k), e, true, k);
      PutLive(c, Loc(c, e, k), e, true);
    } else {
      d := Dropped(c, e, true, -1, c.depthLimit);
      DisplaceKeeps(c, e, true, -1, c.depthLimit);
    }
    forall x | (x in Kept(s) || x == e) && x != d ensures Contains(r, x) {
      assert x in Live(r);
      LiveIsFound(r, x);
    }
  }

  /** If e is present, or some of its locations may be overwritten, nothing is lost and e itself is found. */
  lemma InsertWithRoom<E>(s: State<E>, e: E)
    requires Shape(s) && Placed(s) && s.depthLimit > 0
    requires var c := EpochCheck(s); FindPresent(c, e, 0) < WAYS || FindGarbage(c, e, 0) < WAYS
    ensures Live(Insert(s, e)) == Kept(s) + iset{e} && Contains(Insert(s, e), e)
  {
    var d := InsertLosesAtMostOne(s, e);
    EpochCheckExact(s);
    var c := EpochCheck(s);
    var k := FindPresent(c, e, 0);
    if k < WAYS {
      PutLive(c, Loc(c, e, k), e, true);
    } else {
      PutLive(c, Loc(c, e, FindGarbage(c, e, 0)), e, true);
    }
    LiveIsFound(Insert(s, e), e);
  }

  lemma ErasePlaced<E>(s: State<E>, e: E)
    requires Shape(s) && Placed(s)
    ensures Placed(Erase(s, e))
    ensures forall x :: x in Live(s) && x != e ==> x in Live(Erase(s, e))
    ensures forall x :: Contains(Erase(s, e), x) <==> Contains(s, x)
  {
    var r := Erase(s, e);
    forall j: nat | j < |r.table| && !r.garbage[j] ensures AtOwnLocation(r, j) {
      assert AtOwnLocation(s, j);
      var n: nat :| n < WAYS && Loc(s, s.table[j], n) == j;
      assert Loc(r, r.table[j], n) == j;
    }
    forall x | x in Live(s) && x != e ensures x in Live(r) {
      var j: nat :| j < |s.table| && !s.garbage[j] && s.table[j] == x;
      assert !r.garbage[j];
    }
    forall x ensures FindPresent(r, x, 0) == FindPresent(s, x, 0) { SameTableFinds(s, r, x, 0); }
  }

  lemma {:induction false} SameTableFinds<E>(s: State<E>, r: State<E>, e: E, k: nat)
    requires Shape(s) && Shape(r) && r.table == s.table && r.hash == s.hash && k <= WAYS
    ensures FindPresent(r, e, k) == FindPresent(s, e, k)
    decreases WAYS - k
  {
    if k < WAYS { SameTableFinds(s, r, e, k + 1); }
  }

  // ---------------------------------------------------------------- epochs

  /** The most live entries one epoch can hold. */
  function EpochBound(epochSize: nat): nat {
    epochSize + Max(1, epochSize / 16)
  }

  ghost predicate Bounded<E>(s: State<E>)
    requires Shape(s)
  {
    && s.epochSize >= 1
    && |RecentLive(s)| + s.counter <= EpochBound(s.epochSize)
    && |OldLive(s)| <= EpochBound(s.epochSize)
  }

  lemma AddOne(a: set<nat>, b: set<nat>, i: nat)
    requires a <= b + {i}
    ensures |a| <= |b| + 1
  {
    SubsetSize(a, b + {i});
  }

  lemma PutCounts<E>(s: State<E>, i: nat, e: E, recent: bool)
    requires Shape(s) && i < |s.table|
    ensures var r := Put(s, i, e, recent);
            && |RecentLive(r)| <= |RecentLive(s)| + (if recent then 1 else 0)
            && |OldLive(r)| <= |OldLive(s)| + (if recent then 0 else 1)
  {
    var r := Put(s, i, e, recent);
    if recent {
      AddOne(RecentLive(r), RecentLive(s), i);
      SubsetSize(OldLive(r), OldLive(s));
    } else {
      SubsetSize(RecentLive(r), RecentLive(s));
      AddOne(OldLive(r), OldLive(s), i);
    }
  }

  lemma SwapSets<E>(s: State<E>, i: nat, e: E, recent: bool)
    requires Shape(s) && i < |s.table| && !s.garbage[i]
    ensures var r := Swapped(s, i, e, recent);
            && RecentLive(r) - {i} == RecentLive(s) - {i} && OldLive(r) - {i} == OldLive(s) - {i}
            && (i in RecentLive(r) <==> recent) && (i in RecentLive(s) <==> s.recent[i])
            && (i in OldLive(r) <==> !recent) && (i in OldLive(s) <==> !s.recent[i])
  {
  }

  lemma SwapCounts<E>(s: State<E>, i: nat, e: E, recent: bool)
    requires Shape(s) && i < |s.table| && !s.garbage[i]
    ensures var r := Swapped(s, i, e, recent);
            && |RecentLive(r)| + (if s.recent[i] then 1 else 0) == |RecentLive(s)| + (if recent then 1 else 0)
            && |OldLive(r)| + (if s.recent[i] then 0 else 1) == |OldLive(s)| + (if recent then 0 else 1)
  {
    hide RecentLive, OldLive, Swapped;
    var r := Swapped(s, i, e, recent);
    SwapSets(s, i, e, recent);
    SplitOff(RecentLive(r), i);
    SplitOff(RecentLive(s), i);
    SplitOff(OldLive(r), i);
    SplitOff(OldLive(s), i);
  }

  lemma SplitOff(a: set<nat>, i: nat)
    ensures |a| == |a - {i}| + if i in a then 1 else 0
  {
    if i !in a { assert a - {i} == a; }
  }

  /** Epoch flags travel with the elements, so the loop adds at most one entry, to e's own epoch. */
  lemma {:induction false} DisplaceCounts<E>(s: State<E>, e: E, recent: bool, last: int, depth: nat)
    requires Shape(s)
    ensures var r := Displace(s, e, recent, last, depth);
            && |RecentLive(r)| <= |RecentLive(s)| + (if recent then 1 else 0)
            && |OldLive(r)| <= |OldLive(s)| + (if recent then 0 else 1)
            && r.epochSize == s.epochSize && r.counter == s.counter
    decreases depth
  {
    hide RecentLive, OldLive, Loc, FindGarbage, FindWay;
    if depth > 0 {
      var k := FindGarbage(s, e, 0);
      if k < WAYS {
        PutCounts(s, Loc(s, e, k), e, recent);
      } else {
        var i := Loc(s, e, (1 + FindWay(s, e, last, 0)) % WAYS);
        SwapCounts(s, i, e, recent);
        DisplaceCounts(Swapped(s, i, e, recent), s.table[i], s.recent[i], i, depth - 1);
      }
    }
  }

  lemma AgeCounts<E>(s: State<E>)
    requires Shape(s)
    ensures |RecentLive(Age(s))| == 0 && |OldLive(Age(s))| == |RecentLive(s)|
  {
    assert RecentLive(Age(s)) == {};
    assert OldLive(Age(s)) == RecentLive(s);
  }

  lemma CounterCounts<E>(s: State<E>, n: nat)
    requires Shape(s)
    ensures RecentLive(s.(counter := n)) == RecentLive(s) && OldLive(s.(counter := n)) == OldLive(s)
  {
  }

  /** After the epoch check there is room for one more entry in the current epoch. */
  lemma EpochCheckBounded<E>(s: State<E>)
    requires Shape(s) && Bounded(s)
    ensures var c := EpochCheck(s);
            && c.epochSize == s.epochSize
            && |RecentLive(c)| + 1 + c.counter <= EpochBound(c.epochSize)
            && |OldLive(c)| <= EpochBound(c.epochSize)
  {
    hide RecentLive, OldLive;
    AgeCounts(s);
    CounterCounts(s, EpochCheck(s).counter);
  }

  lemma InsertBounded<E>(s: State<E>, e: E)
    requires Shape(s) && Bounded(s)
    ensures Bounded(Insert(s, e))
  {
    hide RecentLive, OldLive, Displace, FindPresent, Loc, EpochBound, EpochCheck;
    EpochCheckBounded(s);
    var c := EpochCheck(s);
    var k := FindPresent(c, e, 0);
    if k < WAYS {
      PutCounts(c, Loc(c, e, k), e, true);
    } else {
      DisplaceCounts(c, e, true, -1, c.depthLimit);
    }
  }

  lemma EraseBounded<E>(s: State<E>, e: E)
    requires Shape(s) && Bounded(s)
    ensures Bounded(Erase(s, e))
  {
    hide FindPresent, Loc;
    var r := Erase(s, e);
    SubsetSize(RecentLive(r), RecentLive(s));
    SubsetSize(OldLive(r), OldLive(s));
  }

  lemma SetupBounded<E>(hash: (nat, E) -> nat, depthLimit: nat, blank: E)
    ensures var s := Setup(hash, depthLimit, blank); Bounded(s) && Placed(s)
  {
    var s := Setup(hash, depthLimit, blank);
    assert RecentLive(s) == {} && OldLive(s) == {};
  }

  // ---------------------------------------------------------------- runs

  datatype Op<+E> = InsertOp(e: E) | LookupOp(e: E, erase: bool)

  ghost function Step<E>(s: State<E>, op: Op<E>): (r: State<E>)
    requires Shape(s)
    ensures Shape(r) && |r.table| == |s.table|
  {
    match op
    case InsertOp(e) => Insert(s, e)
    case LookupOp(e, erase) => if erase then Erase(s, e) else s
  }

  ghost predicate Reaches<E>(s: State<E>, ops: seq<Op<E>>, t: State<E>)
    requires Shape(s)
    decreases |ops|
  {
    if ops == [] then t == s else Reaches(Step(s, ops[0]), ops[1..], t)
  }

  lemma SameSetup<E>(s: State<E>, op: Op<E>)
    requires Shape(s)
    ensures Step(s, op).epochSize == s.epochSize
  {
    hide FindPresent, Loc, RecentLive, Displace, FindGarbage;
    if op.InsertOp? {
      var c := EpochCheck(s);
      DisplaceCounts(c, op.e, true, -1, c.depthLimit);
    }
  }

  /** Every run keeps elements at their locations and the epochs within their bounds. */
  lemma {:induction false} RunKeeps<E>(s: State<E>, ops: seq<Op<E>>, t: State<E>)
    requires Shape(s) && Placed(s) && Bounded(s) && Reaches(s, ops, t)
    ensures Shape(t) && Placed(t) && Bounded(t) && |t.table| == |s.table| && t.epochSize == s.epochSize
    decreases |ops|
  {
    hide Placed, Bounded, Insert, Erase;
    if ops != [] {
      match ops[0] {
        case InsertOp(e) =>
          var d := InsertLosesAtMostOne(s, e);
          InsertBounded(s, e);
        case LookupOp(e, _) =>
          ErasePlaced(s, e);
          EraseBounded(s, e);
      }
      SameSetup(s, ops[0]);
      RunKeeps(Step(s, ops[0]), ops[1..], t);
    }
  }

  // ---------------------------------------------------------------- a slot to overwrite

  ghost function Indices(n: nat): (r: set<nat>)
    ensures |r| == n && forall i: nat :: i in r <==> i < n
  {
    if n == 0 then {} else Indices(n - 1) + {n - 1}
  }

  /** If two full epochs do not fill the table, some slot is garbage. */
  lemma GarbageRemains<E>(s: State<E>)
    requires Shape(s) && Bounded(s) && 2 * EpochBound(s.epochSize) < |s.table|
    ensures exists i: nat :: i < |s.table| && s.garbage[i]
  {
    var live := RecentLive(s) + OldLive(s);
    var i := Missed(live, Indices(|s.table|));
    assert s.garbage[i];
  }

  lemma Missed(a: set<nat>, b: set<nat>) returns (x: nat)
    requires |a| < |b|
    ensures x in b && x !in a
  {
    if b <= a { SubsetSize(b, a); }
    x :| x in b && x !in a;
  }

  lemma Pow2Grows(n: nat, m: nat)
    requires n <= m
    ensures Pow2(n) <= Pow2(m)
  {
    if n < m { Pow2Grows(n, m - 1); }
  }

  lemma EpochsFit(size: nat)
    requires size >= 32
    ensures 2 * EpochBound(EpochSize(size)) < size
  {
    var product := 45 * size % 0x1_0000_0000;
    assert product <= 45 * size;
    assert 100 * EpochSize(size) <= 45 * size;
  }

  /**
   For every table of at least 32 slots, and after every run of insertions and lookups, two epochs
   never fill the table: a slot that may be overwritten always remains.
   */
  lemma DiscardableSlotRemains<E>(hash: (nat, E) -> nat, depthLimit: nat, blank: E, ops: seq<Op<E>>, t: State<E>)
    requires depthLimit >= 5 && Reaches(Setup(hash, depthLimit, blank), ops, t)
    ensures Shape(t) && Placed(t) && Bounded(t)
    ensures exists i: nat :: i < |t.table| && t.garbage[i]
  {
    hide Placed, Bounded, Reaches;
    var s := Setup(hash, depthLimit, blank);
    SetupBounded(hash, depthLimit, blank);
    RunKeeps(s, ops, t);
    Pow2Grows(5, depthLimit);
    assert Pow2(5) == 32;
    EpochsFit(|t.table|);
    GarbageRemains(t);
  }
}
