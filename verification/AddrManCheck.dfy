/**
 Check_, the address manager's own consistency checker: what it accepts, and that it accepts
 exactly the states in which every invariant of AddrManInvariant holds.
 */
module AddrManCheck {
  import opened Basics
  import opened AddrManModel
  import opened AddrManInvariant
  import opened AddrManOperations
  import opened AddrManRuns

  /** C++ map indexing: a missing host reads as id 0. */
  function AddrLookup(s: State, h: NetAddr): int {
    if h in s.addrs then s.addrs[h] else 0
  }

  /** Check_'s first loop: conditions on one entry. */
  predicate EntryPasses(s: State, id: int)
    requires id in s.infos
  {
    var i := s.infos[id];
    && (if i.inTried then i.lastSuccess != 0 && i.refCount == 0 else 1 <= i.refCount <= NEW_BUCKETS_PER_ADDRESS)
    && AddrLookup(s, i.service.host) == id
    && 0 <= i.randomPos < |s.random| && s.random[i.randomPos] == id
    && i.lastTry >= 0 && i.lastSuccess >= 0
  }

  /** Check_'s second loop: conditions on one occupied tried slot. */
  predicate TriedSlotPasses(s: State, i: nat)
    requires Shape(s) && i < TRIED_SLOTS
  {
    s.triedTab[i] != EMPTY ==>
      && s.triedTab[i] in s.infos && s.infos[s.triedTab[i]].inTried
      && TriedSlot(s.env, s.key, s.infos[s.triedTab[i]].service) == i
  }

  /** Check_'s third loop: conditions on one occupied "new" slot. */
  predicate NewSlotPasses(s: State, i: nat)
    requires Shape(s) && i < NEW_SLOTS
  {
    s.newTab[i] != EMPTY ==>
      && s.newTab[i] in s.infos && !s.infos[s.newTab[i]].inTried
      && NewSlot(s.env, s.key, i / BUCKET_SIZE, s.infos[s.newTab[i]].service) == i
  }

  ghost predicate CheckPasses(s: State)
    requires Shape(s)
  {
    && |s.random| == s.nTried + s.nNew
    && (forall id :: id in s.infos ==> EntryPasses(s, id))
    && |TriedIds(s.infos)| == s.nTried && |NewIds(s.infos)| == s.nNew
    && (forall i :: 0 <= i < TRIED_SLOTS ==> TriedSlotPasses(s, i))
    && (forall i :: 0 <= i < NEW_SLOTS ==> NewSlotPasses(s, i))
    && (forall id :: id in TriedIds(s.infos) ==> id != EMPTY && id in s.triedTab)
    && (forall id :: id in NewIds(s.infos) ==> id != EMPTY && |Slots(s.newTab, id)| == s.infos[id].refCount)
    && s.key.bits != 0
  }

  /** What Check_ demands of clock readings. */
  ghost predicate TimesOk(s: State) {
    forall id :: id in s.infos ==>
      && s.infos[id].lastTry >= 0 && s.infos[id].lastSuccess >= 0
      && (s.infos[id].inTried ==> s.infos[id].lastSuccess != 0)
  }

  // ---------------------------------------------------------------- counting random

  ghost function Elements(q: seq<int>): set<int> {
    set x | x in q
  }

  ghost predicate Distinct(q: seq<int>) {
    forall i, j :: 0 <= i < j < |q| ==> q[i] != q[j]
  }

  lemma {:induction false} ElementsSize(q: seq<int>)
    ensures |Elements(q)| <= |q|
    ensures |Elements(q)| == |q| <==> Distinct(q)
  {
    if q != [] {
      var last := |q| - 1;
      var p := q[..last];
      ElementsSize(p);
      assert forall x :: x in q <==> x in p || x == q[last] by { assert q == p + [q[last]]; }
      assert Elements(q) == Elements(p) + {q[last]};
      assert q[last] in p ==> exists i :: 0 <= i < last && q[i] == q[last];
      assert Distinct(q) ==> Distinct(p);
    }
  }

  lemma EntriesSplit(m: map<int, Info>)
    ensures m.Keys == NewIds(m) + TriedIds(m) && NewIds(m) !! TriedIds(m)
    ensures |m.Keys| == |NewIds(m)| + |TriedIds(m)|
  {
    assert m.Keys == NewIds(m) + TriedIds(m);
  }

  lemma RandomSize(s: State)
    requires RandomOk(s)
    ensures |s.random| == |s.infos.Keys|
  {
    ElementsSize(s.random);
    assert Distinct(s.random);
    forall id | id in s.infos.Keys ensures id in Elements(s.random) {
      assert s.random[s.infos[id].randomPos] == id;
    }
    assert Elements(s.random) == s.infos.Keys;
  }

  /** As many positions as entries, and every entry at its own: then the correspondence is exact. */
  lemma RandomCovered(s: State)
    requires |s.random| == |s.infos.Keys|
    requires forall id :: id in s.infos ==>
               0 <= s.infos[id].randomPos < |s.random| && s.random[s.infos[id].randomPos] == id
    ensures RandomOk(s)
  {
    ElementsSize(s.random);
    forall id | id in s.infos.Keys ensures id in Elements(s.random) {
      assert s.random[s.infos[id].randomPos] == id;
    }
    SubsetSize(s.infos.Keys, Elements(s.random));
    SubsetEqual(s.infos.Keys, Elements(s.random));
    forall i | 0 <= i < |s.random|
      ensures s.random[i] in s.infos && s.infos[s.random[i]].randomPos == i
    {
      assert s.random[i] in Elements(s.random);
    }
  }

  lemma SubsetEqual<T>(a: set<T>, b: set<T>)
    requires a <= b && |a| >= |b|
    ensures a == b
  {
    assert b == a + (b - a);
    assert |b| == |a| + |b - a|;
  }

  // ---------------------------------------------------------------- both directions

  lemma InvEntries(s: State)
    requires Shape(s) && Ok(s, {}, {}) && TimesOk(s)
    ensures forall id :: id in s.infos ==> EntryPasses(s, id)
  {
    hide IdsOk, NewOk, TriedOk, CountOk, Slots;
  }

  lemma InvSlots(s: State)
    requires Shape(s) && Ok(s, {}, {})
    ensures forall i :: 0 <= i < TRIED_SLOTS ==> TriedSlotPasses(s, i)
    ensures forall i :: 0 <= i < NEW_SLOTS ==> NewSlotPasses(s, i)
    ensures forall id :: id in TriedIds(s.infos) ==> id != EMPTY && id in s.triedTab
    ensures forall id :: id in NewIds(s.infos) ==> id != EMPTY && |Slots(s.newTab, id)| == s.infos[id].refCount
  {
    FloatingKnown(s, {}, {});
    hide IdentityOk, CountOk, TriedSlot, NewSlot, Slots;
    forall id | id in TriedIds(s.infos) ensures id in s.triedTab {
      assert s.triedTab[TriedSlot(s.env, s.key, s.infos[id].service)] == id;
    }
  }

  lemma InvCounts(s: State)
    requires Shape(s) && Ok(s, {}, {})
    ensures |TriedIds(s.infos)| == s.nTried && |NewIds(s.infos)| == s.nNew
    ensures |s.random| == s.nTried + s.nNew
  {
    hide NewOk, TriedOk, RefOk, AddrOk, IdsOk, NewIds, TriedIds, RandomOk;
    OkRandom(s, {}, {});
    RandomSize(s);
    EntriesSplit(s.infos);
    assert NewIds(s.infos) - {} == NewIds(s.infos);
  }

  /** A state satisfying the invariant passes Check_, given sane clock readings and a non-null key. */
  lemma OkPasses(s: State)
    requires Shape(s) && Ok(s, {}, {}) && TimesOk(s) && s.key.bits != 0
    ensures CheckPasses(s)
  {
    hide Ok, TimesOk, TriedIds, NewIds, EntryPasses, TriedSlotPasses, NewSlotPasses, Slots;
    InvEntries(s);
    InvSlots(s);
    InvCounts(s);
  }

  /** The two things Check_ does not look at: leftover addresses and the range of the ids. */
  ghost predicate Unchecked(s: State) {
    && (forall h :: h in s.addrs ==> s.addrs[h] in s.infos && s.infos[s.addrs[h]].service.host == h)
    && (forall id :: id in s.infos ==> s.infos[id].service.host in s.addrs)
    && IdsOk(s)
  }

  lemma PassesIdentity(s: State)
    requires Shape(s) && CheckPasses(s) && Unchecked(s)
    ensures IdentityOk(s)
  {
    hide NewIds, TriedIds, Slots, TriedSlotPasses, NewSlotPasses;
    EntriesSplit(s.infos);
    RandomCovered(s);
    hide RandomOk;
  }

  lemma PassesTables(s: State)
    requires Shape(s) && CheckPasses(s) && IdsOk(s)
    ensures NewOk(s) && TriedOk(s)
  {
    hide EntryPasses, TriedSlot, NewSlot, Slots, CheckPasses;
    CheckSlots(s);
    forall i | 0 <= i < NEW_SLOTS && s.newTab[i] != EMPTY
      ensures s.newTab[i] in s.infos && !s.infos[s.newTab[i]].inTried
      ensures NewSlot(s.env, s.key, i / BUCKET_SIZE, s.infos[s.newTab[i]].service) == i
    {
      assert NewSlotPasses(s, i);
    }
    forall i | 0 <= i < TRIED_SLOTS && s.triedTab[i] != EMPTY
      ensures s.triedTab[i] in s.infos && s.infos[s.triedTab[i]].inTried
      ensures TriedSlot(s.env, s.key, s.infos[s.triedTab[i]].service) == i
    {
      assert TriedSlotPasses(s, i);
    }
    forall id | id in s.infos && s.infos[id].inTried
      ensures s.triedTab[TriedSlot(s.env, s.key, s.infos[id].service)] == id
    {
      var i :| 0 <= i < |s.triedTab| && s.triedTab[i] == id;
      assert TriedSlotPasses(s, i);
    }
  }

  lemma CheckSlots(s: State)
    requires Shape(s) && CheckPasses(s)
    ensures forall i :: 0 <= i < TRIED_SLOTS ==> TriedSlotPasses(s, i)
    ensures forall i :: 0 <= i < NEW_SLOTS ==> NewSlotPasses(s, i)
    ensures forall id :: id in s.infos && s.infos[id].inTried ==> id in s.triedTab
  {
    hide EntryPasses, TriedSlotPasses, NewSlotPasses, Slots;
    forall id | id in s.infos && s.infos[id].inTried ensures id in s.triedTab {
      assert id in TriedIds(s.infos);
    }
  }

  lemma PassesRefs(s: State)
    requires Shape(s) && CheckPasses(s) && NewOk(s) && IdsOk(s)
    ensures RefOk(s, {}) && CountOk(s, {})
  {
    hide TriedSlot, NewSlot, TriedSlotPasses, NewSlotPasses;
    assert NewIds(s.infos) - {} == NewIds(s.infos);
    forall id | id in s.infos
      ensures s.infos[id].refCount == |Slots(s.newTab, id)| <= NEW_BUCKETS_PER_ADDRESS
      ensures s.infos[id].refCount == 0 <==> s.infos[id].inTried
    {
      assert EntryPasses(s, id);
      if s.infos[id].inTried {
        assert Slots(s.newTab, id) == {};
      } else {
        assert id in NewIds(s.infos);
      }
    }
  }

  /** Conversely, whatever passes Check_ satisfies the whole structural invariant. */
  lemma PassesIsOk(s: State)
    requires Shape(s) && CheckPasses(s) && Unchecked(s)
    ensures Ok(s, {}, {}) && TimesOk(s) && s.key.bits != 0
  {
    PassesIdentity(s);
    PassesTables(s);
    PassesRefs(s);
    hide IdentityOk, NewOk, TriedOk, RefOk, CountOk, TriedSlotPasses, NewSlotPasses, Slots, NewIds, TriedIds;
  }

  /** Check_ accepts exactly the invariant, but for what it does not look at. */
  lemma CheckIsInvariant(s: State)
    requires Shape(s) && Unchecked(s)
    ensures CheckPasses(s) <==> Ok(s, {}, {}) && TimesOk(s) && s.key.bits != 0
  {
    hide Ok, CheckPasses, TimesOk;
    if CheckPasses(s) { PassesIsOk(s); }
    if Ok(s, {}, {}) && TimesOk(s) && s.key.bits != 0 { OkPasses(s); }
  }

  // ---------------------------------------------------------------- clock readings

  /** Statistics untouched, and whoever became tried had succeeded once. */
  lemma TimesFrame(s: State, t: State)
    requires Keeps(s, t) && TimesOk(s)
    requires forall x :: x in t.infos && t.infos[x].inTried ==> s.infos[x].lastSuccess != 0
    ensures TimesOk(t)
  {
  }

  /** Tried entries are the ones in the tried table, so the table tells who became tried. */
  lemma TriedFromTable(s: State, t: State, F: set<int>, id: int)
    requires Shape(s) && Shape(t) && Ok(s, F, {}) && Ok(t, {}, {}) && Keeps(s, t)
    requires forall k :: 0 <= k < TRIED_SLOTS ==> t.triedTab[k] == s.triedTab[k] || t.triedTab[k] == id
    ensures forall x :: x in t.infos && t.infos[x].inTried && x != id ==> s.infos[x].inTried
  {
    FloatingKnown(t, {}, {});
    OkNew(s, F, {});
    OkNew(t, {}, {});
    hide Ok, NewOk, TriedSlot;
    forall x | x in t.infos && t.infos[x].inTried && x != id ensures s.infos[x].inTried {
      var k := TriedSlot(t.env, t.key, t.infos[x].service);
      assert t.triedTab[k] == x;
      assert s.triedTab[k] == x;
    }
  }

  lemma TouchTimes(s: State, id: int, i: Info)
    requires TimesOk(s) && id in s.infos && i.inTried == s.infos[id].inTried
    requires i.lastTry >= 0 && i.lastSuccess >= 0 && (i.inTried ==> i.lastSuccess != 0)
    ensures TimesOk(SetInfo(s, id, i))
  {
  }

  lemma GoodTimes(s: State, a: Service, testBeforeEvict: bool, now: int)
    requires Inv(s) && TimesOk(s) && now > 0
    ensures TimesOk(Good(s, a, testBeforeEvict, now))
  {
    hide Ok, TriedSlot, PendingOk, MakeTried, InSomeBucket, FindExact, Grows, TimesOk;
    FindExactKnown(s, a);
    var s0 := s.(lastGood := now);
    MetaTimes(s, now, s.collisions);
    assert s0 == s.(lastGood := now, collisions := s.collisions);
    assert FindExact(s0, a) == FindExact(s, a);
    if FindExact(s, a).Some? {
      var id := FindExact(s, a).value;
      GoodTouch(s, id, now);
      var i := s0.infos[id].(lastSuccess := now, lastTry := now, attempts := 0);
      var s1 := SetInfo(s0, id, i);
      TouchTimes(s0, id, i);
      if !s1.infos[id].inTried {
        UntriedIsInSomeBucket(s1, id);
        MetaTimes(s1, s1.lastGood, s1.collisions + {id});
        MakeTriedTimes(s1, id);
      }
    }
  }

  lemma MetaTimes(s: State, g: int, c: set<int>)
    requires TimesOk(s)
    ensures TimesOk(s.(lastGood := g, collisions := c))
  {
  }

  lemma MakeTriedTimes(s: State, id: int)
    requires Shape(s) && Ok(s, {}, {}) && TimesOk(s) && id in s.infos && !s.infos[id].inTried && s.infos[id].lastSuccess != 0
    ensures TimesOk(MakeTried(s, id))
  {
    hide Ok, MakeTried, TriedSlot;
    MakeTriedOk(s, id);
    TriedFromTable(s, MakeTried(s, id), {}, id);
    TimesFrame(s, MakeTried(s, id));
  }

  lemma InsertTimes(s: State, id: int, source: NetAddr, now: int, F: set<int>)
    requires Shape(s) && Ok(s, F, {}) && F <= {id} && TimesOk(s)
    requires id in s.infos && !s.infos[id].inTried && s.infos[id].refCount < NEW_BUCKETS_PER_ADDRESS
    ensures TimesOk(Insert(s, id, source, now))
  {
    hide Ok, Insert;
    InsertOk(s, id, source, now, F);
    var t := Insert(s, id, source, now);
    TriedFromTable(s, t, F, id);
    TriedFromTable(s, t, F, id + 1);
    TimesFrame(s, t);
  }

  lemma CreateTimes(s: State, a: Address, source: NetAddr, time: nat)
    requires TimesOk(s)
    ensures var t := Create(s, a, source);
            TimesOk(SetInfo(t, s.idCount, t.infos[s.idCount].(time := time)).(nNew := t.nNew + 1))
  {
  }

  lemma AddNewTimes(s: State, a: Address, source: NetAddr, time: nat, now: int)
    requires Inv(s) && TimesOk(s) && a.service.host !in s.addrs
    ensures var t := Create(s, a, source);
            var u := SetInfo(t, s.idCount, t.infos[s.idCount].(time := time)).(nNew := t.nNew + 1);
            TimesOk(Insert(u, s.idCount, source, now))
  {
    var id := s.idCount;
    var t := Create(s, a, source);
    CreateDetails(s, a, source);
    CreateOk(s, a, source, {}, {});
    CreateTimes(s, a, source, time);
    hide Ok, Create, Insert, PendingOk, TriedSlot, TimesOk;
    assert {} + {id} == {id} && {id} - {id} == {};
    var i := t.infos[id].(time := time);
    TouchOk(t, id, i, {id}, {id});
    CountUp(SetInfo(t, id, i), id, {id}, {id});
    InsertTimes(SetInfo(t, id, i).(nNew := t.nNew + 1), id, source, now, {id});
  }

  lemma AddTimes(s: State, a: Address, source: NetAddr, timePenalty: int, now: int, dice: int)
    requires Inv(s) && TimesOk(s)
    ensures TimesOk(Add(s, a, source, timePenalty, now, dice).0)
  {
    hide Ok, Insert, PendingOk, TriedSlot, Find, Create, ToUint32;
    FindKnown(s, a.service.host);
    if s.env.isRoutable(a.service.host) {
      var penalty := if a.service.host == source then 0 else timePenalty;
      match Find(s, a.service.host)
      case Some(id) =>
        var info := Refresh(s.infos[id], a, penalty, now);
        RefBounds(s, id, {}, {});
        TouchInv(s, id, info);
        TouchTimes(s, id, info);
        if !(info.inTried || info.refCount == NEW_BUCKETS_PER_ADDRESS) {
          InsertTimes(SetInfo(s, id, info), id, source, now, {});
        }
      case None =>
        CreateDetails(s, a, source);
        AddNewTimes(s, a, source, ToUint32(Max(0, Create(s, a, source).infos[s.idCount].time - penalty)), now);
    }
  }

  lemma ResolveTimes(s: State, id: int, now: int)
    requires Inv(s) && TimesOk(s) && now > 0
    ensures TimesOk(Resolve(s, id, now))
  {
    hide Ok, PendingOk, TriedSlot, Good, TimesOk;
    if id in s.infos {
      var a := s.infos[id].service;
      GoodTimes(s, a, false, now);
      var t := Good(s, a, false, now);
      MetaTimes(t, t.lastGood, t.collisions - {id});
    }
    MetaTimes(s, s.lastGood, s.collisions - {id});
  }

  lemma {:induction false} ResolveFromTimes(s: State, id: int, stop: int, now: int)
    requires Inv(s) && TimesOk(s) && now > 0
    ensures TimesOk(ResolveFrom(s, id, stop, now))
    decreases stop - id
  {
    hide Ok, PendingOk, TriedSlot, Resolve, Grows, TimesOk;
    if id < stop {
      var t := if id in s.collisions then Resolve(s, id, now) else s;
      ResolveInv(s, id, now);
      ResolveTimes(s, id, now);
      ResolveFromTimes(t, id + 1, stop, now);
    }
  }

  lemma GetAddrTimes(s: State, n: nat, limit: nat, got: seq<Address>, pick: nat -> nat, now: int)
    requires Inv(s) && TimesOk(s) && n <= |s.random|
    ensures TimesOk(GetAddr(s, n, limit, got, pick, now).0)
  {
    hide Ok, PendingOk, TriedSlot, GetAddr;
    var t := GetAddr(s, n, limit, got, pick, now).0;
    GetAddrInv(s, n, limit, got, pick, now);
    GetAddrTable(s, n, limit, got, pick, now);
    TriedFromTable(s, t, {}, 0);
    TriedFromTable(s, t, {}, 1);
    TimesFrame(s, t);
  }

  lemma {:induction false} GetAddrTable(s: State, n: nat, limit: nat, got: seq<Address>, pick: nat -> nat, now: int)
    requires n <= |s.random|
    ensures GetAddr(s, n, limit, got, pick, now).0.triedTab == s.triedTab
    decreases |s.random| - n
  {
    hide PickFrom, IsTerrible;
    if n < |s.random| && |got| < limit {
      var t := SwapRandom(s, n, PickFrom(n, |s.random|, pick(n)));
      var i := InfoOf(t, t.random[n]);
      var got' := if IsTerrible(i, now) then got else got + [Address(i.service, i.services, i.time)];
      GetAddrTable(t, n + 1, limit, got', pick, now);
    }
  }

  /** The clock readings an operation records are positive. */
  predicate ClockOk(op: Op) {
    match op
    case OpGood(_, _, now) => now > 0
    case OpAttempt(_, _, now) => now > 0
    case OpResolveCollisions(now) => now > 0
    case _ => true
  }

  lemma SmallTimes(s: State, op: Op)
    requires Inv(s) && TimesOk(s) && ClockOk(op)
    requires op.OpAttempt? || op.OpConnected? || op.OpSetServices? || op.OpSelectCollision?
    ensures TimesOk(Step(s, op))
  {
    hide Inv, TriedSlot, FindExact;
    match op
    case OpAttempt(a, count, now) => FindExactKnown(s, a);
    case OpConnected(a, seen) => FindExactKnown(s, a);
    case OpSetServices(a, services) => FindExactKnown(s, a);
    case OpSelectCollision(id) =>
  }

  lemma StepTimes(s: State, op: Op)
    requires Inv(s) && TimesOk(s) && ClockOk(op)
    ensures TimesOk(Step(s, op))
  {
    hide Ok, PendingOk, TimesOk, Add, Good, Attempt, Connected, SetServices, ResolveFrom, SelectTriedCollision, GetAddr;
    match op
    case OpAdd(a, source, penalty, now, dice) => AddTimes(s, a, source, penalty, now, dice);
    case OpGood(a, test, now) => GoodTimes(s, a, test, now);
    case OpResolveCollisions(now) => ResolveFromTimes(s, 0, s.idCount, now);
    case OpGetAddr(pick, now) => GetAddrTimes(s, 0, GetAddrLimit(s), [], pick, now);
    case _ => SmallTimes(s, op);
  }

  lemma {:induction false} RunTimes(s: State, ops: seq<Op>, t: State)
    requires Inv(s) && TimesOk(s) && Reaches(s, ops, t)
    requires forall i :: 0 <= i < |ops| ==> ClockOk(ops[i])
    ensures TimesOk(t)
    decreases |ops|
  {
    hide Ok, PendingOk, TimesOk, Step, ClockOk;
    if ops != [] {
      StepInv(s, ops[0]);
      StepTimes(s, ops[0]);
      RunTimes(Step(s, ops[0]), ops[1..], t);
    }
  }

  /** Check_ passes after every run from an empty manager with a non-null key and a positive clock. */
  lemma EveryRunPassesCheck(env: Oracle, key: Key, ops: seq<Op>, t: State)
    requires key.bits != 0 && Reaches(Empty(env, key), ops, t)
    requires forall i :: 0 <= i < |ops| ==> ClockOk(ops[i])
    ensures Shape(t) && CheckPasses(t)
  {
    hide Ok, PendingOk, CheckPasses, Step, ClockOk;
    EmptyInv(env, key);
    RunInv(Empty(env, key), ops, t);
    RunTimes(Empty(env, key), ops, t);
    OkPasses(t);
  }
}
