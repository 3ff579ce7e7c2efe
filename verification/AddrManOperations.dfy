/**
 Every operation of the address manager keeps the structure Check_ demands, never empties an
 occupied tried slot, and keeps pending collisions pointing at occupied slots.
 */
module AddrManOperations {
  import opened Basics
  import opened AddrManModel
  import opened AddrManInvariant

  // ---------------------------------------------------------------- MakeTried

  /** Every reference to id lies in bucket b or later. */
  ghost predicate SlotsFrom(s: State, id: int, b: nat) {
    forall i :: i in Slots(s.newTab, id) ==> i / BUCKET_SIZE >= b
  }

  lemma ScrubStep(s: State, id: int, b: nat)
    requires Shape(s) && NewOk(s) && id in s.infos && b < NEW_BUCKET_COUNT && SlotsFrom(s, id, b) && id != EMPTY
    ensures var i := NewSlot(s.env, s.key, b, s.infos[id].service);
            SlotsFrom(if s.newTab[i] == id then DropSlot(s, i) else s, id, b + 1)
  {
    var i := NewSlot(s.env, s.key, b, s.infos[id].service);
    forall k | k in Slots(s.newTab, id) && k / BUCKET_SIZE == b ensures k == i {
    }
    if s.newTab[i] == id {
      SlotsUpdate(s.newTab, i, EMPTY, id);
    }
  }

  lemma ScrubDone(s: State, id: int, G: set<int>, U: set<int>)
    requires Shape(s) && Ok(s, G, U) && id in s.infos && !s.infos[id].inTried && SlotsFrom(s, id, NEW_BUCKET_COUNT)
    ensures id in G
  {
    hide IdentityOk, NewOk, TriedOk, CountOk;
    SlotsBelow(s.newTab, id);
    assert Slots(s.newTab, id) == {};
  }

  lemma SlotsBelow(tab: seq<int>, id: int)
    requires |tab| == NEW_SLOTS
    ensures forall i :: i in Slots(tab, id) ==> i / BUCKET_SIZE < NEW_BUCKET_COUNT
  {
  }

  lemma {:induction false} ScrubOk(s: State, id: int, b: nat, F: set<int>, G: set<int>, U: set<int>)
    requires Shape(s) && Ok(s, G, U) && (G == F || G == F + {id})
    requires id in s.infos && !s.infos[id].inTried && b <= NEW_BUCKET_COUNT && SlotsFrom(s, id, b)
    ensures var t := Scrub(s, id, b);
            && Ok(t, F + {id}, U) && Keeps(s, t) && id in t.infos
            && t.triedTab == s.triedTab && t.nTried == s.nTried && t.nNew == s.nNew
    decreases NEW_BUCKET_COUNT - b
  {
    hide DropSlot, Ok, SlotsFrom, NewSlot, NewOk;
    FloatingKnown(s, G, U);
    if b == NEW_BUCKET_COUNT {
      ScrubDone(s, id, G, U);
      assert G == F + {id};
    } else {
      var i := NewSlot(s.env, s.key, b, s.infos[id].service);
      OkNew(s, G, U);
      ScrubStep(s, id, b);
      if s.newTab[i] == id {
        var t := DropSlot(s, i);
        DropSlotOk(s, i, G, U);
        DropSlotDetails(s, i);
        DropSlotInfos(s, i);
        ScrubOk(t, id, b + 1, F, if t.infos[id].refCount == 0 then G + {id} else G, U);
        KeepsTrans(s, t, Scrub(t, id, b + 1));
      } else {
        ScrubOk(s, id, b + 1, F, G, U);
      }
    }
  }

  lemma DropSlotInfos(s: State, i: nat)
    requires Shape(s) && i < NEW_SLOTS && s.newTab[i] in s.infos
    ensures var d := s.newTab[i];
            DropSlot(s, i).infos == s.infos[d := s.infos[d].(refCount := s.infos[d].refCount - 1)]
    ensures DropSlot(s, i).nNew == s.nNew
  {
  }

  lemma OkNew(s: State, F: set<int>, U: set<int>)
    requires Shape(s) && Ok(s, F, U)
    ensures NewOk(s) && TriedOk(s)
  {
  }

  lemma CountUp(s: State, x: int, F: set<int>, U: set<int>)
    requires Shape(s) && Ok(s, F, U) && x in U
    ensures Ok(s.(nNew := s.nNew + 1), F, U - {x})
  {
    var t := s.(nNew := s.nNew + 1);
    hide NewIds, TriedIds, RefOk, TriedOk;
    assert NewIds(s.infos) - (U - {x}) == (NewIds(s.infos) - U) + {x};
    IdentityFrame(s, t);
    TriedFrame(s, t);
    RefFrame(s, t, F);
    hide IdentityOk;
  }

  lemma CountDown(s: State, x: int, F: set<int>, U: set<int>)
    requires Shape(s) && Ok(s, F, U) && x in s.infos && !s.infos[x].inTried && x !in U
    ensures Ok(s.(nNew := s.nNew - 1), F, U + {x})
  {
    var t := s.(nNew := s.nNew - 1);
    assert x in NewIds(s.infos);
    hide NewIds, TriedIds, RefOk, TriedOk;
    assert NewIds(s.infos) - (U + {x}) == (NewIds(s.infos) - U) - {x};
    IdentityFrame(s, t);
    TriedFrame(s, t);
    RefFrame(s, t, F);
    hide IdentityOk;
  }

  lemma RefFrame(s: State, t: State, F: set<int>)
    requires RefOk(s, F) && t.infos == s.infos && t.newTab == s.newTab
    ensures RefOk(t, F)
  {
  }

  lemma TriedAt(s: State, i: nat, F: set<int>, U: set<int>)
    requires Shape(s) && Ok(s, F, U) && i < TRIED_SLOTS && s.triedTab[i] != EMPTY
    ensures s.triedTab[i] in s.infos && s.infos[s.triedTab[i]].inTried && s.triedTab[i] !in F
  {
    hide IdentityOk, NewOk, CountOk;
  }

  lemma DemoteDetails(s: State, i: nat)
    requires Shape(s) && i < TRIED_SLOTS && s.triedTab[i] in s.infos
    ensures var t := Demote(s, i);
            && Keeps(s, t) && t.infos.Keys == s.infos.Keys && t.triedTab == s.triedTab[i := EMPTY]
  {
  }

  lemma {:induction false} EvictTriedOk(s: State, i: nat, F: set<int>, U: set<int>)
    requires Shape(s) && Ok(s, F, U) && U <= F && i < TRIED_SLOTS
    ensures var t := EvictTried(s, i);
            && Ok(t, F, U) && Keeps(s, t) && t.triedTab == s.triedTab[i := EMPTY]
            && forall x :: x in F ==> x in t.infos
  {
    hide Ok, Demote, ClearNew, NewSlot, NewBucket, PlaceNew;
    if s.triedTab[i] == EMPTY {
      FloatingKnown(s, F, U);
      assert s.triedTab[i := EMPTY] == s.triedTab;
    } else {
      var e := s.triedTab[i];
      TriedAt(s, i, F, U);
      var prior := s.infos[e];
      var j := NewSlot(s.env, s.key, NewBucket(s.env, s.key, prior.service.host, prior.source), prior.service);
      var d := Demote(s, i);
      DemoteOk(s, i, F, U);
      DemoteDetails(s, i);
      var c := ClearNew(d, j);
      ClearNewOk(d, j, F + {e}, U + {e});
      ClearNewKeeps(d, j, F + {e}, U + {e});
      KeepsTrans(s, d, c);
      FloatingKnown(c, F + {e}, U + {e});
      PlaceNewOk(c, j, e, F + {e}, U + {e});
      var p := PlaceNew(c, j, e);
      PlaceNewDetails(c, j, e);
      assert (F + {e}) - {e} == F;
      CountUp(p, e, F, U + {e});
      assert U !! {e};
      assert (U + {e}) - {e} == U;
      assert EvictTried(s, i) == p.(nNew := p.nNew + 1);
      KeepsTrans(s, c, p);
    }
  }

  lemma PlaceNewDetails(s: State, i: nat, id: int)
    requires Shape(s) && i < NEW_SLOTS && id in s.infos
    ensures PlaceNew(s, i, id)
         == SetInfo(s, id, s.infos[id].(refCount := s.infos[id].refCount + 1)).(newTab := s.newTab[i := id])
    ensures var t := PlaceNew(s, i, id);
            Keeps(s, t) && t.infos.Keys == s.infos.Keys && t.triedTab == s.triedTab
  {
  }

  lemma PromoteDetails(s: State, i: nat, id: int)
    requires Shape(s) && i < TRIED_SLOTS && id in s.infos
    ensures var t := Promote(s, i, id);
            Keeps(s, t) && t.infos.Keys == s.infos.Keys && t.triedTab == s.triedTab[i := id] && t.infos[id].inTried
  {
  }

  lemma UncountedKeeps(s: State, k: int)
    ensures Keeps(s, s.(nNew := k))
  {
  }

  lemma KeepsSlot(s: State, t: State, id: int)
    requires Keeps(s, t) && id in t.infos
    ensures id in s.infos && TriedSlot(t.env, t.key, t.infos[id].service) == TriedSlot(s.env, s.key, s.infos[id].service)
  {
  }

  lemma SlotsFromStart(s: State, id: int)
    ensures SlotsFrom(s, id, 0)
  {
  }

  /** MakeTried keeps the structure, fills exactly the entry's own slot, and loses no other tried slot. */
  lemma MakeTriedOk(s: State, id: int)
    requires Shape(s) && Ok(s, {}, {}) && id in s.infos && !s.infos[id].inTried
    ensures var t := MakeTried(s, id);
            && Ok(t, {}, {}) && Keeps(s, t) && id in t.infos && t.infos[id].inTried
            && t.triedTab == s.triedTab[TriedSlot(s.env, s.key, s.infos[id].service) := id]
  {
    hide Ok, Scrub, EvictTried, Promote, TriedSlot, Keeps;
    var i := TriedSlot(s.env, s.key, s.infos[id].service);
    SlotsFromStart(s, id);
    ScrubOk(s, id, 0, {}, {}, {});
    var t := Scrub(s, id, 0);
    assert {} + {id} == {id};
    FloatingKnown(t, {id}, {});
    CountDown(t, id, {id}, {});
    var u := t.(nNew := t.nNew - 1);
    assert Shape(u);
    UncountedKeeps(t, t.nNew - 1);
    KeepsTrans(s, t, u);
    EvictTriedOk(u, i, {id}, {id});
    var v := EvictTried(u, i);
    KeepsTrans(s, u, v);
    KeepsSlot(s, v, id);
    PromoteOk(v, i, id, {id}, {id});
    PromoteDetails(v, i, id);
    KeepsTrans(s, v, Promote(v, i, id));
    assert {id} - {id} == {};
  }

  // ---------------------------------------------------------------- the invariant between operations

  /** At most ten collisions pend, and those still known point at occupied tried slots. */
  ghost predicate PendingOk(s: State)
    requires Shape(s)
  {
    && |s.collisions| <= TRIED_COLLISION_SIZE
    && forall id :: id in s.collisions && id in s.infos ==>
         s.triedTab[TriedSlot(s.env, s.key, s.infos[id].service)] != EMPTY
  }

  ghost predicate Inv(s: State) {
    Shape(s) && Ok(s, {}, {}) && PendingOk(s)
  }

  /** What an operation may do to the parts later operations rely on. */
  ghost predicate Grows(s: State, t: State)
    requires Shape(s) && Shape(t)
  {
    && t.env == s.env && t.key == s.key && s.idCount <= t.idCount
    && (forall i :: 0 <= i < TRIED_SLOTS && s.triedTab[i] != EMPTY ==> t.triedTab[i] != EMPTY)
    && (forall x :: x in t.infos && x < s.idCount ==> x in s.infos && t.infos[x].service == s.infos[x].service)
  }

  lemma GrowsTrans(s: State, t: State, u: State)
    requires Shape(s) && Shape(t) && Shape(u) && Grows(s, t) && Grows(t, u)
    ensures Grows(s, u)
  {
  }

  lemma KeepsGrows(s: State, t: State)
    requires Shape(s) && Shape(t) && Keeps(s, t)
    requires forall i :: 0 <= i < TRIED_SLOTS && s.triedTab[i] != EMPTY ==> t.triedTab[i] != EMPTY
    ensures Grows(s, t)
  {
  }

  lemma TouchGrows(s: State, id: int, i: Info)
    requires Shape(s) && id in s.infos && SameLinks(i, s.infos[id])
    ensures Grows(s, SetInfo(s, id, i))
  {
  }

  lemma IdsInRange(s: State)
    requires Shape(s) && Ok(s, {}, {})
    ensures 0 <= s.idCount
    ensures forall id :: id in s.infos || id in s.collisions ==> 0 <= id < s.idCount
  {
    hide RandomOk, AddrOk, NewOk, RefOk, TriedOk, CountOk;
  }

  /** Pending collisions survive any growth that adds none. */
  lemma PendingGrows(s: State, t: State)
    requires Inv(s) && Shape(t) && Grows(s, t) && t.collisions <= s.collisions
    ensures PendingOk(t)
  {
    hide Ok, TriedSlot;
    IdsInRange(s);
    SubsetSize(t.collisions, s.collisions);
    forall id | id in t.collisions && id in t.infos
      ensures t.triedTab[TriedSlot(t.env, t.key, t.infos[id].service)] != EMPTY
    {
      assert id in s.collisions && id < s.idCount;
    }
  }

  lemma MetaOk(s: State, g: int, c: set<int>, F: set<int>, U: set<int>)
    requires Shape(s) && Ok(s, F, U) && forall id :: id in c ==> 0 <= id < s.idCount
    ensures Ok(s.(lastGood := g, collisions := c), F, U)
  {
    var t := s.(lastGood := g, collisions := c);
    assert IdentityOk(t) by { hide NewOk, RefOk, TriedOk, CountOk; }
    TriedFrame(s, t);
    RefFrame(s, t, F);
    CountFrame(s, t, U);
    hide IdentityOk, TriedOk, RefOk, CountOk;
  }

  // ---------------------------------------------------------------- Good

  /** The search in Good_ finds a bucket for every entry that is not tried. */
  lemma UntriedIsInSomeBucket(s: State, id: int)
    requires Shape(s) && Ok(s, {}, {}) && id in s.infos && !s.infos[id].inTried
    ensures InSomeBucket(s, id, s.infos[id].service)
  {
    FloatingKnown(s, {}, {});
    hide IdentityOk, TriedOk, CountOk;
    assert |Slots(s.newTab, id)| > 0;
    var i :| i in Slots(s.newTab, id);
    assert s.newTab[i] == id;
    assert NewSlot(s.env, s.key, i / BUCKET_SIZE, s.infos[id].service) == i;
  }

  /** The state in which Good_ decides where the entry goes. */
  lemma GoodTouch(s: State, id: int, now: int)
    requires Inv(s) && id in s.infos
    ensures var s0 := s.(lastGood := now);
            var s1 := SetInfo(s0, id, s0.infos[id].(lastSuccess := now, lastTry := now, attempts := 0));
            Inv(s1) && Grows(s, s1)
  {
    hide Ok, TriedSlot, PendingOk;
    var s0 := s.(lastGood := now);
    var i := s0.infos[id].(lastSuccess := now, lastTry := now, attempts := 0);
    IdsInRange(s);
    MetaOk(s, now, s.collisions, {}, {});
    assert s0 == s.(lastGood := now, collisions := s.collisions);
    TouchOk(s0, id, i, {}, {});
    var s1 := SetInfo(s0, id, i);
    PendingGrows(s, s1);
  }

  lemma FindExactKnown(s: State, a: Service)
    ensures FindExact(s, a).Some? ==> FindExact(s, a).value in s.infos && s.infos[FindExact(s, a).value].service == a
    ensures forall g :: FindExact(s.(lastGood := g), a) == FindExact(s, a)
  {
  }

  lemma AddPending(s: State, id: int)
    requires Inv(s) && id in s.infos && |s.collisions| < TRIED_COLLISION_SIZE
    requires s.triedTab[TriedSlot(s.env, s.key, s.infos[id].service)] != EMPTY
    ensures var t := s.(collisions := s.collisions + {id}); Inv(t) && Grows(s, t)
  {
    var t := s.(collisions := s.collisions + {id});
    assert PendingOk(t) by { hide Ok, TriedSlot; }
    hide Ok, TriedSlot, PendingOk;
    IdsInRange(s);
    MetaOk(s, s.lastGood, t.collisions, {}, {});
    assert t == s.(lastGood := s.lastGood, collisions := t.collisions);
  }

  lemma MakeTriedInv(s: State, id: int)
    requires Inv(s) && id in s.infos && !s.infos[id].inTried
    ensures var t := MakeTried(s, id);
            && Inv(t) && Grows(s, t) && t.idCount == s.idCount && t.collisions == s.collisions
            && id in t.infos && t.infos[id].inTried
  {
    hide Ok, TriedSlot, PendingOk, MakeTried;
    FloatingKnown(s, {}, {});
    MakeTriedOk(s, id);
    var t := MakeTried(s, id);
    KeepsGrows(s, t);
    PendingGrows(s, t);
  }

  lemma LastGoodInv(s: State, now: int)
    requires Inv(s)
    ensures var t := s.(lastGood := now); Inv(t) && Grows(s, t)
  {
    hide Ok, TriedSlot, PendingOk;
    var t := s.(lastGood := now);
    IdsInRange(s);
    MetaOk(s, now, s.collisions, {}, {});
    assert t == s.(lastGood := now, collisions := s.collisions);
    PendingGrows(s, t);
  }

  /** Good_ keeps the invariant; without the eviction test a found entry always ends up tried. */
  lemma GoodInv(s: State, a: Service, testBeforeEvict: bool, now: int)
    requires Inv(s)
    ensures var t := Good(s, a, testBeforeEvict, now);
            && Inv(t) && Grows(s, t) && t.idCount == s.idCount
            && (!testBeforeEvict ==> t.collisions == s.collisions)
            && (!testBeforeEvict && FindExact(s, a).Some? ==>
                  FindExact(s, a).value in t.infos && t.infos[FindExact(s, a).value].inTried)
  {
    hide Ok, TriedSlot, PendingOk, MakeTried, InSomeBucket, FindExact, Grows;
    FindExactKnown(s, a);
    LastGoodInv(s, now);
    var s0 := s.(lastGood := now);
    assert FindExact(s0, a) == FindExact(s, a);
    if FindExact(s, a).Some? {
      var id := FindExact(s, a).value;
      GoodTouch(s, id, now);
      var s1 := SetInfo(s0, id, s0.infos[id].(lastSuccess := now, lastTry := now, attempts := 0));
      if !s1.infos[id].inTried {
        UntriedIsInSomeBucket(s1, id);
        if testBeforeEvict && s1.triedTab[TriedSlot(s.env, s.key, a)] != EMPTY {
          if |s1.collisions| < TRIED_COLLISION_SIZE {
            AddPending(s1, id);
            GrowsTrans(s, s1, s1.(collisions := s1.collisions + {id}));
          }
        } else {
          MakeTriedInv(s1, id);
          GrowsTrans(s, s1, MakeTried(s1, id));
        }
      }
    }
  }

  // ---------------------------------------------------------------- Add

  lemma ClearNewOthers(s: State, i: nat, x: int, F: set<int>, U: set<int>)
    requires Shape(s) && Ok(s, F, U) && U <= F && i < NEW_SLOTS && x in s.infos && x != s.newTab[i]
    ensures var t := ClearNew(s, i);
            x in t.infos && t.infos[x].refCount == s.infos[x].refCount && t.infos[x].inTried == s.infos[x].inTried
  {
    hide Ok, Delete, DropSlot;
    if s.newTab[i] != EMPTY {
      var d := s.newTab[i];
      var t := DropSlot(s, i);
      DropSlotOk(s, i, F, U);
      DropSlotInfos(s, i);
      if t.infos[d].refCount == 0 {
        DeleteOk(t, d, F + {d}, U);
        DeleteSeats(t, d, F + {d}, U);
        assert x in Delete(t, d).infos.Keys;
      }
    }
  }

  lemma DeleteSeats(s: State, id: int, F: set<int>, U: set<int>)
    requires Shape(s) && Ok(s, F, U) && id in F
    ensures forall x :: x in Delete(s, id).infos ==> x in s.infos && SameSeat(Delete(s, id).infos[x], s.infos[x])
  {
    hide Delete, RandomOk, AddrOk, IdsOk, NewOk, TriedOk, RefOk, CountOk;
    FloatingKnown(s, F, U);
    DeleteKeeps(s, id);
  }

  lemma RefBounds(s: State, id: int, F: set<int>, U: set<int>)
    requires Shape(s) && Ok(s, F, U) && id in s.infos
    ensures 0 <= s.infos[id].refCount <= NEW_BUCKETS_PER_ADDRESS
    ensures s.infos[id].refCount == 0 <==> s.infos[id].inTried || id in F
    ensures id in F ==> forall i :: 0 <= i < NEW_SLOTS ==> s.newTab[i] != id
  {
    hide IdentityOk, NewOk, TriedOk, CountOk;
    if id in F {
      forall i | 0 <= i < NEW_SLOTS ensures s.newTab[i] != id {
        assert i !in Slots(s.newTab, id);
      }
    }
  }

  /** An untried entry is stored, or, if it has no place at all, forgotten. */
  lemma InsertOk(s: State, id: int, source: NetAddr, now: int, F: set<int>)
    requires Shape(s) && Ok(s, F, {}) && F <= {id}
    requires id in s.infos && !s.infos[id].inTried && s.infos[id].refCount < NEW_BUCKETS_PER_ADDRESS
    ensures var t := Insert(s, id, source, now);
            Ok(t, {}, {}) && Keeps(s, t) && t.triedTab == s.triedTab
  {
    hide Ok, ClearNew, PlaceNew, Delete, NewSlot, NewBucket, IsTerrible, Keeps;
    var info := s.infos[id];
    var i := NewSlot(s.env, s.key, NewBucket(s.env, s.key, info.service.host, source), info.service);
    var holder := s.newTab[i];
    RefBounds(s, id, F, {});
    KeepsSelf(s);
    assert F - {id} == {};
    if holder == id {
      assert F == {};
    } else if holder == EMPTY || IsTerrible(InfoOf(s, holder), now) || (InfoOf(s, holder).refCount > 1 && info.refCount == 0) {
      var c := ClearNew(s, i);
      ClearNewOk(s, i, F, {});
      ClearNewKeeps(s, i, F, {});
      ClearNewOthers(s, i, id, F, {});
      KeepsPlace(s, c, id, i);
      PlaceNewOk(c, i, id, F, {});
      PlaceNewDetails(c, i, id);
      KeepsTrans(s, c, PlaceNew(c, i, id));
    } else if info.refCount == 0 {
      DeleteOk(s, id, F, {});
      DeleteDetails(s, id, F, {});
    } else {
      assert F == {};
    }
  }

  lemma KeepsSelf(s: State)
    ensures Keeps(s, s)
  {
  }

  lemma KeepsPlace(s: State, t: State, id: int, i: nat)
    requires Keeps(s, t) && id in t.infos && id in s.infos && i < NEW_SLOTS
    ensures NewSlot(t.env, t.key, i / BUCKET_SIZE, t.infos[id].service) == NewSlot(s.env, s.key, i / BUCKET_SIZE, s.infos[id].service)
  {
  }

  lemma InsertInv(s: State, id: int, source: NetAddr, now: int)
    requires Inv(s) && id in s.infos && !s.infos[id].inTried && s.infos[id].refCount < NEW_BUCKETS_PER_ADDRESS
    ensures var t := Insert(s, id, source, now);
            Inv(t) && Grows(s, t) && t.collisions == s.collisions
  {
    hide Ok, Insert, PendingOk, TriedSlot;
    InsertOk(s, id, source, now, {});
    var t := Insert(s, id, source, now);
    KeepsGrows(s, t);
    PendingGrows(s, t);
  }

  lemma FindKnown(s: State, h: NetAddr)
    requires Shape(s) && Ok(s, {}, {})
    ensures Find(s, h).Some? ==> Find(s, h).value in s.infos && s.infos[Find(s, h).value].service.host == h
    ensures Find(s, h).None? ==> h !in s.addrs
  {
    hide NewOk, RefOk, TriedOk, CountOk;
  }

  lemma TouchInv(s: State, id: int, i: Info)
    requires Inv(s) && id in s.infos && SameLinks(i, s.infos[id])
    ensures var t := SetInfo(s, id, i); Inv(t) && Grows(s, t) && t.collisions == s.collisions
  {
    hide Ok, PendingOk, TriedSlot;
    TouchOk(s, id, i, {}, {});
    TouchGrows(s, id, i);
    PendingGrows(s, SetInfo(s, id, i));
  }

  lemma CreateDetails(s: State, a: Address, source: NetAddr)
    requires Shape(s) && Ok(s, {}, {})
    ensures var t := Create(s, a, source);
            && s.idCount in t.infos && !t.infos[s.idCount].inTried && t.infos[s.idCount].refCount == 0
            && Shape(t) && Grows(s, t) && t.collisions == s.collisions
  {
    IdsInRange(s);
    hide Ok, TriedSlot;
  }

  lemma AddNewInv(s: State, a: Address, source: NetAddr, time: nat, now: int)
    requires Inv(s) && a.service.host !in s.addrs
    ensures var t := Create(s, a, source);
            var u := SetInfo(t, s.idCount, t.infos[s.idCount].(time := time)).(nNew := t.nNew + 1);
            var v := Insert(u, s.idCount, source, now);
            Inv(v) && Grows(s, v) && v.collisions == s.collisions
  {
    var id := s.idCount;
    var t := Create(s, a, source);
    CreateDetails(s, a, source);
    CreateOk(s, a, source, {}, {});
    hide Ok, Create, Insert, PendingOk, TriedSlot;
    assert {} + {id} == {id} && {id} - {id} == {};
    var i := t.infos[id].(time := time);
    var t1 := SetInfo(t, id, i);
    TouchOk(t, id, i, {id}, {id});
    TouchGrows(t, id, i);
    CountUp(t1, id, {id}, {id});
    var u := t1.(nNew := t.nNew + 1);
    assert u == t1.(nNew := t1.nNew + 1);
    UncountedKeeps(t1, u.nNew);
    KeepsGrows(t1, u);
    InsertOk(u, id, source, now, {id});
    var v := Insert(u, id, source, now);
    KeepsGrows(u, v);
    GrowsTrans(t, t1, u);
    GrowsTrans(t, u, v);
    GrowsTrans(s, t, v);
    PendingGrows(s, v);
  }

  lemma AddInv(s: State, a: Address, source: NetAddr, timePenalty: int, now: int, dice: int)
    requires Inv(s)
    ensures var t := Add(s, a, source, timePenalty, now, dice).0;
            Inv(t) && Grows(s, t) && t.collisions == s.collisions
  {
    hide Ok, Insert, PendingOk, TriedSlot, Find, Create, Refresh, ToUint32;
    FindKnown(s, a.service.host);
    GrowsSelf(s);
    if s.env.isRoutable(a.service.host) {
      var penalty := if a.service.host == source then 0 else timePenalty;
      match Find(s, a.service.host)
      case Some(id) =>
        var info := Refresh(s.infos[id], a, penalty, now);
        RefreshLinks(s.infos[id], a, penalty, now);
        RefBounds(s, id, {}, {});
        TouchInv(s, id, info);
        var t := SetInfo(s, id, info);
        if !(info.inTried || info.refCount == NEW_BUCKETS_PER_ADDRESS) {
          InsertInv(t, id, source, now);
          GrowsTrans(s, t, Insert(t, id, source, now));
        }
      case None =>
        CreateDetails(s, a, source);
        AddNewInv(s, a, source, ToUint32(Max(0, Create(s, a, source).infos[s.idCount].time - penalty)), now);
    }
  }

  lemma RefreshLinks(i: Info, a: Address, penalty: int, now: int)
    ensures SameLinks(Refresh(i, a, penalty, now), i)
  {
  }

  lemma GrowsSelf(s: State)
    requires Shape(s)
    ensures Grows(s, s)
  {
  }

  // ---------------------------------------------------------------- the small operations

  lemma AttemptInv(s: State, a: Service, countFailure: bool, now: int)
    requires Inv(s)
    ensures var t := Attempt(s, a, countFailure, now); Inv(t) && Grows(s, t) && t.collisions == s.collisions
  {
    hide Ok, PendingOk, TriedSlot, FindExact;
    FindExactKnown(s, a);
    GrowsSelf(s);
    if FindExact(s, a).Some? {
      var id := FindExact(s, a).value;
      TouchInv(s, id, Attempt(s, a, countFailure, now).infos[id]);
    }
  }

  lemma ConnectedInv(s: State, a: Service, now: nat)
    requires Inv(s)
    ensures var t := Connected(s, a, now); Inv(t) && Grows(s, t) && t.collisions == s.collisions
  {
    hide Ok, PendingOk, TriedSlot, FindExact;
    FindExactKnown(s, a);
    GrowsSelf(s);
    if FindExact(s, a).Some? {
      var id := FindExact(s, a).value;
      TouchInv(s, id, s.infos[id].(time := ToUint32(now)));
    }
  }

  lemma SetServicesInv(s: State, a: Service, services: bv64)
    requires Inv(s)
    ensures var t := SetServices(s, a, services); Inv(t) && Grows(s, t) && t.collisions == s.collisions
  {
    hide Ok, PendingOk, TriedSlot, FindExact;
    FindExactKnown(s, a);
    GrowsSelf(s);
    if FindExact(s, a).Some? {
      var id := FindExact(s, a).value;
      TouchInv(s, id, s.infos[id].(services := services));
    }
  }

  lemma OkRandom(s: State, F: set<int>, U: set<int>)
    requires Shape(s) && Ok(s, F, U)
    ensures RandomOk(s)
  {
  }

  lemma SwapRandomInv(s: State, i: int, j: int)
    requires Inv(s)
    ensures var t := SwapRandom(s, i, j); Inv(t) && Grows(s, t) && Keeps(s, t)
  {
    var t := SwapRandom(s, i, j);
    assert t.triedTab == s.triedTab && t.env == s.env && t.key == s.key && t.lastGood == s.lastGood;
    hide Ok, PendingOk, TriedSlot, SwapRandom, RandomOk;
    OkRandom(s, {}, {});
    SwapRandomOk(s, i, j, {}, {});
    SwapRandomKeeps(s, i, j);
    assert forall x :: x in t.infos <==> x in t.infos.Keys;
    KeepsGrows(s, t);
    PendingGrows(s, t);
  }

  lemma {:induction false} GetAddrInv(s: State, n: nat, limit: nat, got: seq<Address>, pick: nat -> nat, now: int)
    requires Inv(s) && n <= |s.random|
    ensures var t := GetAddr(s, n, limit, got, pick, now).0; Inv(t) && Grows(s, t) && Keeps(s, t)
    decreases |s.random| - n
  {
    hide Ok, PendingOk, TriedSlot, SwapRandom, IsTerrible, Keeps, Grows, PickFrom;
    GrowsSelf(s);
    KeepsSelf(s);
    if n < |s.random| && |got| < limit {
      var j := PickFrom(n, |s.random|, pick(n));
      var t := SwapRandom(s, n, j);
      SwapRandomInv(s, n, j);
      var i := InfoOf(t, t.random[n]);
      var got' := if IsTerrible(i, now) then got else got + [Address(i.service, i.services, i.time)];
      GetAddrInv(t, n + 1, limit, got', pick, now);
      GrowsTrans(s, t, GetAddr(t, n + 1, limit, got', pick, now).0);
      KeepsTrans(s, t, GetAddr(t, n + 1, limit, got', pick, now).0);
    }
  }

  lemma DropPending(s: State, id: int)
    requires Inv(s)
    ensures var t := s.(collisions := s.collisions - {id}); Inv(t) && Grows(s, t)
  {
    hide Ok, PendingOk, TriedSlot;
    var t := s.(collisions := s.collisions - {id});
    IdsInRange(s);
    MetaOk(s, s.lastGood, t.collisions, {}, {});
    assert t == s.(lastGood := s.lastGood, collisions := t.collisions);
    PendingGrows(s, t);
  }

  lemma ResolveInv(s: State, id: int, now: int)
    requires Inv(s)
    ensures var t := Resolve(s, id, now);
            Inv(t) && Grows(s, t) && t.idCount == s.idCount && t.collisions <= s.collisions
  {
    hide Ok, PendingOk, TriedSlot, Good, Grows;
    DropPending(s, id);
    GrowsSelf(s);
    if id in s.infos {
      var a := s.infos[id].service;
      GoodInv(s, a, false, now);
      var t := Good(s, a, false, now);
      DropPending(t, id);
      GrowsTrans(s, t, t.(collisions := t.collisions - {id}));
    }
  }

  lemma {:induction false} ResolveFromInv(s: State, id: int, stop: int, now: int)
    requires Inv(s)
    ensures var t := ResolveFrom(s, id, stop, now); Inv(t) && Grows(s, t) && t.collisions <= s.collisions
    decreases stop - id
  {
    hide Ok, PendingOk, TriedSlot, Resolve, Grows;
    GrowsSelf(s);
    if id < stop {
      var t := if id in s.collisions then Resolve(s, id, now) else s;
      ResolveInv(s, id, now);
      ResolveFromInv(t, id + 1, stop, now);
      GrowsTrans(s, t, ResolveFrom(t, id + 1, stop, now));
    }
  }

  /** SelectTriedCollision_ never looks up the empty marker: a known pending id has a tried rival. */
  lemma PendingHasRival(s: State, id: int)
    requires Inv(s) && id in s.collisions && id in s.infos
    ensures var holder := s.triedTab[TriedSlot(s.env, s.key, s.infos[id].service)];
            holder != EMPTY && holder in s.infos && s.infos[holder].inTried
  {
    hide IdentityOk, NewOk, RefOk, CountOk, TriedSlot;
  }

  lemma SelectCollisionInv(s: State, id: int)
    requires Inv(s)
    ensures var t := SelectTriedCollision(s, id).0; Inv(t) && Grows(s, t)
  {
    hide Ok, PendingOk, TriedSlot, Grows;
    DropPending(s, id);
    GrowsSelf(s);
  }
}
