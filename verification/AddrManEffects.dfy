/**
 What one operation of the address manager changes: which slot of which table holds what afterwards,
 who is known, tried or pending, and what becomes of the entry that was in the way.
 */
module AddrManEffects {
  import opened Basics
  import opened AddrManModel
  import opened AddrManInvariant
  import opened AddrManOperations

  // ---------------------------------------------------------------- finding an entry

  /** Find follows the host alone: one entry at most has it. */
  lemma FindIff(s: State, h: NetAddr, id: int)
    requires Inv(s)
    ensures Find(s, h) == Some(id) <==> id in s.infos && s.infos[id].service.host == h
    ensures Find(s, h).None? ==> forall x :: x in s.infos ==> s.infos[x].service.host != h
  {
    hide RandomOk, IdsOk, NewOk, TriedOk, RefOk, CountOk, PendingOk;
    FindKnown(s, h);
  }

  /** An exact match needs the port as well. */
  lemma FindExactIff(s: State, a: Service, id: int)
    requires Inv(s)
    ensures FindExact(s, a) == Some(id) <==> id in s.infos && s.infos[id].service == a
    ensures FindExact(s, a).None? ==> forall x :: x in s.infos ==> s.infos[x].service != a
  {
    hide RandomOk, IdsOk, NewOk, TriedOk, RefOk, CountOk, PendingOk;
  }

  // ---------------------------------------------------------------- MakeTried

  /** Where an entry announced by `source` is stored in the "new" table. */
  function NewHome(s: State, i: Info, source: NetAddr): (slot: nat)
    ensures slot < NEW_SLOTS
  {
    NewSlot(s.env, s.key, NewBucket(s.env, s.key, i.service.host, source), i.service)
  }

  /** x is in both states, with the same references and in the same kind of table. */
  ghost predicate Unmoved(s: State, t: State, x: int) {
    && x in s.infos && x in t.infos
    && t.infos[x].refCount == s.infos[x].refCount && t.infos[x].inTried == s.infos[x].inTried
  }

  /** t's "new" table is s's without id. */
  ghost predicate Without(s: State, t: State, id: int) {
    && |t.newTab| == |s.newTab|
    && forall i :: 0 <= i < |s.newTab| ==> t.newTab[i] == if s.newTab[i] == id then EMPTY else s.newTab[i]
  }

  ghost predicate PartlyWithout(s: State, t: State, id: int) {
    && |t.newTab| == |s.newTab|
    && (forall i :: 0 <= i < |s.newTab| ==> t.newTab[i] == s.newTab[i] || (s.newTab[i] == id && t.newTab[i] == EMPTY))
    && (forall x :: x in s.infos && x != id ==> Unmoved(s, t, x))
  }

  lemma PartlyTrans(s: State, t: State, u: State, id: int)
    requires PartlyWithout(s, t, id) && PartlyWithout(t, u, id)
    ensures PartlyWithout(s, u, id)
  {
  }

  lemma DropPartly(s: State, i: nat, id: int)
    requires Shape(s) && i < NEW_SLOTS && id in s.infos && s.newTab[i] == id
    ensures PartlyWithout(s, DropSlot(s, i), id) && id in DropSlot(s, i).infos
  {
  }

  lemma {:induction false} ScrubPartly(s: State, id: int, b: nat)
    requires Shape(s) && id in s.infos && b <= NEW_BUCKET_COUNT
    ensures PartlyWithout(s, Scrub(s, id, b), id)
    decreases NEW_BUCKET_COUNT - b
  {
    hide DropSlot, NewSlot;
    if b < NEW_BUCKET_COUNT {
      var i := NewSlot(s.env, s.key, b, InfoOf(s, id).service);
      if s.newTab[i] == id {
        var t := DropSlot(s, i);
        DropPartly(s, i, id);
        ScrubPartly(t, id, b + 1);
        PartlyTrans(s, t, Scrub(t, id, b + 1), id);
      } else {
        ScrubPartly(s, id, b + 1);
      }
    }
  }

  /** The entry in tried slot i, if any, ends up in the slot its own source selects, and nowhere else. */
  lemma EvictTriedEffects(s: State, i: nat, F: set<int>, U: set<int>)
    requires Shape(s) && Ok(s, F, U) && U <= F && i < TRIED_SLOTS && s.triedTab[i] != EMPTY
    ensures var e := s.triedTab[i];
            var t := EvictTried(s, i);
            && e in s.infos && e in t.infos && !t.infos[e].inTried && t.infos[e].refCount == 1
            && t.newTab == s.newTab[NewHome(s, s.infos[e], s.infos[e].source) := e]
            && forall x :: x in s.infos && x != e && x != s.newTab[NewHome(s, s.infos[e], s.infos[e].source)] ==> Unmoved(s, t, x)
  {
    hide Ok, Demote, ClearNew, NewSlot, NewBucket;
    var e := s.triedTab[i];
    TriedAt(s, i, F, U);
    var j := NewHome(s, s.infos[e], s.infos[e].source);
    var d := Demote(s, i);
    DemoteOk(s, i, F, U);
    DemoteUnmoved(s, i);
    RefBounds(d, e, F + {e}, U + {e});
    var c := ClearNew(d, j);
    ClearNewKeeps(d, j, F + {e}, U + {e});
    forall x | x in d.infos && x != d.newTab[j] ensures Unmoved(d, c, x) {
      ClearNewOthers(d, j, x, F + {e}, U + {e});
    }
    assert Unmoved(d, c, e);
    forall x | x in s.infos && x != e && x != s.newTab[j] ensures Unmoved(s, EvictTried(s, i), x) {
      assert Unmoved(s, d, x) && Unmoved(d, c, x);
    }
  }

  lemma DemoteUnmoved(s: State, i: nat)
    requires Shape(s) && i < TRIED_SLOTS && s.triedTab[i] in s.infos
    ensures var t := Demote(s, i);
            && t.newTab == s.newTab && t.env == s.env && t.key == s.key
            && s.triedTab[i] in t.infos && !t.infos[s.triedTab[i]].inTried
            && forall x :: x in s.infos && x != s.triedTab[i] ==> Unmoved(s, t, x)
  {
  }

  /** What is left of the "new" table when id has become tried and pushed out the holder of its slot. */
  ghost predicate Promoted(s: State, t: State, id: int)
    requires Shape(s) && Shape(t) && id in s.infos
  {
    var slot := TriedSlot(s.env, s.key, s.infos[id].service);
    var e := s.triedTab[slot];
    && t.triedTab == s.triedTab[slot := id]
    && id in t.infos && t.infos[id].inTried && t.infos[id].refCount == 0
    && (forall x :: x in t.infos && x != id ==> x in s.infos && OnlyLinksDiffer(t.infos[x], s.infos[x]))
    && (e == EMPTY ==> Without(s, t, id) && forall x :: x in s.infos && x != id ==> Unmoved(s, t, x))
    && (e != EMPTY ==>
         && e in s.infos && e in t.infos && !t.infos[e].inTried && t.infos[e].refCount == 1
         && var home := NewHome(s, s.infos[e], s.infos[e].source);
         && t.newTab[home] == e
         && (forall i :: 0 <= i < NEW_SLOTS && i != home ==> t.newTab[i] == if s.newTab[i] == id then EMPTY else s.newTab[i])
         && forall x :: x in s.infos && x != id && x != e && x != s.newTab[home] ==> Unmoved(s, t, x))
  }

  /** After the loop of MakeTried no "new" slot refers to id, and nothing else has moved. */
  lemma ScrubEffects(s: State, id: int)
    requires Shape(s) && Ok(s, {}, {}) && id in s.infos && !s.infos[id].inTried
    ensures var t := Scrub(s, id, 0);
            && Without(s, t, id) && (forall x :: x in s.infos && x != id ==> Unmoved(s, t, x))
            && Ok(t, {id}, {}) && Keeps(s, t) && id in t.infos && !t.infos[id].inTried && t.infos[id].refCount == 0
            && t.triedTab == s.triedTab
  {
    hide Ok, Scrub, Keeps;
    var t := Scrub(s, id, 0);
    SlotsFromStart(s, id);
    ScrubOk(s, id, 0, {}, {}, {});
    assert {} + {id} == {id};
    FloatingKnown(t, {id}, {});
    ScrubPartly(s, id, 0);
    RefBounds(t, id, {id}, {});
  }

  lemma SameHome(s: State, t: State, e: int)
    requires Keeps(s, t) && e in t.infos
    ensures e in s.infos && t.infos[e].source == s.infos[e].source
    ensures NewHome(t, t.infos[e], t.infos[e].source) == NewHome(s, s.infos[e], s.infos[e].source)
  {
  }

  lemma PromoteMoves(s: State, i: nat, id: int)
    requires Shape(s) && i < TRIED_SLOTS && id in s.infos
    ensures var t := Promote(s, i, id);
            && t.newTab == s.newTab && id in t.infos && t.infos[id].refCount == s.infos[id].refCount
            && forall x :: x in s.infos && x != id ==> Unmoved(s, t, x)
  {
  }

  lemma UnmovedTrans(s: State, t: State, u: State, x: int)
    requires Unmoved(s, t, x) && Unmoved(t, u, x)
    ensures Unmoved(s, u, x)
  {
  }

  lemma KeepsOthers(s: State, t: State)
    requires Keeps(s, t)
    ensures forall x :: x in t.infos ==> x in s.infos && OnlyLinksDiffer(t.infos[x], s.infos[x])
  {
  }

  /** MakeTried after its loop: u is the state with one entry fewer counted as new. */
  lemma MakeTriedSplit(s: State, id: int)
    requires Shape(s) && id in s.infos
    ensures var i := TriedSlot(s.env, s.key, s.infos[id].service);
            var t := Scrub(s, id, 0);
            MakeTried(s, id) == Promote(EvictTried(t.(nNew := t.nNew - 1), i), i, id)
  {
    hide Scrub, EvictTried, Promote, TriedSlot;
  }

  /** MakeTried without a rival: only the tried slot and id's own references change. */
  lemma MakeTriedFree(s: State, id: int)
    requires Shape(s) && Ok(s, {}, {}) && id in s.infos && !s.infos[id].inTried
    requires s.triedTab[TriedSlot(s.env, s.key, s.infos[id].service)] == EMPTY
    ensures Promoted(s, MakeTried(s, id), id)
  {
    hide Ok, Scrub, Promote, TriedSlot, Keeps, MakeTried, Unmoved;
    MakeTriedSplit(s, id);
    MakeTriedOk(s, id);
    KeepsOthers(s, MakeTried(s, id));
    var i := TriedSlot(s.env, s.key, s.infos[id].service);
    ScrubEffects(s, id);
    var t := Scrub(s, id, 0);
    var u := t.(nNew := t.nNew - 1);
    PromoteMoves(u, i, id);
    var v := Promote(u, i, id);
    assert EvictTried(u, i) == u;
    RefBounds(v, id, {}, {});
    forall x | x in s.infos && x != id ensures Unmoved(s, v, x) {
      SameUnmoved(s, t, u, x);
      UnmovedTrans(s, u, v, x);
    }
  }

  lemma SameUnmoved(s: State, t: State, u: State, x: int)
    requires Unmoved(s, t, x) && u.infos == t.infos
    ensures Unmoved(s, u, x) && x in u.infos
  {
  }

  /** MakeTried with a rival: the rival returns to the "new" table, and only the entry there loses a slot. */
  lemma MakeTriedEvicts(s: State, id: int)
    requires Shape(s) && Ok(s, {}, {}) && id in s.infos && !s.infos[id].inTried
    requires s.triedTab[TriedSlot(s.env, s.key, s.infos[id].service)] != EMPTY
    ensures Promoted(s, MakeTried(s, id), id)
  {
    hide Ok, Scrub, Promote, TriedSlot, Keeps, MakeTried, EvictTried, Unmoved;
    MakeTriedSplit(s, id);
    MakeTriedOk(s, id);
    KeepsOthers(s, MakeTried(s, id));
    var i := TriedSlot(s.env, s.key, s.infos[id].service);
    var e := s.triedTab[i];
    TriedAt(s, i, {}, {});
    ScrubEffects(s, id);
    var t := Scrub(s, id, 0);
    CountDown(t, id, {id}, {});
    assert {} + {id} == {id};
    var u := t.(nNew := t.nNew - 1);
    SameUnmoved(s, t, u, e);
    EvictTriedEffects(u, i, {id}, {id});
    EvictTriedOk(u, i, {id}, {id});
    SameHome(s, t, e);
    var v := EvictTried(u, i);
    PromoteMoves(v, i, id);
    var r := Promote(v, i, id);
    RefBounds(r, id, {}, {});
    FloatingKnown(s, {}, {});
    var home := NewHome(s, s.infos[e], s.infos[e].source);
    UnmovedFields(v, r, e);
    forall x | x in s.infos && x != id && x != e && x != s.newTab[home] ensures Unmoved(s, r, x) {
      SameUnmoved(s, t, u, x);
      UnmovedTrans(s, u, v, x);
      UnmovedTrans(s, v, r, x);
    }
  }

  lemma UnmovedFields(s: State, t: State, x: int)
    requires Unmoved(s, t, x)
    ensures x in s.infos && x in t.infos
    ensures t.infos[x].refCount == s.infos[x].refCount && t.infos[x].inTried == s.infos[x].inTried
  {
  }

  // ---------------------------------------------------------------- Good_

  /** The statistics of a successful connection; all else about the address itself stays. */
  ghost predicate Succeeded(s: State, t: State, id: int, now: int) {
    && id in s.infos && id in t.infos
    && t.infos[id].lastSuccess == now && t.infos[id].lastTry == now && t.infos[id].attempts == 0
    && t.infos[id].service == s.infos[id].service && t.infos[id].source == s.infos[id].source
    && t.infos[id].services == s.infos[id].services && t.infos[id].time == s.infos[id].time
    && t.infos[id].lastCountAttempt == s.infos[id].lastCountAttempt
  }

  /** Both tables, their counters, and every entry but id are the same; id has the same references. */
  ghost predicate OnlyStatistics(s: State, t: State, id: int) {
    && t.newTab == s.newTab && t.triedTab == s.triedTab && t.nNew == s.nNew && t.nTried == s.nTried
    && t.random == s.random && t.addrs == s.addrs && t.idCount == s.idCount
    && id in s.infos && id in t.infos && SameLinks(t.infos[id], s.infos[id])
    && t.infos == s.infos[id := t.infos[id]]
  }

  /** s with the statistics of id updated: the state in which Good_ decides. */
  ghost predicate Touched(s: State, t: State, id: int, now: int) {
    && id in s.infos
    && t == s.(lastGood := now, infos := s.infos[id := s.infos[id].(lastSuccess := now, lastTry := now, attempts := 0)])
  }

  lemma TouchedEffects(s: State, t: State, id: int, now: int)
    requires Touched(s, t, id, now)
    ensures Succeeded(s, t, id, now) && OnlyStatistics(s, t, id) && t.infos[id].inTried == s.infos[id].inTried
  {
  }

  lemma PromotedFrom(s: State, s1: State, t: State, id: int, now: int)
    requires Shape(s) && Shape(t) && Touched(s, s1, id, now) && EMPTY !in s.infos
    requires Shape(s1) && Promoted(s1, t, id) && Keeps(s1, t)
    requires !s.infos[id].inTried && TriedOk(s)
    ensures Promoted(s, t, id) && Succeeded(s, t, id, now) && t.collisions == s.collisions
  {
    hide TriedSlot, NewSlot, NewBucket;
    var e := s.triedTab[TriedSlot(s.env, s.key, s.infos[id].service)];
    if e != EMPTY {
      assert e != id;
      forall x | x in s.infos && x != id && x != e && x != s.newTab[NewHome(s, s.infos[e], s.infos[e].source)]
        ensures Unmoved(s, t, x)
      {
        assert Unmoved(s1, t, x);
      }
    } else {
      forall x | x in s.infos && x != id ensures Unmoved(s, t, x) {
        assert Unmoved(s1, t, x);
      }
    }
  }

  /** The entry passes the eviction test at once: its slot is empty, or no test is asked for. */
  ghost predicate GoesToTried(s: State, id: int, testBeforeEvict: bool)
    requires Shape(s) && id in s.infos
  {
    && !s.infos[id].inTried
    && (!testBeforeEvict || s.triedTab[TriedSlot(s.env, s.key, s.infos[id].service)] == EMPTY)
  }

  lemma GoodUnfolds(s: State, a: Service, testBeforeEvict: bool, now: int, id: int, s1: State)
    requires Inv(s) && FindExact(s, a) == Some(id) && Touched(s, s1, id, now) && Shape(s1) && Inv(s1)
    ensures Good(s, a, testBeforeEvict, now)
         == if s.infos[id].inTried then s1
            else if GoesToTried(s, id, testBeforeEvict) then MakeTried(s1, id)
            else if |s.collisions| < TRIED_COLLISION_SIZE then s1.(collisions := s.collisions + {id})
            else s1
  {
    hide Ok, TriedSlot, PendingOk, MakeTried, InSomeBucket;
    FindExactKnown(s, a);
    if !s.infos[id].inTried {
      UntriedIsInSomeBucket(s1, id);
    }
  }

  lemma InvParts(s: State)
    requires Inv(s)
    ensures Shape(s) && TriedOk(s) && NewOk(s) && RandomOk(s) && EMPTY !in s.infos
  {
    FloatingKnown(s, {}, {});
  }

  /**
   Good_ for a known address. Its statistics become those of a success. An entry that is tried already
   stays put. Otherwise it becomes tried if its slot is empty or no test is asked for, and takes the
   slot from its holder. If the holder must be tested first, nothing moves, and the entry is pending
   afterwards exactly if it was, or fewer than ten were.
   */
  lemma GoodEffects(s: State, a: Service, testBeforeEvict: bool, now: int, id: int)
    requires Inv(s) && id in s.infos && s.infos[id].service == a
    ensures var t := Good(s, a, testBeforeEvict, now);
            && t.lastGood == now && Succeeded(s, t, id, now)
            && (GoesToTried(s, id, testBeforeEvict) ==> Promoted(s, t, id) && t.collisions == s.collisions)
            && (!GoesToTried(s, id, testBeforeEvict) ==> OnlyStatistics(s, t, id))
            && (s.infos[id].inTried ==> t.collisions == s.collisions)
            && (!s.infos[id].inTried && !GoesToTried(s, id, testBeforeEvict) ==>
                  && (id in t.collisions <==> id in s.collisions || |s.collisions| < 10)
                  && forall x :: x != id ==> (x in t.collisions <==> x in s.collisions))
  {
    hide Ok, TriedSlot, PendingOk, MakeTried, FindExact, Promoted, Good, SameLinks;
    FindExactIff(s, a, id);
    InvParts(s);
    GoodTouch(s, id, now);
    var s0 := s.(lastGood := now);
    var s1 := SetInfo(s0, id, s0.infos[id].(lastSuccess := now, lastTry := now, attempts := 0));
    assert Touched(s, s1, id, now);
    TouchedEffects(s, s1, id, now);
    GoodUnfolds(s, a, testBeforeEvict, now, id, s1);
    if GoesToTried(s, id, testBeforeEvict) {
      MakeTriedOk(s1, id);
      if s1.triedTab[TriedSlot(s1.env, s1.key, s1.infos[id].service)] == EMPTY {
        MakeTriedFree(s1, id);
      } else {
        MakeTriedEvicts(s1, id);
      }
      PromotedFrom(s, s1, MakeTried(s1, id), id, now);
    }
  }

  /** Good_ for an address that is not known, or known with another port: only the time of the last success is noted. */
  lemma GoodUnknown(s: State, a: Service, testBeforeEvict: bool, now: int)
    requires Inv(s) && forall x :: x in s.infos ==> s.infos[x].service != a
    ensures Good(s, a, testBeforeEvict, now) == s.(lastGood := now)
  {
    FindExactKnown(s, a);
  }

  // ---------------------------------------------------------------- Add_

  /** Every entry but those of `changed` is the same in both states, up to its random position. */
  ghost predicate OthersSame(s: State, t: State, changed: set<int>) {
    forall x :: x !in changed ==> (x in t.infos <==> x in s.infos) && (x in s.infos ==> SameSeat(t.infos[x], s.infos[x]))
  }

  /** The slot may be taken by an entry with n references. */
  predicate Available(s: State, slot: nat, n: int, now: int)
    requires Shape(s) && slot < NEW_SLOTS
  {
    var holder := s.newTab[slot];
    || holder == EMPTY
    || (holder in s.infos && (IsTerrible(s.infos[holder], now) || (n == 0 && s.infos[holder].refCount > 1)))
  }

  /** id gains `slot`; whoever held it loses one reference, and with the last one its place in the manager. */
  ghost predicate Gained(s: State, t: State, slot: nat, id: int)
    requires Shape(s) && Shape(t) && slot < NEW_SLOTS
  {
    var holder := s.newTab[slot];
    && t.newTab == s.newTab[slot := id]
    && id in s.infos && id in t.infos && SameSeat(t.infos[id], s.infos[id].(refCount := s.infos[id].refCount + 1))
    && (holder != EMPTY ==> holder in s.infos)
    && (holder != EMPTY && s.infos[holder].refCount == 1 ==> holder !in t.infos)
    && (holder != EMPTY && s.infos[holder].refCount != 1 ==>
          holder in t.infos && SameSeat(t.infos[holder], s.infos[holder].(refCount := s.infos[holder].refCount - 1)))
    && OthersSame(s, t, {id, holder})
  }

  lemma DropSeats(s: State, i: nat)
    requires Shape(s) && i < NEW_SLOTS && s.newTab[i] in s.infos
    ensures OthersSame(s, DropSlot(s, i), {s.newTab[i]})
  {
  }

  lemma DeleteOthers(s: State, id: int, F: set<int>, U: set<int>)
    requires Shape(s) && Ok(s, F, U) && id in F && id !in U
    ensures OthersSame(s, Delete(s, id), {id}) && id !in Delete(s, id).infos
  {
    hide Ok, Delete;
    DeleteOk(s, id, F, U);
    DeleteSeats(s, id, F, U);
    var t := Delete(s, id);
    forall x | x != id ensures x in t.infos <==> x in s.infos {
      assert x in t.infos <==> x in t.infos.Keys;
    }
    assert id !in t.infos.Keys;
  }

  /** Emptying slot i costs its holder one reference, and its entry if it was the last; no other entry changes. */
  lemma ClearNewEffects(s: State, i: nat, F: set<int>)
    requires Shape(s) && Ok(s, F, {}) && i < NEW_SLOTS && s.newTab[i] != EMPTY
    ensures var d := s.newTab[i];
            var t := ClearNew(s, i);
            && d in s.infos && OthersSame(s, t, {d}) && t.newTab == s.newTab[i := EMPTY]
            && (s.infos[d].refCount == 1 ==> d !in t.infos)
            && (s.infos[d].refCount != 1 ==>
                  d in t.infos && t.infos[d] == s.infos[d].(refCount := s.infos[d].refCount - 1))
  {
    hide Ok, Delete, DropSlot;
    var d := s.newTab[i];
    var t := DropSlot(s, i);
    DropSlotOk(s, i, F, {});
    DropSlotInfos(s, i);
    DropSeats(s, i);
    ClearNewKeeps(s, i, F, {});
    if t.infos[d].refCount == 0 {
      DeleteOthers(t, d, F + {d}, {});
    }
  }

  lemma PlaceSeats(s: State, i: nat, id: int)
    requires Shape(s) && i < NEW_SLOTS && id in s.infos
    ensures var t := PlaceNew(s, i, id);
            && OthersSame(s, t, {id}) && id in t.infos && t.infos[id] == s.infos[id].(refCount := s.infos[id].refCount + 1)
  {
  }

  lemma OthersTrans(s: State, t: State, u: State, a: set<int>, b: set<int>)
    requires OthersSame(s, t, a) && OthersSame(t, u, b)
    ensures OthersSame(s, u, a + b)
  {
  }

  lemma OthersAt(s: State, t: State, changed: set<int>, x: int)
    requires OthersSame(s, t, changed) && x !in changed
    ensures x in t.infos <==> x in s.infos
    ensures x in s.infos ==> SameSeat(t.infos[x], s.infos[x])
  {
  }

  lemma ClearThenPlace(s: State, i: nat, id: int, F: set<int>)
    requires Shape(s) && Ok(s, F, {}) && i < NEW_SLOTS && id in s.infos && s.newTab[i] != id
    ensures Gained(s, PlaceNew(ClearNew(s, i), i, id), i, id)
  {
    hide Ok, ClearNew, PlaceNew, OthersSame;
    var d := s.newTab[i];
    var c := ClearNew(s, i);
    FloatingKnown(s, F, {});
    if d == EMPTY {
      assert c == s by { ClearEmpty(s, i); }
      PlaceSeats(s, i, id);
      PlaceNewDetails(s, i, id);
      OthersWider(s, PlaceNew(s, i, id), {id}, {id, d});
    } else {
      ClearNewEffects(s, i, F);
      OthersAt(s, c, {d}, id);
      PlaceSeats(c, i, id);
      PlaceNewDetails(c, i, id);
      var t := PlaceNew(c, i, id);
      OthersAt(c, t, {id}, d);
      OthersTrans(s, c, t, {d}, {id});
      OthersWider(s, t, {d} + {id}, {id, d});
    }
  }

  lemma ClearEmpty(s: State, i: nat)
    requires Shape(s) && i < NEW_SLOTS && s.newTab[i] == EMPTY
    ensures ClearNew(s, i) == s
  {
  }

  lemma OthersWider(s: State, t: State, a: set<int>, b: set<int>)
    requires OthersSame(s, t, a) && forall x :: x in a ==> x in b
    ensures OthersSame(s, t, b)
  {
  }

  /**
   Placing an untried entry: it gains the slot that its address and the source select if that is
   available. Otherwise nothing moves, and an entry without any other slot is forgotten.
   */
  lemma InsertEffects(s: State, id: int, source: NetAddr, now: int, F: set<int>)
    requires Shape(s) && Ok(s, F, {}) && F <= {id} && id in s.infos && !s.infos[id].inTried
    ensures var t := Insert(s, id, source, now);
            var slot := NewHome(s, s.infos[id], source);
            var n := s.infos[id].refCount;
            && (s.newTab[slot] == id ==> t == s)
            && (s.newTab[slot] != id && Available(s, slot, n, now) ==> Gained(s, t, slot, id))
            && (s.newTab[slot] != id && !Available(s, slot, n, now) && n > 0 ==> t == s)
            && (s.newTab[slot] != id && !Available(s, slot, n, now) && n == 0 ==>
                  id !in t.infos && OthersSame(s, t, {id}) && t.newTab == s.newTab)
  {
    hide Ok, ClearNew, PlaceNew, Delete, NewSlot, NewBucket, IsTerrible, Gained, OthersSame;
    var slot := NewHome(s, s.infos[id], source);
    var holder := s.newTab[slot];
    RefBounds(s, id, F, {});
    if holder != id {
      HolderKnown(s, slot, F);
      ClearThenPlace(s, slot, id, F);
      if s.infos[id].refCount == 0 {
        DeleteOthers(s, id, F, {});
        DeleteDetails(s, id, F, {});
      }
    }
  }

  lemma HolderKnown(s: State, slot: nat, F: set<int>)
    requires Shape(s) && Ok(s, F, {}) && slot < NEW_SLOTS
    ensures s.newTab[slot] != EMPTY ==> s.newTab[slot] in s.infos
  {
    hide IdentityOk, TriedOk, RefOk, CountOk;
  }

  /** The state in which Add_ looks for a slot for a new host: the entry is known, floating, and counted. */
  function Newborn(s: State, a: Address, source: NetAddr, time: nat): (u: State)
    ensures Shape(s) ==> Shape(u)
  {
    var t := Create(s, a, source);
    SetInfo(t, s.idCount, t.infos[s.idCount].(time := time)).(nNew := t.nNew + 1)
  }

  lemma NewbornOk(s: State, a: Address, source: NetAddr, time: nat)
    requires Inv(s) && a.service.host !in s.addrs
    ensures Ok(Newborn(s, a, source, time), {s.idCount}, {})
  {
    hide Ok, Create, PendingOk, TriedSlot;
    var id := s.idCount;
    var t := Create(s, a, source);
    CreateDetails(s, a, source);
    CreateOk(s, a, source, {}, {});
    assert {} + {id} == {id} && {id} - {id} == {};
    var i := t.infos[id].(time := time);
    var t1 := SetInfo(t, id, i);
    TouchOk(t, id, i, {id}, {id});
    CountUp(t1, id, {id}, {id});
    assert Newborn(s, a, source, time) == t1.(nNew := t1.nNew + 1);
  }

  lemma NewbornIs(s: State, a: Address, source: NetAddr, time: nat)
    requires Inv(s)
    ensures var u := Newborn(s, a, source, time);
            && s.idCount !in s.infos && s.idCount in u.infos && u.newTab == s.newTab && u.triedTab == s.triedTab
            && u.env == s.env && u.key == s.key
            && OthersSame(s, u, {s.idCount}) && u.idCount == s.idCount + 1
            && u.infos[s.idCount] == Info(a.service, a.services, time, source, 0, 0, 0, 0, 0, false, |s.random|)
  {
    hide Ok, PendingOk, TriedSlot, OthersSame;
    IdsInRange(s);
    NewbornOthers(s, a, source, time);
  }

  lemma NewbornOthers(s: State, a: Address, source: NetAddr, time: nat)
    ensures OthersSame(s, Newborn(s, a, source, time), {s.idCount})
  {
    var u := Newborn(s, a, source, time);
    forall x | x !in {s.idCount}
      ensures (x in u.infos <==> x in s.infos) && (x in s.infos ==> SameSeat(u.infos[x], s.infos[x]))
    {
    }
  }

  /** The penalty does not apply to an address that announces itself. */
  function PenaltyFor(a: Address, source: NetAddr, timePenalty: int): int {
    if a.service.host == source then 0 else timePenalty
  }

  /** The stored time of a new entry: the announced one less the penalty, not below zero, in 32 bits. */
  function PenalisedTime(a: Address, source: NetAddr, timePenalty: int): nat {
    Max(0, a.time - PenaltyFor(a, source, timePenalty)) % 0x1_0000_0000
  }

  predicate HostUnknown(s: State, h: NetAddr) {
    forall x | x in s.infos :: s.infos[x].service.host != h
  }

  lemma UnknownHost(s: State, h: NetAddr)
    requires Inv(s) && HostUnknown(s, h)
    ensures Find(s, h).None? && h !in s.addrs
  {
    FindKnown(s, h);
    if Find(s, h).Some? {
      HostDiffers(s, h, Find(s, h).value);
      assert false;
    }
  }

  lemma HostDiffers(s: State, h: NetAddr, x: int)
    requires HostUnknown(s, h) && x in s.infos
    ensures s.infos[x].service.host != h
  {
  }

  /** Unroutable addresses are refused. */
  lemma AddUnroutable(s: State, a: Address, source: NetAddr, timePenalty: int, now: int, dice: int)
    requires Shape(s) && !s.env.isRoutable(a.service.host)
    ensures Add(s, a, source, timePenalty, now, dice) == (s, false)
  {
  }

  lemma AddNewUnfolds(s: State, a: Address, source: NetAddr, timePenalty: int, now: int, dice: int)
    requires Inv(s) && s.env.isRoutable(a.service.host) && HostUnknown(s, a.service.host)
    ensures Add(s, a, source, timePenalty, now, dice)
         == (Insert(Newborn(s, a, source, PenalisedTime(a, source, timePenalty)), s.idCount, source, now), true)
  {
    hide Ok, PendingOk, Insert, TriedSlot, Find, Refresh, HostUnknown;
    UnknownHost(s, a.service.host);
  }

  /** The new entry in its only slot: what was announced, with no statistics yet. */
  ghost predicate Stored(s: State, t: State, a: Address, source: NetAddr, time: nat, slot: nat)
    requires Shape(s) && Shape(t) && slot < NEW_SLOTS
  {
    var id := s.idCount;
    var holder := s.newTab[slot];
    && t.newTab == s.newTab[slot := id]
    && id in t.infos && SameSeat(t.infos[id], Info(a.service, a.services, time, source, 0, 0, 0, 0, 1, false, 0))
    && Find(t, a.service.host) == Some(id)
    && (holder != EMPTY ==>
          && holder in s.infos
          && (s.infos[holder].refCount == 1 ==> holder !in t.infos)
          && (s.infos[holder].refCount > 1 ==>
                holder in t.infos && SameSeat(t.infos[holder], s.infos[holder].(refCount := s.infos[holder].refCount - 1))))
    && OthersSame(s, t, {id, holder})
  }

  /**
   Add_ of a routable address whose host is not known: the answer is true. If the slot that address and
   source select is empty, or its holder is terrible or has another slot, the new entry is stored there.
   Otherwise the host stays unknown and the tables are as before.
   */
  lemma AddNewEffects(s: State, a: Address, source: NetAddr, timePenalty: int, now: int, dice: int)
    requires Inv(s) && s.env.isRoutable(a.service.host) && HostUnknown(s, a.service.host)
    ensures var (t, added) := Add(s, a, source, timePenalty, now, dice);
            var slot := NewSlot(s.env, s.key, NewBucket(s.env, s.key, a.service.host, source), a.service);
            && added && t.triedTab == s.triedTab && t.collisions == s.collisions && t.idCount == s.idCount + 1
            && (Available(s, slot, 0, now) ==> Stored(s, t, a, source, PenalisedTime(a, source, timePenalty), slot))
            && (!Available(s, slot, 0, now) ==> HostUnknown(t, a.service.host) && t.newTab == s.newTab && OthersSame(s, t, {}))
  {
    hide Ok, PendingOk, Insert, Newborn, Available, NewSlot, NewBucket, Gained, OthersSame, SameSeat, TriedSlot, Stored, HostUnknown;
    var id := s.idCount;
    var u := Newborn(s, a, source, PenalisedTime(a, source, timePenalty));
    AddNewUnfolds(s, a, source, timePenalty, now, dice);
    AddInv(s, a, source, timePenalty, now, dice);
    UnknownHost(s, a.service.host);
    NewbornOk(s, a, source, PenalisedTime(a, source, timePenalty));
    NewbornIs(s, a, source, PenalisedTime(a, source, timePenalty));
    InsertOk(u, id, source, now, {id});
    InsertEffects(u, id, source, now, {id});
    var t := Insert(u, id, source, now);
    var slot := NewSlot(s.env, s.key, NewBucket(s.env, s.key, a.service.host, source), a.service);
    assert slot == NewHome(u, u.infos[id], source);
    HolderKnown(s, slot, {});
    IdsInRange(s);
    AvailableBefore(s, u, slot, id, now);
    if Available(s, slot, 0, now) {
      StoredAfter(s, u, t, a, source, PenalisedTime(a, source, timePenalty), slot);
    } else {
      ForgottenAfter(s, u, t, id, a.service.host);
    }
  }

  lemma AvailableBefore(s: State, u: State, slot: nat, id: int, now: int)
    requires Shape(s) && Shape(u) && u.newTab == s.newTab && slot < NEW_SLOTS && OthersSame(s, u, {id}) && id !in s.infos
    requires s.newTab[slot] != EMPTY ==> s.newTab[slot] in s.infos
    ensures Available(s, slot, 0, now) <==> Available(u, slot, 0, now)
  {
    var h := s.newTab[slot];
    if h != EMPTY {
      OthersAt(s, u, {id}, h);
      TerribleSeat(s.infos[h], u.infos[h], now);
    }
  }

  lemma TerribleSeat(i: Info, j: Info, now: int)
    requires SameSeat(j, i)
    ensures IsTerrible(j, now) == IsTerrible(i, now)
  {
  }

  lemma StoredAfter(s: State, u: State, t: State, a: Address, source: NetAddr, time: nat, slot: nat)
    requires Inv(s) && u == Newborn(s, a, source, time) && Shape(t) && slot < NEW_SLOTS && Gained(u, t, slot, s.idCount)
    requires s.newTab[slot] != EMPTY ==> s.newTab[slot] in s.infos
    requires Ok(t, {}, {})
    ensures Stored(s, t, a, source, time, slot)
  {
    hide Newborn, PendingOk, OthersSame, Ok, TriedSlot, Find;
    var id := s.idCount;
    var h := s.newTab[slot];
    NewbornIs(s, a, source, time);
    if h != EMPTY { OthersAt(s, u, {id}, h); }
    OthersTrans(s, u, t, {id}, {id, h});
    OthersWider(s, t, {id} + {id, h}, {id, h});
    HostIsFound(t, id);
  }

  lemma HostIsFound(t: State, id: int)
    requires Shape(t) && Ok(t, {}, {}) && id in t.infos
    ensures Find(t, t.infos[id].service.host) == Some(id)
  {
    hide RandomOk, IdsOk, NewOk, TriedOk, RefOk, CountOk;
  }

  lemma ForgottenAfter(s: State, u: State, t: State, id: int, h: NetAddr)
    requires OthersSame(s, u, {id}) && OthersSame(u, t, {id}) && id !in s.infos && id !in t.infos && HostUnknown(s, h)
    ensures OthersSame(s, t, {}) && HostUnknown(t, h)
  {
    forall x | x !in {} ensures (x in t.infos <==> x in s.infos) && (x in s.infos ==> SameSeat(t.infos[x], s.infos[x])) {
      if x != id {
        OthersAt(s, u, {id}, x);
        OthersAt(u, t, {id}, x);
      }
    }
  }

  /** The announced time replaces the stored one once it is newer by more than the interval and the penalty. */
  predicate TimeIsUpdated(i: Info, a: Address, penalty: int, now: int) {
    && a.time != 0
    && (i.time == 0 || i.time + (if now - a.time < 86400 then 3600 else 86400) + penalty < a.time)
  }

  /** The entry of a known host after the announcement a. */
  function Announced(i: Info, a: Address, source: NetAddr, timePenalty: int, now: int): Info {
    i.(time := if TimeIsUpdated(i, a, PenaltyFor(a, source, timePenalty), now)
               then PenalisedTime(a, source, timePenalty) else i.time,
       services := i.services | a.services)
  }

  /** The announcement is worth another slot. */
  predicate WorthASlot(i: Info, a: Address, dice: int) {
    a.time != 0 && (i.time == 0 || a.time > i.time) && !i.inTried && i.refCount < 8 && dice == 0
  }

  lemma AddKnownUnfolds(s: State, a: Address, source: NetAddr, timePenalty: int, now: int, dice: int, id: int)
    requires Inv(s) && s.env.isRoutable(a.service.host) && id in s.infos && s.infos[id].service.host == a.service.host
    ensures var i := Announced(s.infos[id], a, source, timePenalty, now);
            Add(s, a, source, timePenalty, now, dice)
            == (if WorthASlot(i, a, dice) then Insert(SetInfo(s, id, i), id, source, now) else SetInfo(s, id, i), false)
  {
    hide Ok, PendingOk, Insert, TriedSlot, Refresh, Announced, Find;
    FindIff(s, a.service.host, id);
    RefBounds(s, id, {}, {});
    RefreshIs(s.infos[id], a, source, timePenalty, now);
    AnnouncedLinks(s.infos[id], a, source, timePenalty, now);
  }

  lemma RefreshIs(i: Info, a: Address, source: NetAddr, timePenalty: int, now: int)
    ensures Refresh(i, a, PenaltyFor(a, source, timePenalty), now) == Announced(i, a, source, timePenalty, now)
  {
  }

  lemma SetInfoIs(s: State, id: int, i: Info)
    requires Shape(s) && id in s.infos
    ensures var u := SetInfo(s, id, i);
            && Shape(u) && id in u.infos && u.infos[id] == i && u.newTab == s.newTab && u.triedTab == s.triedTab
            && forall x :: x in s.infos ==> x in u.infos && (x != id ==> u.infos[x] == s.infos[x])
  {
  }

  /**
   Add_ of a known host: the answer is false, and time and services are refreshed. If the announcement
   is worth another slot, the entry gains the one that source selects, provided it is empty or held by a
   terrible entry; it has that slot already or else nothing moves.
   */
  lemma AddKnownEffects(s: State, a: Address, source: NetAddr, timePenalty: int, now: int, dice: int, id: int)
    requires Inv(s) && s.env.isRoutable(a.service.host) && id in s.infos && s.infos[id].service.host == a.service.host
    ensures var (t, added) := Add(s, a, source, timePenalty, now, dice);
            var i := Announced(s.infos[id], a, source, timePenalty, now);
            var u := s.(infos := s.infos[id := i]);
            var slot := NewHome(s, s.infos[id], source);
            var gains := WorthASlot(i, a, dice) && s.newTab[slot] != id && Available(s, slot, 1, now);
            && !added
            && (gains ==> Gained(u, t, slot, id) && t.triedTab == s.triedTab && t.collisions == s.collisions)
            && (!gains ==> t == u)
  {
    hide Ok, PendingOk, Insert, TriedSlot, Announced, Gained, NewSlot, NewBucket, IsTerrible;
    AddKnownUnfolds(s, a, source, timePenalty, now, dice, id);
    var i := Announced(s.infos[id], a, source, timePenalty, now);
    AnnouncedLinks(s.infos[id], a, source, timePenalty, now);
    TouchOk(s, id, i, {}, {});
    RefBounds(s, id, {}, {});
    SetInfoIs(s, id, i);
    if WorthASlot(i, a, dice) {
      var u := SetInfo(s, id, i);
      InsertEffects(u, id, source, now, {});
      InsertOk(u, id, source, now, {});
    }
  }

  lemma AnnouncedLinks(i: Info, a: Address, source: NetAddr, timePenalty: int, now: int)
    ensures SameLinks(Announced(i, a, source, timePenalty, now), i)
  {
  }

  /** Add_ answers true exactly for a routable address of a host that no entry has. */
  lemma AddAnswer(s: State, a: Address, source: NetAddr, timePenalty: int, now: int, dice: int)
    requires Inv(s)
    ensures Add(s, a, source, timePenalty, now, dice).1 <==>
            s.env.isRoutable(a.service.host) && HostUnknown(s, a.service.host)
  {
    hide Ok, PendingOk, Insert, TriedSlot, HostUnknown, Refresh;
    if s.env.isRoutable(a.service.host) {
      FindKnown(s, a.service.host);
      if Find(s, a.service.host).Some? {
        KnownHost(s, a.service.host, Find(s, a.service.host).value);
      } else {
        AbsentHost(s, a.service.host);
      }
    }
  }

  lemma KnownHost(s: State, h: NetAddr, x: int)
    requires x in s.infos && s.infos[x].service.host == h
    ensures !HostUnknown(s, h)
  {
  }

  lemma AbsentHost(s: State, h: NetAddr)
    requires Inv(s) && h !in s.addrs
    ensures HostUnknown(s, h)
  {
    hide RandomOk, IdsOk, NewOk, TriedOk, RefOk, CountOk, PendingOk;
  }

  // ---------------------------------------------------------------- which entries are terrible

  /**
   An entry is terrible if it was not tried in the last minute and its time lies more than ten minutes
   ahead, is unset or more than thirty days old, or three attempts never succeeded, or ten attempts failed
   and the last success is more than a week ago.
   */
  lemma TerribleIff(i: Info, now: int)
    ensures IsTerrible(i, now) <==>
      && (i.lastTry == 0 || now - i.lastTry > 60)
      && (|| i.time - now > 600
          || i.time == 0
          || now - i.time > 2592000
          || (i.lastSuccess == 0 && i.attempts >= 3)
          || (now - i.lastSuccess > 604800 && i.attempts >= 10))
  {
  }

  // ---------------------------------------------------------------- Attempt_, Connected_, SetServices_

  /** Only the entry with exactly this address changes, to i; with no such entry nothing does. */
  ghost predicate OnlyEntry(s: State, t: State, a: Service, f: Info -> Info) {
    && (forall id :: id in s.infos && s.infos[id].service == a ==> t == s.(infos := s.infos[id := f(s.infos[id])]))
    && ((forall id :: id in s.infos ==> s.infos[id].service != a) ==> t == s)
  }

  /** One more failed attempt, counted at most once since the last success of any address. */
  lemma AttemptEffects(s: State, a: Service, countFailure: bool, now: int)
    requires Inv(s)
    ensures OnlyEntry(s, Attempt(s, a, countFailure, now), a, (i: Info) =>
              if countFailure && i.lastCountAttempt < s.lastGood
              then i.(lastTry := now, lastCountAttempt := now, attempts := i.attempts + 1) else i.(lastTry := now))
  {
    hide Ok, PendingOk, TriedSlot, FindExact;
    ExactMatches(s, a);
  }

  /** The stored time is renewed when it is more than twenty minutes old. */
  lemma ConnectedEffects(s: State, a: Service, now: nat)
    requires Inv(s) && now < 0x1_0000_0000
    ensures OnlyEntry(s, Connected(s, a, now), a, (i: Info) => if now - i.time > 1200 then i.(time := now) else i)
  {
    hide Ok, PendingOk, TriedSlot, FindExact;
    ExactMatches(s, a);
    forall id | id in s.infos ensures s.infos[id := s.infos[id]] == s.infos {
    }
  }

  lemma SetServicesEffects(s: State, a: Service, services: bv64)
    requires Inv(s)
    ensures OnlyEntry(s, SetServices(s, a, services), a, (i: Info) => i.(services := services))
  {
    hide Ok, PendingOk, TriedSlot, FindExact;
    ExactMatches(s, a);
  }

  lemma ExactMatches(s: State, a: Service)
    requires Inv(s)
    ensures forall id :: id in s.infos && s.infos[id].service == a ==> FindExact(s, a) == Some(id)
    ensures (forall id :: id in s.infos ==> s.infos[id].service != a) ==> FindExact(s, a).None?
  {
    forall id | id in s.infos && s.infos[id].service == a ensures FindExact(s, a) == Some(id) {
      FindExactIff(s, a, id);
    }
    FindExactKnown(s, a);
    hide Ok, PendingOk, TriedSlot, FindExact;
  }
}
