/**
 What Check_ checks, and why every step of the address manager keeps it.

 Inside an operation the structure is briefly incomplete: an entry may be *floating* (known,
 but referenced by no table) or *uncounted* (not yet, or no longer, included in nNew). `Ok`
 is the full structure with exactly the ids of F floating and those of U uncounted;
 between operations both sets are empty.
 */
module AddrManInvariant {
  import opened AddrManModel

  ghost function Slots(t: seq<int>, id: int): set<int> {
    set i | 0 <= i < |t| && t[i] == id
  }

  ghost function NewIds(infos: map<int, Info>): set<int> {
    set id | id in infos && !infos[id].inTried
  }

  ghost function TriedIds(infos: map<int, Info>): set<int> {
    set id | id in infos && infos[id].inTried
  }

  /** random and randomPos are mutually inverse. */
  ghost predicate RandomOk(s: State) {
    && (forall id :: id in s.infos ==>
          0 <= s.infos[id].randomPos < |s.random| && s.random[s.infos[id].randomPos] == id)
    && (forall i :: 0 <= i < |s.random| ==> s.random[i] in s.infos && s.infos[s.random[i]].randomPos == i)
  }

  /** addrs is the inverse of "host of". */
  ghost predicate AddrOk(s: State) {
    && (forall id :: id in s.infos ==>
          s.infos[id].service.host in s.addrs && s.addrs[s.infos[id].service.host] == id)
    && (forall h :: h in s.addrs ==> s.addrs[h] in s.infos && s.infos[s.addrs[h]].service.host == h)
  }

  ghost predicate IdsOk(s: State) {
    && 0 <= s.idCount
    && (forall id :: id in s.infos ==> 0 <= id < s.idCount)
    && (forall id :: id in s.collisions ==> 0 <= id < s.idCount)
  }

  /** Every occupied "new" slot holds an untried entry, at that entry's hash position. */
  ghost predicate NewOk(s: State)
    requires Shape(s)
  {
    forall i :: 0 <= i < NEW_SLOTS && s.newTab[i] != EMPTY ==>
      && s.newTab[i] in s.infos
      && !s.infos[s.newTab[i]].inTried
      && NewSlot(s.env, s.key, i / BUCKET_SIZE, s.infos[s.newTab[i]].service) == i
  }

  /** Reference counts count slots; only floating untried entries have none. */
  ghost predicate RefOk(s: State, F: set<int>) {
    && (forall id :: id in F ==> id in s.infos)
    && (forall id :: id in s.infos ==>
          && s.infos[id].refCount == |Slots(s.newTab, id)| <= NEW_BUCKETS_PER_ADDRESS
          && (s.infos[id].refCount == 0 <==> s.infos[id].inTried || id in F)
          && (id in F ==> !s.infos[id].inTried))
  }

  /** Tried entries and occupied "tried" slots correspond one to one, by hash position. */
  ghost predicate TriedOk(s: State)
    requires Shape(s)
  {
    && (forall i :: 0 <= i < TRIED_SLOTS && s.triedTab[i] != EMPTY ==>
          && s.triedTab[i] in s.infos
          && s.infos[s.triedTab[i]].inTried
          && TriedSlot(s.env, s.key, s.infos[s.triedTab[i]].service) == i)
    && (forall id :: id in s.infos && s.infos[id].inTried ==>
          s.triedTab[TriedSlot(s.env, s.key, s.infos[id].service)] == id)
  }

  ghost predicate CountOk(s: State, U: set<int>) {
    && s.nTried == |TriedIds(s.infos)|
    && U <= NewIds(s.infos)
    && s.nNew == |NewIds(s.infos) - U|
  }

  /** Ids, hosts and random positions agree with one another. */
  ghost predicate IdentityOk(s: State) {
    RandomOk(s) && AddrOk(s) && IdsOk(s)
  }

  ghost predicate Ok(s: State, F: set<int>, U: set<int>)
    requires Shape(s)
  {
    IdentityOk(s) && NewOk(s) && TriedOk(s) && RefOk(s, F) && CountOk(s, U)
  }

  // ---------------------------------------------------------------- frames

  /** Same entries, with the same addresses at the same random positions. */
  ghost predicate SameIdentity(s: State, t: State) {
    && t.infos.Keys == s.infos.Keys && t.random == s.random && t.addrs == s.addrs
    && t.idCount == s.idCount && t.collisions == s.collisions
    && forall id :: id in s.infos ==>
         t.infos[id].service == s.infos[id].service && t.infos[id].randomPos == s.infos[id].randomPos
  }

  lemma IdentityFrame(s: State, t: State)
    requires IdentityOk(s) && SameIdentity(s, t)
    ensures IdentityOk(t)
  {
    assert forall id :: id in t.infos <==> id in s.infos;
  }

  /** Same entries as far as the two tables can tell. */
  ghost predicate SameEntries(s: State, t: State) {
    && t.env == s.env && t.key == s.key
    && t.infos.Keys == s.infos.Keys
    && forall id :: id in s.infos ==>
         t.infos[id].service == s.infos[id].service && t.infos[id].inTried == s.infos[id].inTried
  }

  lemma TriedFrame(s: State, t: State)
    requires Shape(s) && TriedOk(s) && SameEntries(s, t) && t.triedTab == s.triedTab && Shape(t)
    ensures TriedOk(t)
  {
    assert forall id :: id in t.infos <==> id in s.infos;
  }

  lemma CountFrame(s: State, t: State, U: set<int>)
    requires CountOk(s, U) && SameEntries(s, t) && t.nTried == s.nTried && t.nNew == s.nNew
    ensures CountOk(t, U)
  {
    forall id ensures id in NewIds(t.infos) <==> id in NewIds(s.infos)
              ensures id in TriedIds(t.infos) <==> id in TriedIds(s.infos)
    {
      assert id in t.infos <==> id in t.infos.Keys;
      assert id in s.infos <==> id in s.infos.Keys;
    }
    assert NewIds(t.infos) == NewIds(s.infos);
    assert TriedIds(t.infos) == TriedIds(s.infos);
  }

  lemma IdsUpdate(m: map<int, Info>, id: int, i: Info)
    ensures NewIds(m[id := i]) == if i.inTried then NewIds(m) - {id} else NewIds(m) + {id}
    ensures TriedIds(m[id := i]) == if i.inTried then TriedIds(m) + {id} else TriedIds(m) - {id}
  {
  }

  lemma IdsRemove(m: map<int, Info>, id: int)
    ensures NewIds(m - {id}) == NewIds(m) - {id}
    ensures TriedIds(m - {id}) == TriedIds(m) - {id}
  {
  }

  // ---------------------------------------------------------------- single steps

  /** The fields that tie an entry to the tables. */
  ghost predicate SameLinks(i: Info, j: Info) {
    i.service == j.service && i.refCount == j.refCount && i.inTried == j.inTried && i.randomPos == j.randomPos
  }

  lemma TouchOk(s: State, id: int, i: Info, F: set<int>, U: set<int>)
    requires Shape(s) && Ok(s, F, U) && id in s.infos && SameLinks(i, s.infos[id])
    ensures Ok(SetInfo(s, id, i), F, U)
  {
    var t := SetInfo(s, id, i);
    IdentityFrame(s, t);
    TriedFrame(s, t);
    CountFrame(s, t, U);
  }

  lemma FreshIdHasNoSlot(s: State, id: int)
    requires Shape(s) && NewOk(s) && id !in s.infos && id != EMPTY
    ensures Slots(s.newTab, id) == {}
  {
  }

  lemma CreateIdentity(s: State, a: Address, source: NetAddr)
    requires IdentityOk(s) && a.service.host !in s.addrs
    ensures IdentityOk(Create(s, a, source))
  {
  }

  lemma CreateTables(s: State, a: Address, source: NetAddr, F: set<int>)
    requires Shape(s) && NewOk(s) && TriedOk(s) && RefOk(s, F) && IdsOk(s)
    ensures var t := Create(s, a, source); Shape(t) && NewOk(t) && TriedOk(t) && RefOk(t, F + {s.idCount})
  {
    FreshIdHasNoSlot(s, s.idCount);
  }

  lemma CreateCounts(s: State, a: Address, source: NetAddr, U: set<int>)
    requires IdsOk(s) && CountOk(s, U)
    ensures CountOk(Create(s, a, source), U + {s.idCount})
  {
    var id := s.idCount;
    var t := Create(s, a, source);
    assert id !in NewIds(s.infos) && id !in TriedIds(s.infos);
    IdsUpdate(s.infos, id, t.infos[id]);
    hide NewIds, TriedIds;
    assert (NewIds(s.infos) + {id}) - (U + {id}) == NewIds(s.infos) - U;
  }

  lemma CreateOk(s: State, a: Address, source: NetAddr, F: set<int>, U: set<int>)
    requires Shape(s) && Ok(s, F, U) && a.service.host !in s.addrs
    ensures Ok(Create(s, a, source), F + {s.idCount}, U + {s.idCount})
  {
    hide RandomOk, AddrOk, NewOk, TriedOk, RefOk, CountOk;
    CreateIdentity(s, a, source);
    CreateTables(s, a, source, F);
    CreateCounts(s, a, source, U);
  }

  lemma SwapRandomKeeps(s: State, i: int, j: int)
    requires RandomOk(s)
    ensures var t := SwapRandom(s, i, j);
            t.infos.Keys == s.infos.Keys && t.addrs == s.addrs && t.idCount == s.idCount && t.collisions == s.collisions
    ensures var t := SwapRandom(s, i, j);
            forall id :: id in s.infos ==> SameSeat(t.infos[id], s.infos[id])
  {
  }

  /** Everything about an entry except its random position. */
  ghost predicate SameSeat(i: Info, j: Info) {
    i == j.(randomPos := i.randomPos)
  }

  lemma SwapRandomPositions(s: State, i: int, j: int)
    requires RandomOk(s)
    ensures RandomOk(SwapRandom(s, i, j))
  {
    hide SwapRandom;
    SwapRandomForward(s, i, j);
    SwapRandomBackward(s, i, j);
  }

  lemma SwapRandomForward(s: State, i: int, j: int)
    requires RandomOk(s)
    ensures var t := SwapRandom(s, i, j);
            forall id :: id in t.infos ==> 0 <= t.infos[id].randomPos < |t.random| && t.random[t.infos[id].randomPos] == id
  {
  }

  lemma SwapRandomBackward(s: State, i: int, j: int)
    requires RandomOk(s)
    ensures var t := SwapRandom(s, i, j);
            forall k :: 0 <= k < |t.random| ==> t.random[k] in t.infos && t.infos[t.random[k]].randomPos == k
  {
  }

  lemma SwapRandomIdentity(s: State, i: int, j: int)
    requires IdentityOk(s)
    ensures IdentityOk(SwapRandom(s, i, j))
  {
    var t := SwapRandom(s, i, j);
    SwapRandomKeeps(s, i, j);
    SwapRandomPositions(s, i, j);
    hide SwapRandom, RandomOk;
    assert forall id :: id in t.infos <==> id in t.infos.Keys;
  }

  lemma SwapRandomOk(s: State, i: int, j: int, F: set<int>, U: set<int>)
    requires Shape(s) && Ok(s, F, U)
    ensures Ok(SwapRandom(s, i, j), F, U)
  {
    var t := SwapRandom(s, i, j);
    SwapRandomKeeps(s, i, j);
    SwapRandomIdentity(s, i, j);
    assert t.newTab == s.newTab && t.triedTab == s.triedTab && t.nNew == s.nNew && t.nTried == s.nTried && t.env == s.env && t.key == s.key;
    hide SwapRandom, IdentityOk, TriedOk, CountOk;
    TriedFrame(s, t);
    CountFrame(s, t, U);
  }

  lemma DeleteIdentity(s: State, id: int)
    requires IdentityOk(s) && id in s.infos
    ensures IdentityOk(Delete(s, id)) && id !in Delete(s, id).infos
    ensures Delete(s, id).infos.Keys == s.infos.Keys - {id}
  {
    var last := |s.random| - 1;
    var w := SwapRandom(s, s.infos[id].randomPos, last);
    SwapRandomKeeps(s, s.infos[id].randomPos, last);
    SwapRandomIdentity(s, s.infos[id].randomPos, last);
    assert w.random[last] == id;
    DropLastIdentity(w, id);
    hide SwapRandom, IdentityOk;
  }

  lemma DropLastIdentity(w: State, id: int)
    requires IdentityOk(w) && id in w.infos && w.random[|w.random| - 1] == id
    ensures IdentityOk(w.(random := w.random[..|w.random| - 1], addrs := w.addrs - {w.infos[id].service.host},
                          infos := w.infos - {id}, nNew := w.nNew - 1))
  {
    assert forall h :: h in w.addrs && w.addrs[h] == id ==> h == w.infos[id].service.host;
  }

  /** Removing an entry no table refers to. */
  lemma ForgetTables(s: State, t: State, id: int, F: set<int>)
    requires Shape(s) && NewOk(s) && TriedOk(s) && RefOk(s, F) && id in F && id != EMPTY
    requires t.env == s.env && t.key == s.key && t.newTab == s.newTab && t.triedTab == s.triedTab
    requires t.infos.Keys == s.infos.Keys - {id}
    requires forall x :: x in t.infos ==> x in s.infos && SameSeat(t.infos[x], s.infos[x])
    ensures Shape(t) && NewOk(t) && TriedOk(t) && RefOk(t, F - {id})
  {
    assert Slots(s.newTab, id) == {};
    forall i | 0 <= i < NEW_SLOTS && t.newTab[i] != EMPTY ensures t.newTab[i] in t.infos {
      assert i !in Slots(s.newTab, id);
      assert t.newTab[i] in t.infos.Keys;
    }
    forall i | 0 <= i < TRIED_SLOTS && t.triedTab[i] != EMPTY ensures t.triedTab[i] in t.infos {
      assert t.triedTab[i] in t.infos.Keys;
    }
    forall x | x in F - {id} ensures x in t.infos { assert x in t.infos.Keys; }
  }

  lemma DeleteCounts(s: State, id: int, U: set<int>)
    requires RandomOk(s) && CountOk(s, U) && id in s.infos && !s.infos[id].inTried && id !in U
    ensures CountOk(Delete(s, id), U)
  {
    var last := |s.random| - 1;
    var w := SwapRandom(s, s.infos[id].randomPos, last);
    SwapRandomKeeps(s, s.infos[id].randomPos, last);
    assert w.env == s.env && w.key == s.key && w.nNew == s.nNew && w.nTried == s.nTried;
    assert id in NewIds(s.infos) - U && id !in TriedIds(s.infos);
    CountFrame(s, w, U);
    ForgetCounts(w, Delete(s, id), id, U);
  }

  lemma ForgetCounts(w: State, t: State, id: int, U: set<int>)
    requires CountOk(w, U) && id in w.infos && !w.infos[id].inTried && id !in U
    requires t.infos == w.infos - {id} && t.nNew == w.nNew - 1 && t.nTried == w.nTried
    ensures CountOk(t, U)
  {
    IdsRemove(w.infos, id);
    assert id in NewIds(w.infos) && id !in TriedIds(w.infos);
    hide NewIds, TriedIds;
    assert (NewIds(w.infos) - {id}) - U == (NewIds(w.infos) - U) - {id};
    assert TriedIds(w.infos) - {id} == TriedIds(w.infos);
  }

  lemma DeleteKeeps(s: State, id: int)
    requires RandomOk(s) && id in s.infos
    ensures var t := Delete(s, id);
            && t.env == s.env && t.key == s.key && t.newTab == s.newTab && t.triedTab == s.triedTab
            && t.idCount == s.idCount && t.collisions == s.collisions && t.lastGood == s.lastGood && t.nTried == s.nTried
            && forall x :: x in t.infos ==> x in s.infos && SameSeat(t.infos[x], s.infos[x])
  {
    SwapRandomKeeps(s, s.infos[id].randomPos, |s.random| - 1);
  }

  lemma DeleteOk(s: State, id: int, F: set<int>, U: set<int>)
    requires Shape(s) && Ok(s, F, U) && id in F && id !in U
    ensures Ok(Delete(s, id), F - {id}, U)
    ensures Delete(s, id).infos.Keys == s.infos.Keys - {id}
  {
    DeleteIdentity(s, id);
    DeleteKeeps(s, id);
    DeleteCounts(s, id, U);
    assert id != EMPTY && !s.infos[id].inTried;
    hide Delete, IdentityOk, NewOk, TriedOk, RefOk, CountOk;
    ForgetTables(s, Delete(s, id), id, F);
  }

  lemma SlotsUpdate(t: seq<int>, i: int, x: int, id: int)
    requires 0 <= i < |t|
    ensures Slots(t[i := x], id) == if x == id then Slots(t, id) + {i} else Slots(t, id) - {i}
  {
  }

  lemma DropSlotRefs(s: State, i: nat, F: set<int>)
    requires Shape(s) && NewOk(s) && RefOk(s, F) && i < NEW_SLOTS && s.newTab[i] != EMPTY && EMPTY !in s.infos
    ensures var d := s.newTab[i];
            var t := DropSlot(s, i);
            && d in t.infos && d !in F
            && RefOk(t, if t.infos[d].refCount == 0 then F + {d} else F)
  {
    var d := s.newTab[i];
    var t := DropSlot(s, i);
    assert i in Slots(s.newTab, d);
    SlotsUpdate(s.newTab, i, EMPTY, d);
    assert d != EMPTY;
    forall id | id in s.infos && id != d ensures |Slots(t.newTab, id)| == s.infos[id].refCount {
      SlotsUpdate(s.newTab, i, EMPTY, id);
      assert i !in Slots(s.newTab, id);
      assert Slots(s.newTab, id) - {i} == Slots(s.newTab, id);
    }
  }

  lemma DropSlotOk(s: State, i: nat, F: set<int>, U: set<int>)
    requires Shape(s) && Ok(s, F, U) && i < NEW_SLOTS && s.newTab[i] != EMPTY
    ensures var d := s.newTab[i];
            var t := DropSlot(s, i);
            && d in s.infos && d in t.infos && d !in F
            && Ok(t, if t.infos[d].refCount == 0 then F + {d} else F, U)
  {
    var t := DropSlot(s, i);
    IdentityFrame(s, t);
    TriedFrame(s, t);
    CountFrame(s, t, U);
    DropSlotRefs(s, i, F);
    assert NewOk(t);
    hide DropSlot, IdentityOk, NewOk, TriedOk, RefOk, CountOk;
  }

  lemma PlaceNewRefs(s: State, i: nat, id: int, F: set<int>)
    requires Shape(s) && RefOk(s, F) && i < NEW_SLOTS && s.newTab[i] == EMPTY && EMPTY !in s.infos
    requires id in s.infos && !s.infos[id].inTried && s.infos[id].refCount < NEW_BUCKETS_PER_ADDRESS
    ensures RefOk(PlaceNew(s, i, id), F - {id})
  {
    var t := PlaceNew(s, i, id);
    SlotsUpdate(s.newTab, i, id, id);
    assert i !in Slots(s.newTab, id);
    forall x | x in s.infos && x != id ensures |Slots(t.newTab, x)| == s.infos[x].refCount {
      SlotsUpdate(s.newTab, i, id, x);
      assert i !in Slots(s.newTab, x);
      assert Slots(s.newTab, x) - {i} == Slots(s.newTab, x);
    }
  }

  lemma PlaceNewOk(s: State, i: nat, id: int, F: set<int>, U: set<int>)
    requires Shape(s) && Ok(s, F, U) && i < NEW_SLOTS && s.newTab[i] == EMPTY
    requires id in s.infos && !s.infos[id].inTried && s.infos[id].refCount < NEW_BUCKETS_PER_ADDRESS
    requires NewSlot(s.env, s.key, i / BUCKET_SIZE, s.infos[id].service) == i
    ensures Ok(PlaceNew(s, i, id), F - {id}, U)
  {
    var t := PlaceNew(s, i, id);
    IdentityFrame(s, t);
    TriedFrame(s, t);
    CountFrame(s, t, U);
    PlaceNewRefs(s, i, id, F);
    assert NewOk(t);
    hide PlaceNew, IdentityOk, NewOk, TriedOk, RefOk, CountOk;
  }

  lemma DemoteTables(s: State, i: nat, F: set<int>)
    requires Shape(s) && NewOk(s) && TriedOk(s) && RefOk(s, F) && i < TRIED_SLOTS && s.triedTab[i] != EMPTY
    ensures var t := Demote(s, i); Shape(t) && NewOk(t) && TriedOk(t) && RefOk(t, F + {s.triedTab[i]})
  {
  }

  lemma DemoteCounts(s: State, i: nat, U: set<int>)
    requires Shape(s) && TriedOk(s) && CountOk(s, U) && i < TRIED_SLOTS && s.triedTab[i] != EMPTY
    ensures CountOk(Demote(s, i), U + {s.triedTab[i]})
  {
    var e := s.triedTab[i];
    var t := Demote(s, i);
    IdsUpdate(s.infos, e, t.infos[e]);
    assert e in TriedIds(s.infos) && e !in NewIds(s.infos);
    hide NewIds, TriedIds;
    assert (NewIds(s.infos) + {e}) - (U + {e}) == NewIds(s.infos) - U;
  }

  lemma DemoteOk(s: State, i: nat, F: set<int>, U: set<int>)
    requires Shape(s) && Ok(s, F, U) && i < TRIED_SLOTS && s.triedTab[i] != EMPTY
    ensures Ok(Demote(s, i), F + {s.triedTab[i]}, U + {s.triedTab[i]})
  {
    var t := Demote(s, i);
    IdentityFrame(s, t);
    hide IdentityOk, NewOk, RefOk, CountOk, Demote;
    DemoteTables(s, i, F);
    DemoteCounts(s, i, U);
  }

  lemma PromoteTables(s: State, i: nat, id: int, F: set<int>)
    requires Shape(s) && NewOk(s) && TriedOk(s) && RefOk(s, F) && id in F && EMPTY !in s.infos
    requires i == TriedSlot(s.env, s.key, s.infos[id].service) && s.triedTab[i] == EMPTY
    ensures var t := Promote(s, i, id); Shape(t) && NewOk(t) && TriedOk(t) && RefOk(t, F - {id})
  {
    assert Slots(s.newTab, id) == {};
    forall k | 0 <= k < NEW_SLOTS ensures s.newTab[k] != id {
      assert k !in Slots(s.newTab, id);
    }
  }

  lemma PromoteCounts(s: State, i: nat, id: int, U: set<int>)
    requires Shape(s) && CountOk(s, U) && i < TRIED_SLOTS && id in s.infos && !s.infos[id].inTried && id in U
    ensures CountOk(Promote(s, i, id), U - {id})
  {
    var t := Promote(s, i, id);
    IdsUpdate(s.infos, id, t.infos[id]);
    assert id in NewIds(s.infos) && id !in TriedIds(s.infos);
    hide NewIds, TriedIds;
    assert (NewIds(s.infos) - {id}) - (U - {id}) == NewIds(s.infos) - U;
  }

  lemma PromoteOk(s: State, i: nat, id: int, F: set<int>, U: set<int>)
    requires Shape(s) && Ok(s, F, U) && id in F && id in U
    requires i == TriedSlot(s.env, s.key, s.infos[id].service) && s.triedTab[i] == EMPTY
    ensures Ok(Promote(s, i, id), F - {id}, U - {id})
  {
    var t := Promote(s, i, id);
    IdentityFrame(s, t);
    hide RandomOk, AddrOk, NewOk, TriedOk, CountOk, Promote;
    PromoteTables(s, i, id, F);
    PromoteCounts(s, i, id, U);
  }

  // ---------------------------------------------------------------- compound steps

  /** Entries of t are entries of s, differing at most in how the tables refer to them. */
  ghost predicate Keeps(s: State, t: State) {
    && t.env == s.env && t.key == s.key && t.idCount == s.idCount && t.collisions == s.collisions && t.lastGood == s.lastGood
    && forall x :: x in t.infos ==> x in s.infos && OnlyLinksDiffer(t.infos[x], s.infos[x])
  }

  ghost predicate OnlyLinksDiffer(i: Info, j: Info) {
    i == j.(refCount := i.refCount, inTried := i.inTried, randomPos := i.randomPos)
  }

  lemma ClearNewOk(s: State, i: nat, F: set<int>, U: set<int>)
    requires Shape(s) && Ok(s, F, U) && U <= F && i < NEW_SLOTS
    ensures Ok(ClearNew(s, i), F, U)
  {
    hide Ok, DropSlot, Delete;
    if s.newTab[i] != EMPTY {
      var d := s.newTab[i];
      var t := DropSlot(s, i);
      DropSlotOk(s, i, F, U);
      if t.infos[d].refCount == 0 {
        DeleteOk(t, d, F + {d}, U);
        assert F + {d} - {d} == F;
      }
    }
  }

  lemma FloatingKnown(s: State, F: set<int>, U: set<int>)
    requires Shape(s) && Ok(s, F, U)
    ensures forall x :: x in F ==> x in s.infos && !s.infos[x].inTried && s.infos[x].refCount == 0
    ensures EMPTY !in s.infos
  {
    hide NewOk, TriedOk, CountOk, RandomOk, AddrOk;
  }

  lemma DeleteDetails(s: State, id: int, F: set<int>, U: set<int>)
    requires Shape(s) && Ok(s, F, U) && id in F
    ensures var t := Delete(s, id);
            Keeps(s, t) && t.triedTab == s.triedTab && t.nTried == s.nTried && t.newTab == s.newTab
  {
    hide Delete, RandomOk, AddrOk, IdsOk, NewOk, TriedOk, RefOk, CountOk;
    FloatingKnown(s, F, U);
    DeleteKeeps(s, id);
  }

  lemma DropSlotDetails(s: State, i: nat)
    requires Shape(s) && i < NEW_SLOTS && s.newTab[i] in s.infos
    ensures var t := DropSlot(s, i);
            Keeps(s, t) && t.triedTab == s.triedTab && t.nTried == s.nTried && t.newTab == s.newTab[i := EMPTY]
  {
  }

  lemma KeepsTrans(s: State, t: State, u: State)
    requires Keeps(s, t) && Keeps(t, u)
    ensures Keeps(s, u)
  {
  }

  lemma ClearNewKeeps(s: State, i: nat, F: set<int>, U: set<int>)
    requires Shape(s) && Ok(s, F, U) && U <= F && i < NEW_SLOTS
    ensures var t := ClearNew(s, i);
            && Keeps(s, t) && t.triedTab == s.triedTab && t.nTried == s.nTried && t.newTab == s.newTab[i := EMPTY]
            && forall x :: x in F ==> x in t.infos
  {
    hide Ok, Delete, DropSlot;
    ClearNewOk(s, i, F, U);
    FloatingKnown(ClearNew(s, i), F, U);
    if s.newTab[i] != EMPTY {
      var d := s.newTab[i];
      var t := DropSlot(s, i);
      DropSlotOk(s, i, F, U);
      DropSlotDetails(s, i);
      if t.infos[d].refCount == 0 {
        DeleteDetails(t, d, F + {d}, U);
        KeepsTrans(s, t, Delete(t, d));
        hide Keeps;
      }
    }
  }
}
