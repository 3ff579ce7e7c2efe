/**
 Reading any stream into an empty manager: another version, another bucket count, references or
 entries that are missing or collide. The tables and counters always come out right as long as the
 header's counters are not negative; what can go wrong is the host index. The result is sound exactly
 if no entry that survives pruning shares its host with another entry that was read.
 */
module AddrManLoad {
  import opened AddrManModel
  import opened AddrManInvariant
  import opened AddrManOperations
  import opened AddrManDisk

  // ---------------------------------------------------------------- the invariant without the host index

  ghost predicate Ordered(s: State) { RandomOk(s) && IdsOk(s) }

  /** Ok, but for the host index. */
  ghost predicate Placed(s: State, F: set<int>, U: set<int>)
    requires Shape(s)
  {
    Ordered(s) && NewOk(s) && TriedOk(s) && RefOk(s, F) && CountOk(s, U)
  }

  lemma PlacedIsOk(s: State, F: set<int>, U: set<int>)
    requires Shape(s)
    ensures Ok(s, F, U) <==> Placed(s, F, U) && AddrOk(s)
  {
  }

  lemma OrderedFrame(s: State, t: State)
    requires Ordered(s) && t.infos.Keys == s.infos.Keys && t.random == s.random && t.idCount == s.idCount && t.collisions == s.collisions
    requires forall id :: id in s.infos ==> t.infos[id].randomPos == s.infos[id].randomPos
    ensures Ordered(t)
  {
    SameKeys(s.infos, t.infos);
    forall i | 0 <= i < |t.random| ensures t.random[i] in t.infos && t.infos[t.random[i]].randomPos == i {
      var x := s.random[i];
      assert x in s.infos && s.infos[x].randomPos == i;
    }
  }

  lemma SameKeys(m: map<int, Info>, n: map<int, Info>)
    requires m.Keys == n.Keys
    ensures forall id :: id in m <==> id in n
  {
    forall id ensures id in m <==> id in n { assert id in m <==> id in m.Keys; }
  }

  lemma CreateOrder(s: State, a: Address, source: NetAddr)
    requires Ordered(s)
    ensures Ordered(Create(s, a, source))
  {
  }

  lemma CreatePlaced(s: State, a: Address, source: NetAddr, F: set<int>, U: set<int>)
    requires Shape(s) && Placed(s, F, U)
    ensures Placed(Create(s, a, source), F + {s.idCount}, U + {s.idCount})
  {
    hide RandomOk, NewOk, TriedOk, RefOk, CountOk;
    CreateOrder(s, a, source);
    CreateTables(s, a, source, F);
    CreateCounts(s, a, source, U);
  }

  lemma TouchPlaced(s: State, id: int, i: Info, F: set<int>, U: set<int>)
    requires Shape(s) && Placed(s, F, U) && id in s.infos && SameLinks(i, s.infos[id])
    ensures Placed(SetInfo(s, id, i), F, U)
  {
    var t := SetInfo(s, id, i);
    OrderedFrame(s, t);
    TriedFrame(s, t);
    CountFrame(s, t, U);
    NewFrame(s, t);
    RefsStay(s, t, F);
    hide Ordered, TriedOk, CountOk, NewOk, RefOk;
  }

  lemma RefsStay(s: State, t: State, F: set<int>)
    requires RefOk(s, F) && t.newTab == s.newTab && t.infos.Keys == s.infos.Keys
    requires forall x :: x in s.infos ==> t.infos[x].refCount == s.infos[x].refCount && t.infos[x].inTried == s.infos[x].inTried
    ensures RefOk(t, F)
  {
    SameKeys(s.infos, t.infos);
  }

  lemma NewFrame(s: State, t: State)
    requires Shape(s) && Shape(t) && NewOk(s) && SameEntries(s, t) && t.newTab == s.newTab
    ensures NewOk(t)
  {
    SameKeys(s.infos, t.infos);
  }

  lemma CountUpPlaced(s: State, x: int, F: set<int>, U: set<int>)
    requires Shape(s) && Placed(s, F, U) && x in U
    ensures Placed(s.(nNew := s.nNew + 1), F, U - {x})
  {
    var t := s.(nNew := s.nNew + 1);
    hide NewIds, TriedIds, RefOk, TriedOk;
    assert NewIds(s.infos) - (U - {x}) == (NewIds(s.infos) - U) + {x};
    OrderedFrame(s, t);
    TriedFrame(s, t);
    RefFrame(s, t, F);
    hide Ordered;
  }

  lemma PlacePlaced(s: State, i: nat, id: int, F: set<int>, U: set<int>)
    requires Shape(s) && Placed(s, F, U) && i < NEW_SLOTS && s.newTab[i] == EMPTY
    requires id in s.infos && !s.infos[id].inTried && s.infos[id].refCount < NEW_BUCKETS_PER_ADDRESS
    requires NewSlot(s.env, s.key, i / BUCKET_SIZE, s.infos[id].service) == i
    ensures Placed(PlaceNew(s, i, id), F - {id}, U)
  {
    var t := PlaceNew(s, i, id);
    OrderedFrame(s, t);
    TriedFrame(s, t);
    CountFrame(s, t, U);
    PlaceNewRefs(s, i, id, F);
    NewPlaced(s, i, id);
    hide Ordered, TriedOk, RefOk, CountOk, PlaceNew, NewOk;
  }

  lemma NewPlaced(s: State, i: nat, id: int)
    requires Shape(s) && NewOk(s) && i < NEW_SLOTS && id in s.infos && !s.infos[id].inTried
    requires NewSlot(s.env, s.key, i / BUCKET_SIZE, s.infos[id].service) == i
    ensures NewOk(PlaceNew(s, i, id))
  {
    hide NewSlot;
  }

  lemma PromotePlaced(s: State, i: nat, id: int, F: set<int>, U: set<int>)
    requires Shape(s) && Placed(s, F, U) && id in F && id in U
    requires i == TriedSlot(s.env, s.key, s.infos[id].service) && s.triedTab[i] == EMPTY
    ensures Placed(Promote(s, i, id), F - {id}, U - {id})
  {
    var t := Promote(s, i, id);
    OrderedFrame(s, t);
    hide RandomOk, NewOk, TriedOk, CountOk, Promote;
    PromoteTables(s, i, id, F);
    PromoteCounts(s, i, id, U);
  }

  lemma DeleteOrder(s: State, id: int)
    requires Ordered(s) && id in s.infos
    ensures Ordered(Delete(s, id)) && Delete(s, id).infos.Keys == s.infos.Keys - {id}
    ensures Delete(s, id).addrs == s.addrs - {s.infos[id].service.host}
  {
    var last := |s.random| - 1;
    var w := SwapRandom(s, s.infos[id].randomPos, last);
    SwapRandomKeeps(s, s.infos[id].randomPos, last);
    SwapRandomPositions(s, s.infos[id].randomPos, last);
    MovedToBack(s, id);
    hide SwapRandom, RandomOk;
    SameKeys(s.infos, w.infos);
    DropLast(w, id);
    assert Delete(s, id).infos == w.infos - {id};
  }

  lemma MovedToBack(s: State, id: int)
    requires RandomOk(s) && id in s.infos
    ensures var w := SwapRandom(s, s.infos[id].randomPos, |s.random| - 1);
            |s.random| > 0 && |w.random| == |s.random| && w.random[|s.random| - 1] == id
  {
  }

  lemma DropLast(w: State, id: int)
    requires RandomOk(w) && id in w.infos && w.random[|w.random| - 1] == id
    ensures RandomOk(w.(random := w.random[..|w.random| - 1], addrs := w.addrs - {w.infos[id].service.host},
                        infos := w.infos - {id}, nNew := w.nNew - 1))
  {
  }

  lemma DeletePlaced(s: State, id: int, F: set<int>, U: set<int>)
    requires Shape(s) && Placed(s, F, U) && id in F && id !in U
    ensures Placed(Delete(s, id), F - {id}, U)
  {
    DeleteOrder(s, id);
    DeleteKeeps(s, id);
    DeleteCounts(s, id, U);
    assert id != EMPTY && !s.infos[id].inTried;
    hide Delete, Ordered, NewOk, TriedOk, RefOk, CountOk;
    ForgetTables(s, Delete(s, id), id, F);
  }

  // ---------------------------------------------------------------- the host index

  /** Every known host leads to some entry of that host. */
  ghost predicate HostsLead(s: State) {
    && (forall id :: id in s.infos ==> s.infos[id].service.host in s.addrs)
    && (forall h :: h in s.addrs ==> s.addrs[h] in s.infos && s.infos[s.addrs[h]].service.host == h)
  }

  /** Some table refers to the entry, so pruning leaves it. */
  predicate Survives(i: Info) { i.inTried || i.refCount != 0 }

  /** No surviving entry shares its host. */
  ghost predicate SurvivorsAlone(s: State) {
    forall x, y :: x in s.infos && y in s.infos && x != y && s.infos[x].service.host == s.infos[y].service.host ==>
      !Survives(s.infos[x])
  }

  // ---------------------------------------------------------------- one entry

  /** Everything right but for entries that no table refers to yet and hosts that occur twice. */
  ghost predicate Sound(s: State) {
    Shape(s) && s.collisions == {} && HostsLead(s) && exists F: set<int> :: Placed(s, F, {})
  }

  /** The first n ids are untried entries. */
  ghost predicate FirstAreNew(s: State, n: int) {
    forall x :: 0 <= x < n ==> x in s.infos && !s.infos[x].inTried
  }

  function AddressOf(r: Record): Address { Address(r.service, r.services, r.time) }

  /** A created entry, not yet counted, with the statistics of its record. */
  function Added(s: State, r: Record): State {
    SetInfo(Create(s, AddressOf(r), r.source), s.idCount, FromRecord(r).(randomPos := |s.random|))
  }

  lemma AddedPlaced(s: State, r: Record, F: set<int>)
    requires Shape(s) && Placed(s, F, {})
    ensures Shape(Added(s, r)) && Placed(Added(s, r), F + {s.idCount}, {s.idCount})
  {
    var c := Create(s, AddressOf(r), r.source);
    CreatePlaced(s, AddressOf(r), r.source, F, {});
    assert {} + {s.idCount} == {s.idCount};
    CreatedEntry(s, r);
    hide Placed, Create;
    TouchPlaced(c, s.idCount, FromRecord(r).(randomPos := |s.random|), F + {s.idCount}, {s.idCount});
  }

  lemma CreatedEntry(s: State, r: Record)
    ensures var c := Create(s, AddressOf(r), r.source);
            s.idCount in c.infos && SameLinks(FromRecord(r).(randomPos := |s.random|), c.infos[s.idCount])
  {
  }

  lemma AddedEntry(s: State, r: Record)
    ensures var w := Added(s, r);
            && s.idCount in w.infos && w.infos[s.idCount] == FromRecord(r).(randomPos := |s.random|)
            && w.triedTab == s.triedTab && w.env == s.env && w.key == s.key
            && w.collisions == s.collisions && w.nNew == s.nNew
  {
  }

  lemma AddedHosts(s: State, r: Record)
    requires HostsLead(s) && s.idCount !in s.infos
    ensures HostsLead(Added(s, r))
  {
  }

  lemma FreshId(s: State, F: set<int>, U: set<int>)
    requires Shape(s) && Placed(s, F, U)
    ensures s.idCount !in s.infos
  {
    hide RandomOk, NewOk, TriedOk, RefOk, CountOk;
  }

  // ---------------------------------------------------------------- the new entries

  /** The counters after n new entries. */
  function Counted(s: State, n: nat): State { s.(nNew := n, nTried := 0, idCount := n) }

  /** After n new entries: the counters of the header aside, the structure is sound. */
  ghost predicate NewPhase(s: State, n: nat) {
    Sound(Counted(s, n)) && FirstAreNew(s, n)
  }

  lemma UsableIs(s: State, n: nat, r: Record)
    ensures Counted(LoadNew(s, n, r, true), n + 1) == Added(Counted(s, n), r).(nNew := n + 1)
  {
    var t := Counted(s, n);
    var c := Create(t, AddressOf(r), r.source);
    assert c.infos[n := FromRecord(r).(randomPos := |s.random|)] == s.infos[n := FromRecord(r).(randomPos := |s.random|)];
  }

  lemma OneMoreNew(s: State, n: nat, r: Record, usable: bool)
    requires FirstAreNew(s, n)
    ensures FirstAreNew(LoadNew(s, n, r, usable), n + 1)
  {
    hide NewSlot, NewBucket;
  }

  lemma LoadUsable(s: State, n: nat, r: Record)
    requires NewPhase(s, n)
    ensures NewPhase(LoadNew(s, n, r, true), n + 1)
  {
    hide Placed, Added, LoadNew, FirstAreNew, HostsLead;
    var v := Counted(s, n);
    var F: set<int> :| Placed(v, F, {});
    FreshId(v, F, {});
    AddedPlaced(v, r, F);
    AddedEntry(v, r);
    AddedHosts(v, r);
    var w := Added(v, r);
    CountUpPlaced(w, n, F + {n}, {n});
    assert {n} - {n} == {};
    SameHosts(w, w.(nNew := n + 1));
    UsableIs(s, n, r);
    OneMoreNew(s, n, r, true);
    assert Placed(Counted(LoadNew(s, n, r, true), n + 1), F + {n}, {});
  }

  lemma SameHosts(s: State, t: State)
    requires HostsLead(s) && t.addrs == s.addrs && t.infos.Keys == s.infos.Keys
    requires forall id :: id in s.infos ==> t.infos[id].service == s.infos[id].service
    ensures HostsLead(t)
  {
    SameKeys(s.infos, t.infos);
    forall h | h in t.addrs ensures t.addrs[h] in t.infos && t.infos[t.addrs[h]].service.host == h {
      var x := s.addrs[h];
      assert x in s.infos && s.infos[x].service.host == h;
      assert t.infos[x].service == s.infos[x].service;
    }
  }

  /** Without usable bucket data the entry also gets its primary slot, if that is free. */
  lemma LoadUnusable(s: State, n: nat, r: Record)
    requires Shape(s) && NewPhase(LoadNew(s, n, r, true), n + 1) && FirstAreNew(s, n)
    ensures NewPhase(LoadNew(s, n, r, false), n + 1)
  {
    var t := LoadNew(s, n, r, true);
    var v := Counted(t, n + 1);
    LoadedEntry(s, n, r);
    UnusableIs(s, n, r);
    OneMoreNew(s, n, r, false);
    hide Placed, NewBucket, NewSlot, LoadNew, FirstAreNew, PlaceNew, HostsLead;
    var F: set<int> :| Placed(v, F, {});
    var i := PrimarySlot(s, r);
    if t.newTab[i] == EMPTY {
      PlacePlaced(v, i, n, F, {});
      PlaceFrame(v, i, n);
      SameHosts(v, PlaceNew(v, i, n));
      assert Placed(Counted(LoadNew(s, n, r, false), n + 1), F - {n}, {});
    }
  }

  function PrimarySlot(s: State, r: Record): (i: nat)
    ensures i < NEW_SLOTS && NewSlot(s.env, s.key, i / BUCKET_SIZE, r.service) == i
  {
    NewSlot(s.env, s.key, NewBucket(s.env, s.key, r.service.host, r.source), r.service)
  }

  lemma UnusableIs(s: State, n: nat, r: Record)
    requires Shape(s)
    ensures var t := LoadNew(s, n, r, true); var i := PrimarySlot(s, r);
            && (t.newTab[i] == EMPTY ==> Counted(LoadNew(s, n, r, false), n + 1) == PlaceNew(Counted(t, n + 1), i, n))
            && (t.newTab[i] != EMPTY ==> LoadNew(s, n, r, false) == t)
  {
    hide NewSlot, NewBucket;
  }

  lemma PlaceFrame(s: State, i: nat, id: int)
    requires Shape(s) && i < NEW_SLOTS && id in s.infos
    ensures var t := PlaceNew(s, i, id);
            && t.collisions == s.collisions && t.addrs == s.addrs && t.infos.Keys == s.infos.Keys
            && t.nNew == s.nNew && t.idCount == s.idCount && t.env == s.env && t.key == s.key
            && (forall x :: x in s.infos ==> SamePlace(s.infos[x], t.infos[x]) && s.infos[x].refCount <= t.infos[x].refCount)
            && (forall x :: x in s.infos && x != id ==> t.infos[x] == s.infos[x])
            && t.infos[id].refCount == s.infos[id].refCount + 1
  {
  }

  /** The same address in the same kind of table. */
  ghost predicate SamePlace(i: Info, j: Info) { i.service == j.service && i.inTried == j.inTried }

  lemma LoadedEntry(s: State, n: nat, r: Record)
    requires Shape(s)
    ensures var t := LoadNew(s, n, r, true);
            t.newTab == s.newTab && t.env == s.env && t.key == s.key
            && n in t.infos && t.infos[n].service == r.service && t.infos[n].refCount == 0 && !t.infos[n].inTried
  {
  }

  lemma LoadNewPhase(s: State, n: nat, r: Record, usable: bool)
    requires NewPhase(s, n)
    ensures Shape(s) && NewPhase(LoadNew(s, n, r, usable), n + 1)
  {
    hide LoadNew;
    LoadUsable(s, n, r);
    if !usable { LoadUnusable(s, n, r); }
  }

  // ---------------------------------------------------------------- the tried entries

  /** The tried entries counted so far. */
  function Remaining(s: State, left: int): State { s.(nTried := s.nTried - left) }

  /** With left more tried entries to come. */
  ghost predicate TriedPhase(s: State, left: int) {
    Sound(Remaining(s, left)) && FirstAreNew(s, s.nNew) && s.nNew <= s.idCount
  }

  lemma LoadTriedPhase(s: State, left: int, r: Record)
    requires TriedPhase(s, left)
    ensures Shape(s) && TriedPhase(LoadTried(s, r), left - 1)
  {
    hide Placed, Added, FirstAreNew, LoadTried, Promote, TriedSlot, HostsLead;
    var v := Remaining(s, left);
    var F: set<int> :| Placed(v, F, {});
    var i := TriedSlot(s.env, s.key, r.service);
    TriedIs(s, left, r);
    OneMoreTried(s, r);
    if s.triedTab[i] == EMPTY {
      FreshId(v, F, {});
      AddedPlaced(v, r, F);
      AddedEntry(v, r);
      AddedHosts(v, r);
      var w := Added(v, r);
      PromotePlaced(w, i, s.idCount, F + {s.idCount}, {s.idCount});
      PromoteFrame(w, i, s.idCount);
      SameHosts(w, Promote(w, i, s.idCount));
      assert {s.idCount} - {s.idCount} == {};
      assert Placed(Remaining(LoadTried(s, r), left - 1), F + {s.idCount} - {s.idCount}, {});
    }
  }

  lemma TriedIs(s: State, left: int, r: Record)
    requires Shape(s)
    ensures var i := TriedSlot(s.env, s.key, r.service);
            && (s.triedTab[i] != EMPTY ==> Remaining(LoadTried(s, r), left - 1) == Remaining(s, left))
            && (s.triedTab[i] == EMPTY ==>
                  Remaining(LoadTried(s, r), left - 1) == Promote(Added(Remaining(s, left), r), i, s.idCount))
  {
    hide TriedSlot;
    var v := Remaining(s, left);
    var info := FromRecord(r).(randomPos := |s.random|);
    assert Added(v, r).infos == s.infos[s.idCount := info];
    assert s.infos[s.idCount := info][s.idCount := info.(inTried := true)] == s.infos[s.idCount := info.(inTried := true)];
  }

  lemma OneMoreTried(s: State, r: Record)
    requires Shape(s) && FirstAreNew(s, s.nNew) && s.nNew <= s.idCount
    ensures var t := LoadTried(s, r); t.nNew == s.nNew && t.idCount >= s.idCount && FirstAreNew(t, t.nNew)
  {
    hide TriedSlot;
  }

  lemma PromoteFrame(s: State, i: nat, id: int)
    requires Shape(s) && i < TRIED_SLOTS && id in s.infos
    ensures var t := Promote(s, i, id);
            && t.collisions == s.collisions && t.addrs == s.addrs && t.infos.Keys == s.infos.Keys
            && forall x :: x in s.infos ==> t.infos[x].service == s.infos[x].service
  {
  }

  // ---------------------------------------------------------------- the references

  ghost predicate Referable(s: State) { Sound(s) && FirstAreNew(s, s.nNew) }

  lemma LoadIndexPhase(s: State, b: nat, index: int, usable: bool)
    requires Referable(s) && (usable ==> b < NEW_BUCKET_COUNT)
    ensures Shape(s) && Referable(LoadIndex(s, b, index, usable))
  {
    hide Placed, NewSlot, HostsLead, PlaceNew;
    if 0 <= index < s.nNew && usable {
      var i := NewSlot(s.env, s.key, b, InfoOf(s, index).service);
      var F: set<int> :| Placed(s, F, {});
      if s.newTab[i] == EMPTY && s.infos[index].refCount < NEW_BUCKETS_PER_ADDRESS {
        PlacePlaced(s, i, index, F, {});
        PlaceFrame(s, i, index);
        SameHosts(s, PlaceNew(s, i, index));
        FirstStay(s, PlaceNew(s, i, index));
      }
    }
  }

  lemma FirstStay(s: State, t: State)
    requires FirstAreNew(s, s.nNew) && t.nNew == s.nNew && t.infos.Keys == s.infos.Keys
    requires forall x :: x in s.infos ==> SamePlace(s.infos[x], t.infos[x])
    ensures FirstAreNew(t, t.nNew)
  {
    forall x | 0 <= x < t.nNew ensures x in t.infos && !t.infos[x].inTried {
      assert x in s.infos.Keys;
    }
  }

  // ---------------------------------------------------------------- from phase to phase

  lemma StartPhase(env: Oracle, key: Key, n: int, m: int)
    ensures NewPhase(Empty(env, key).(nNew := n, nTried := m), 0)
  {
    var s := Empty(env, key);
    EmptyPlaced(env, key);
    assert Counted(s.(nNew := n, nTried := m), 0) == s;
  }

  lemma EmptyPlaced(env: Oracle, key: Key)
    ensures Placed(Empty(env, key), {}, {})
  {
    var s := Empty(env, key);
    assert NewIds(s.infos) == {} && TriedIds(s.infos) == {};
    assert NewIds(s.infos) - {} == {};
  }

  lemma EndOfNew(t: State, n: nat)
    requires NewPhase(t, n) && t.nNew == n
    ensures TriedPhase(t.(idCount := n), t.nTried) && Shape(t)
  {
    hide Placed, HostsLead;
    var u := t.(idCount := n);
    assert Remaining(u, t.nTried) == Counted(t, n);
  }

  lemma EndOfTried(u: State)
    requires TriedPhase(u, 0)
    ensures Referable(u)
  {
    assert Remaining(u, 0) == u;
  }

  // ---------------------------------------------------------------- pruning

  /** What pruning does with one id. */
  function Pruned(s: State, id: int): State {
    if id in s.infos && !s.infos[id].inTried && s.infos[id].refCount == 0 then Delete(s, id) else s
  }

  /** Below id only survivors are left. */
  ghost predicate SurvivorsBelow(s: State, id: int) {
    forall x :: x in s.infos && x < id ==> Survives(s.infos[x])
  }

  /** The part of soundness that pruning keeps in any case. */
  ghost predicate Prunable(s: State) {
    Shape(s) && s.collisions == {} && exists F: set<int> :: Placed(s, F, {})
  }

  lemma PruneOne(s: State, id: int)
    requires Prunable(s) && SurvivorsBelow(s, id)
    ensures var t := Pruned(s, id);
            && Prunable(t) && SurvivorsBelow(t, id + 1) && t.idCount == s.idCount
            && t.infos.Keys <= s.infos.Keys && (forall x :: x in t.infos ==> SameSeat(t.infos[x], s.infos[x]))
            && (forall x :: x in s.infos && x !in t.infos ==> x == id)
            && t.addrs == (if id in s.infos && !Survives(s.infos[id]) then s.addrs - {s.infos[id].service.host} else s.addrs)
            && (id in t.infos ==> Survives(t.infos[id]))
  {
    var F: set<int> :| Placed(s, F, {});
    if id in s.infos && !s.infos[id].inTried && s.infos[id].refCount == 0 {
      FloatsUnreferred(s, id, F);
      hide Placed, Delete, SurvivorsBelow;
      DeletePlaced(s, id, F, {});
      PlacedOrder(s, F);
      DeleteOrder(s, id);
      DeleteKeeps(s, id);
      var t := Delete(s, id);
      KeysGone(s, t, id);
      assert Placed(t, F - {id}, {});
    } else {
      hide Placed;
    }
  }

  lemma FloatsUnreferred(s: State, id: int, F: set<int>)
    requires Shape(s) && Placed(s, F, {}) && id in s.infos && !Survives(s.infos[id])
    ensures id in F
  {
    hide Ordered, NewOk, TriedOk, CountOk;
  }

  lemma PlacedOrder(s: State, F: set<int>)
    requires Shape(s) && Placed(s, F, {})
    ensures Ordered(s) && RandomOk(s)
  {
  }

  lemma KeysGone(s: State, t: State, id: int)
    requires SurvivorsBelow(s, id) && t.infos.Keys == s.infos.Keys - {id}
    requires forall x :: x in t.infos ==> x in s.infos && SameSeat(t.infos[x], s.infos[x])
    ensures SurvivorsBelow(t, id + 1) && id !in t.infos
    ensures t.infos.Keys <= s.infos.Keys && forall x :: x in s.infos && x !in t.infos ==> x == id
  {
    assert forall x :: x in t.infos <==> x in t.infos.Keys;
    assert forall x :: x in s.infos <==> x in s.infos.Keys;
  }

  /** Surviving entries stay as they are, and a pruned entry takes its host out of the index. */
  lemma {:induction false} PruneEffect(s: State, id: int)
    requires Prunable(s) && SurvivorsBelow(s, id)
    ensures Shape(s)
    ensures var t := Prune(s, id, s.idCount);
            && Prunable(t) && t.idCount == s.idCount && SurvivorsBelow(t, t.idCount)
            && (forall x :: x in t.infos ==> x in s.infos && SameSeat(t.infos[x], s.infos[x]))
            && (forall x :: x in s.infos && Survives(s.infos[x]) ==> x in t.infos)
            && (forall h :: h in t.addrs ==> h in s.addrs && t.addrs[h] == s.addrs[h])
            && (forall x :: x in s.infos && id <= x < s.idCount && !Survives(s.infos[x]) ==> s.infos[x].service.host !in t.addrs)
            && (forall h :: h in s.addrs && h !in t.addrs ==> LosesHost(s, h))
    decreases s.idCount - id
  {
    hide Prunable, Delete;
    PrunableShape(s);
    if id >= s.idCount {
      AllBelow(s, id);
    } else {
      PruneOne(s, id);
      var u := Pruned(s, id);
      hide Survives, SameSeat;
      PruneEffect(u, id + 1);
      PruneCompose(s, u, Prune(u, id + 1, u.idCount), id);
    }
  }

  /** Some entry of this host is pruned. */
  ghost predicate LosesHost(s: State, h: NetAddr) {
    exists x :: x in s.infos && !Survives(s.infos[x]) && s.infos[x].service.host == h
  }

  lemma PruneCompose(s: State, u: State, t: State, id: int)
    requires u.infos.Keys <= s.infos.Keys && (forall x :: x in u.infos ==> SameSeat(u.infos[x], s.infos[x]))
    requires forall x :: x in s.infos && x !in u.infos ==> x == id
    requires u.addrs == (if id in s.infos && !Survives(s.infos[id]) then s.addrs - {s.infos[id].service.host} else s.addrs)
    requires id in u.infos ==> Survives(u.infos[id])
    requires forall x :: x in t.infos ==> x in u.infos && SameSeat(t.infos[x], u.infos[x])
    requires forall x :: x in u.infos && Survives(u.infos[x]) ==> x in t.infos
    requires forall h :: h in t.addrs ==> h in u.addrs && t.addrs[h] == u.addrs[h]
    requires forall x :: x in u.infos && id + 1 <= x < s.idCount && !Survives(u.infos[x]) ==> u.infos[x].service.host !in t.addrs
    requires forall h :: h in u.addrs && h !in t.addrs ==> LosesHost(u, h)
    requires id in s.infos && Survives(s.infos[id]) ==> id in u.infos
    ensures forall x :: x in t.infos ==> x in s.infos && SameSeat(t.infos[x], s.infos[x])
    ensures forall x :: x in s.infos && Survives(s.infos[x]) ==> x in t.infos
    ensures forall h :: h in t.addrs ==> h in s.addrs && t.addrs[h] == s.addrs[h]
    ensures forall x :: x in s.infos && id <= x < s.idCount && !Survives(s.infos[x]) ==> s.infos[x].service.host !in t.addrs
    ensures forall h :: h in s.addrs && h !in t.addrs ==> LosesHost(s, h)
  {
    assert forall x :: x in u.infos ==> x in u.infos.Keys && x in s.infos.Keys;
    forall h | h in s.addrs && h !in t.addrs ensures LosesHost(s, h) {
      if h in u.addrs {
        var x :| x in u.infos && !Survives(u.infos[x]) && u.infos[x].service.host == h;
        assert x in s.infos;
      }
    }
  }

  lemma PrunableShape(s: State)
    requires Prunable(s)
    ensures Shape(s)
  {
  }

  lemma AllBelow(s: State, id: int)
    requires Prunable(s) && SurvivorsBelow(s, id) && s.idCount <= id
    ensures SurvivorsBelow(s, s.idCount) && forall x :: x in s.infos ==> Survives(s.infos[x])
  {
    var F: set<int> :| Placed(s, F, {});
  }

  /** When only survivors are left, nothing but the host index can be missing. */
  lemma SurvivorsOk(t: State)
    requires Prunable(t) && SurvivorsBelow(t, t.idCount)
    ensures Shape(t) && (Inv(t) <==> AddrOk(t))
  {
    var F: set<int> :| Placed(t, F, {});
    PlacedIsOk(t, {}, {});
    hide NewOk, TriedOk, CountOk, RandomOk, AddrOk;
    var none: set<int> := {};
    forall x ensures x !in F { if x in F { assert false; } }
    assert F == none;
  }

  /** Pruning leaves a sound manager exactly if no survivor shares its host. */
  lemma PruneIff(s: State)
    requires Sound(s)
    ensures Shape(s) && (Inv(Prune(s, 0, s.idCount)) <==> SurvivorsAlone(s))
  {
    SoundParts(s);
    PruneEffect(s, 0);
    var t := Prune(s, 0, s.idCount);
    SurvivorsOk(t);
    hide Inv, Sound, Prunable, Prune;
    if SurvivorsAlone(s) { AloneOk(s, t); }
    if AddrOk(t) { SharedNotOk(s, t); }
  }

  lemma SoundParts(s: State)
    requires Sound(s)
    ensures Prunable(s) && SurvivorsBelow(s, 0) && HostsLead(s) && forall x :: x in s.infos ==> 0 <= x < s.idCount
  {
    var F: set<int> :| Placed(s, F, {});
    hide NewOk, TriedOk, CountOk, RandomOk, RefOk;
  }

  lemma AloneOk(s: State, t: State)
    requires HostsLead(s) && SurvivorsAlone(s) && SurvivorsBelow(t, t.idCount) && t.idCount == s.idCount
    requires forall x :: x in s.infos ==> 0 <= x < s.idCount
    requires forall x :: x in t.infos ==> x in s.infos && SameSeat(t.infos[x], s.infos[x])
    requires forall x :: x in s.infos && Survives(s.infos[x]) ==> x in t.infos
    requires forall h :: h in t.addrs ==> h in s.addrs && t.addrs[h] == s.addrs[h]
    requires forall x :: x in s.infos && !Survives(s.infos[x]) ==> s.infos[x].service.host !in t.addrs
    requires forall h :: h in s.addrs && h !in t.addrs ==> LosesHost(s, h)
    ensures AddrOk(t)
  {
    forall id | id in t.infos ensures t.infos[id].service.host in t.addrs && t.addrs[t.infos[id].service.host] == id {
      var h := t.infos[id].service.host;
      assert Survives(s.infos[id]) && s.infos[id].service.host == h;
      NoLoss(s, id);
      assert s.addrs[h] in s.infos && s.infos[s.addrs[h]].service.host == h;
    }
    forall h | h in t.addrs ensures t.addrs[h] in t.infos && t.infos[t.addrs[h]].service.host == h {
      var x := s.addrs[h];
      assert x in s.infos && s.infos[x].service.host == h;
    }
  }

  lemma NoLoss(s: State, id: int)
    requires SurvivorsAlone(s) && id in s.infos && Survives(s.infos[id])
    ensures !LosesHost(s, s.infos[id].service.host)
  {
  }

  lemma Indexed(t: State, x: int)
    requires AddrOk(t) && x in t.infos
    ensures t.infos[x].service.host in t.addrs && t.addrs[t.infos[x].service.host] == x
  {
  }

  lemma SharedNotOk(s: State, t: State)
    requires AddrOk(t) && forall x :: x in s.infos ==> 0 <= x < s.idCount
    requires forall x :: x in t.infos ==> x in s.infos && SameSeat(t.infos[x], s.infos[x])
    requires forall x :: x in s.infos && Survives(s.infos[x]) ==> x in t.infos
    requires forall x :: x in s.infos && !Survives(s.infos[x]) ==> s.infos[x].service.host !in t.addrs
    ensures SurvivorsAlone(s)
  {
    hide AddrOk;
    forall x, y | x in s.infos && y in s.infos && x != y && s.infos[x].service.host == s.infos[y].service.host
      ensures !Survives(s.infos[x])
    {
      if Survives(s.infos[x]) {
        Indexed(t, x);
        if Survives(s.infos[y]) { Indexed(t, y); }
      }
    }
  }
}
