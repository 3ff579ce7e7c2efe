/**
 CAddrMan itself: fields updated in place, loops and assertions as in the source. Each method is
 proved to make the step of AddrManModel, and the source's assertions to hold.
 */
module AddrManager {
  import opened Basics
  import opened AddrManModel
  import opened AddrManInvariant
  import opened AddrManOperations
  import opened AddrManRuns
  import opened AddrManCheck
  import opened AddrManDisk
  import AddrManHarmless
  import opened AddrManSelect

  /** The k-th bucket a search starting at `start` looks into. */
  function BucketAt(k: nat, start: nat): (b: nat)
    ensures b < NEW_BUCKET_COUNT
  {
    (k + start) % NEW_BUCKET_COUNT
  }

  /** The cyclic search looks into every bucket. */
  lemma EveryBucketTried(b: nat, start: nat)
    requires b < NEW_BUCKET_COUNT
    ensures exists k: nat :: k < NEW_BUCKET_COUNT && BucketAt(k, start) == b
  {
    var k: nat := (b - start) % NEW_BUCKET_COUNT;
    assert BucketAt(k, start) == b;
  }

  class Manager {
    const env: Oracle
    var key: Key
    var idCount: int
    var infos: map<int, Info>
    var addrs: map<NetAddr, int>
    var random: seq<int>
    var nTried: int
    var triedTab: seq<int>
    var nNew: int
    var newTab: seq<int>
    var lastGood: int
    var collisions: set<int>

    ghost function Model(): State
      reads this
    {
      State(env, key, idCount, infos, addrs, random, nTried, triedTab, nNew, newTab, lastGood, collisions)
    }

    ghost predicate Valid()
      reads this
    {
      Inv(Model())
    }

    constructor (env: Oracle, key: Key)
      ensures Valid() && Model() == Empty(env, key)
    {
      this.env, this.key := env, key;
      idCount, nTried, nNew, lastGood := 0, 0, 0, 1;
      infos, addrs, random, collisions := map[], map[], [], {};
      triedTab := seq(TRIED_SLOTS, _ => EMPTY);
      newTab := seq(NEW_SLOTS, _ => EMPTY);
      new;
      EmptyInv(env, key);
    }

    method SwapRandomPositions(i: int, j: int)
      requires RandomOk(Model())
      requires 0 <= i < |random| && 0 <= j < |random|
      modifies `infos, `random
      ensures Model() == SwapRandom(old(Model()), i, j)
    {
      if i == j {
        return;
      }
      var x, y := random[i], random[j];
      assert x in infos && y in infos;
      infos := infos[x := infos[x].(randomPos := j)];
      infos := infos[y := infos[y].(randomPos := i)];
      random := random[i := y];
      random := random[j := x];
    }

    method CreateEntry(a: Address, source: NetAddr) returns (id: int)
      modifies `idCount, `infos, `addrs, `random
      ensures id == old(idCount) && Model() == Create(old(Model()), a, source)
    {
      id := idCount;
      idCount := idCount + 1;
      infos := infos[id := NewInfo(a, source)];
      addrs := addrs[a.service.host := id];
      infos := infos[id := infos[id].(randomPos := |random|)];
      random := random + [id];
    }

    method DeleteEntry(id: int)
      requires RandomOk(Model()) && id in infos && !infos[id].inTried && infos[id].refCount == 0
      modifies `infos, `random, `addrs, `nNew
      ensures Model() == Delete(old(Model()), id)
    {
      hide SwapRandom;
      var host := infos[id].service.host;
      SwapRandomPositions(infos[id].randomPos, |random| - 1);
      random := random[..|random| - 1];
      addrs := addrs - {host};
      infos := infos - {id};
      nNew := nNew - 1;
    }

    method ClearNewSlot(i: nat, ghost F: set<int>, ghost U: set<int>)
      requires Shape(Model()) && Ok(Model(), F, U) && U <= F && i < NEW_SLOTS
      modifies `infos, `random, `addrs, `nNew, `newTab
      ensures Model() == ClearNew(old(Model()), i)
    {
      hide Ok, Delete, RandomOk;
      if newTab[i] != EMPTY {
        var id := newTab[i];
        DropSlotOk(Model(), i, F, U);
        NewSlotHolder(Model(), i, F, U);
        assert infos[id].refCount > 0;
        infos := infos[id := infos[id].(refCount := infos[id].refCount - 1)];
        newTab := newTab[i := EMPTY];
        assert Model() == DropSlot(old(Model()), i);
        if infos[id].refCount == 0 {
          FloatingKnown(Model(), F + {id}, U);
          OkRandom(Model(), F + {id}, U);
          DeleteEntry(id);
        }
      }
    }

    /** MakeTried's second paragraph: the entry in tried slot i goes back to the "new" table. */
    method EvictTriedEntry(i: nat, ghost F: set<int>, ghost U: set<int>)
      requires Shape(Model()) && Ok(Model(), F, U) && U <= F && i < TRIED_SLOTS
      modifies `infos, `random, `addrs, `nNew, `newTab, `nTried, `triedTab
      ensures Model() == EvictTried(old(Model()), i)
      ensures triedTab == old(triedTab)[i := EMPTY]
    {
      hide Ok, Demote, ClearNew, NewSlot, NewBucket;
      EvictTriedOk(Model(), i, F, U);
      if triedTab[i] != EMPTY {
        var id := triedTab[i];
        TriedAt(Model(), i, F, U);
        DemoteOk(Model(), i, F, U);
        DemoteDetails(Model(), i);
        assert id in infos;
        infos := infos[id := infos[id].(inTried := false)];
        triedTab := triedTab[i := EMPTY];
        nTried := nTried - 1;
        DemoteIs(old(Model()), Model(), i);
        var prior := infos[id];
        var j := NewSlot(env, key, NewBucket(env, key, prior.service.host, prior.source), prior.service);
        ghost var d := Model();
        ClearNewKeeps(d, j, F + {id}, U + {id});
        ClearNewSlot(j, F + {id}, U + {id});
        assert newTab[j] == EMPTY && id in infos;
        infos := infos[id := infos[id].(refCount := 1)];
        newTab := newTab[j := id];
        nNew := nNew + 1;
      }
    }

    /** MakeTried's first paragraph: take the entry out of every "new" bucket. */
    method ScrubEntry(id: int)
      requires Shape(Model()) && Ok(Model(), {}, {}) && id in infos && !infos[id].inTried
      modifies `infos, `newTab
      ensures Model() == Scrub(old(Model()), id, 0)
    {
      hide Ok, DropSlot, NewSlot, Scrub;
      ghost var s0 := Model();
      var service := infos[id].service;
      for bucket := 0 to NEW_BUCKET_COUNT
        invariant Shape(Model()) && id in infos && infos[id].service == service
        invariant Scrub(Model(), id, bucket) == Scrub(s0, id, 0)
      {
        var i := NewSlot(env, key, bucket, service);
        ghost var s := Model();
        ScrubUnfold(s, id, bucket);
        if newTab[i] == id {
          DropSlotInfos(s, i);
          newTab := newTab[i := EMPTY];
          infos := infos[id := infos[id].(refCount := infos[id].refCount - 1)];
          DropSlotIs(s, Model(), i);
        }
      }
      ScrubUnfold(Model(), id, NEW_BUCKET_COUNT);
    }

    method MakeTriedEntry(id: int)
      requires Shape(Model()) && Ok(Model(), {}, {}) && id in infos && !infos[id].inTried
      modifies `infos, `random, `addrs, `nNew, `newTab, `nTried, `triedTab
      ensures Model() == MakeTried(old(Model()), id)
    {
      hide Ok, Scrub, NewSlot, TriedSlot, EvictTried, Keeps;
      ghost var s0 := Model();
      var service := infos[id].service;
      SlotsFromStart(s0, id);
      ScrubOk(s0, id, 0, {}, {}, {});
      ScrubEntry(id);
      assert {} + {id} == {id};
      FloatingKnown(Model(), {id}, {});
      CountDown(Model(), id, {id}, {});
      nNew := nNew - 1;
      assert infos[id].refCount == 0;

      var i := TriedSlot(env, key, service);
      ghost var u := Model();
      EvictTriedOk(u, i, {id}, {id});
      EvictTriedEntry(i, {id}, {id});
      assert triedTab[i] == EMPTY;
      EvictKeepsId(u, Model(), id);
      triedTab := triedTab[i := id];
      nTried := nTried + 1;
      infos := infos[id := infos[id].(inTried := true)];
    }

    /** Good_'s search, starting at a random bucket, for a bucket that holds id: it always succeeds. */
    method FindBucket(id: int, start: nat) returns (found: int)
      requires Valid() && id in infos && !infos[id].inTried
      ensures 0 <= found < NEW_BUCKET_COUNT
      ensures newTab[NewSlot(env, key, found, infos[id].service)] == id
    {
      hide Ok, PendingOk, NewSlot;
      var a := infos[id].service;
      found := -1;
      var n := 0;
      while n < NEW_BUCKET_COUNT && found == -1
        invariant n <= NEW_BUCKET_COUNT
        invariant found == -1 ==>
                    forall k :: 0 <= k < n ==> newTab[NewSlot(env, key, BucketAt(k, start), a)] != id
        invariant found != -1 ==> 0 <= found < NEW_BUCKET_COUNT && newTab[NewSlot(env, key, found, a)] == id
      {
        var b := BucketAt(n, start);
        if newTab[NewSlot(env, key, b, a)] == id {
          found := b;
        }
        n := n + 1;
      }
      if found == -1 {
        UntriedIsInSomeBucket(Model(), id);
        var b: nat :| b < NEW_BUCKET_COUNT && newTab[NewSlot(env, key, b, a)] == id;
        EveryBucketTried(b, start);
        assert false;
      }
    }

    /** Good_; `start` is the random bucket at which the search begins. */
    method MarkGood(a: Service, testBeforeEvict: bool, now: int, start: nat)
      requires Valid()
      modifies this
      ensures Valid() && Model() == Good(old(Model()), a, testBeforeEvict, now)
    {
      hide Ok, PendingOk, TriedSlot, MakeTried, InSomeBucket, Grows, NewSlot;
      GoodInv(Model(), a, testBeforeEvict, now);
      ghost var s := Model();
      lastGood := now;
      if a.host !in addrs || addrs[a.host] !in infos {
        return;
      }
      var id := addrs[a.host];
      if infos[id].service != a {
        return;
      }
      infos := infos[id := infos[id].(lastSuccess := now, lastTry := now, attempts := 0)];
      GoodTouch(s, id, now);
      assert Valid();
      if infos[id].inTried {
        return;
      }
      var bucket := FindBucket(id, start);
      assert bucket != -1;
      UntriedIsInSomeBucket(Model(), id);
      var i := TriedSlot(env, key, infos[id].service);
      if testBeforeEvict && triedTab[i] != EMPTY {
        if |collisions| < TRIED_COLLISION_SIZE {
          collisions := collisions + {id};
        }
      } else {
        MakeTriedEntry(id);
      }
    }

    /** The last part of Add_: find the entry's "new" slot and take it if allowed. */
    method InsertEntry(id: int, source: NetAddr, now: int, ghost F: set<int>)
      requires Shape(Model()) && Ok(Model(), F, {}) && F <= {id}
      requires id in infos && !infos[id].inTried && infos[id].refCount < NEW_BUCKETS_PER_ADDRESS
      modifies `infos, `random, `addrs, `nNew, `newTab
      ensures Model() == Insert(old(Model()), id, source, now)
    {
      hide Ok, ClearNew, Delete, NewSlot, NewBucket, IsTerrible, RandomOk;
      var i := NewSlot(env, key, NewBucket(env, key, infos[id].service.host, source), infos[id].service);
      RefBounds(Model(), id, F, {});
      if newTab[i] != id {
        var insert := newTab[i] == EMPTY;
        if !insert {
          NewSlotHolder(Model(), i, F, {});
          var existing := infos[newTab[i]];
          insert := IsTerrible(existing, now) || (existing.refCount > 1 && infos[id].refCount == 0);
        }
        if insert {
          ClearNewOthers(Model(), i, id, F, {});
          ClearNewKeeps(Model(), i, F, {});
          ClearNewSlot(i, F, {});
          infos := infos[id := infos[id].(refCount := infos[id].refCount + 1)];
          newTab := newTab[i := id];
        } else if infos[id].refCount == 0 {
          FloatingKnown(Model(), F, {});
          OkRandom(Model(), F, {});
          DeleteEntry(id);
        }
      }
    }

    /** Add_; `dice` is what RandomInt(2^refCount) returned. */
    method AddAddress(a: Address, source: NetAddr, timePenalty: int, now: int, dice: nat) returns (added: bool)
      requires Valid()
      modifies this
      ensures Valid() && (Model(), added) == Add(old(Model()), a, source, timePenalty, now, dice)
    {
      hide Ok, PendingOk, Insert, TriedSlot, Grows, Refresh, ToUint32;
      AddInv(Model(), a, source, timePenalty, now, dice);
      ghost var s := Model();
      if !env.isRoutable(a.service.host) {
        return false;
      }
      var penalty := if a.service.host == source then 0 else timePenalty;
      FindKnown(s, a.service.host);
      if a.service.host in addrs && addrs[a.service.host] in infos {
        var id := addrs[a.service.host];
        RefBounds(s, id, {}, {});
        RefreshLinks(infos[id], a, penalty, now);
        TouchOk(s, id, Refresh(infos[id], a, penalty, now), {}, {});
        infos := infos[id := Refresh(infos[id], a, penalty, now)];
        if a.time == 0 || (infos[id].time != 0 && a.time <= infos[id].time) {
          return false;
        }
        if infos[id].inTried {
          return false;
        }
        if infos[id].refCount == NEW_BUCKETS_PER_ADDRESS {
          return false;
        }
        var factor := DoubledTimes(infos[id].refCount);
        if factor > 1 && dice != 0 {
          return false;
        }
        InsertEntry(id, source, now, {});
        return false;
      } else {
        CreateOk(s, a, source, {}, {});
        CreateDetails(s, a, source);
        assert {} + {s.idCount} == {s.idCount};
        var id := CreateEntry(a, source);
        ghost var t := Model();
        var time := ToUint32(Max(0, infos[id].time - penalty));
        TouchOk(t, id, infos[id].(time := time), {id}, {id});
        infos := infos[id := infos[id].(time := time)];
        CountUp(Model(), id, {id}, {id});
        assert {id} - {id} == {};
        nNew := nNew + 1;
        InsertEntry(id, source, now, {id});
        return true;
      }
    }

    method AttemptAddress(a: Service, countFailure: bool, now: int)
      requires Valid()
      modifies `infos
      ensures Valid() && Model() == Attempt(old(Model()), a, countFailure, now)
    {
      hide Ok, PendingOk, TriedSlot, Grows;
      AttemptInv(Model(), a, countFailure, now);
      if a.host !in addrs || addrs[a.host] !in infos {
        return;
      }
      var id := addrs[a.host];
      if infos[id].service != a {
        return;
      }
      var info := infos[id].(lastTry := now);
      if countFailure && info.lastCountAttempt < lastGood {
        info := info.(lastCountAttempt := now);
        info := info.(attempts := info.attempts + 1);
      }
      infos := infos[id := info];
    }

    method MarkConnected(a: Service, now: nat)
      requires Valid()
      modifies `infos
      ensures Valid() && Model() == Connected(old(Model()), a, now)
    {
      hide Ok, PendingOk, TriedSlot, Grows, ToUint32;
      ConnectedInv(Model(), a, now);
      if a.host !in addrs || addrs[a.host] !in infos {
        return;
      }
      var id := addrs[a.host];
      if infos[id].service != a {
        return;
      }
      var updateInterval := 20 * 60;
      if now - infos[id].time > updateInterval {
        infos := infos[id := infos[id].(time := ToUint32(now))];
      }
    }

    method UpdateServices(a: Service, services: bv64)
      requires Valid()
      modifies `infos
      ensures Valid() && Model() == SetServices(old(Model()), a, services)
    {
      hide Ok, PendingOk, TriedSlot, Grows;
      SetServicesInv(Model(), a, services);
      if a.host !in addrs || addrs[a.host] !in infos {
        return;
      }
      var id := addrs[a.host];
      if infos[id].service != a {
        return;
      }
      infos := infos[id := infos[id].(services := services)];
    }

    /** The loop of Select_ over one table: the odds of a candidate grow by a fifth with every rejection. */
    method SearchTable(tab: seq<int>, slots: nat -> nat, draws: nat -> nat, now: int) returns (id: int)
      requires (forall j :: slots(j) < |tab| && tab[slots(j)] in infos) && (forall j :: draws(j) < DRAWS)
      ensures Some(id) == Search(Model(), tab, slots, draws, now, 0, 44)
    {
      hide Odds, Power, Search;
      var factor, k := 1.0, 0;
      PowerFrom(k);
      while true
        invariant k <= 44 && factor == Power(1.2, k)
        invariant Search(Model(), tab, slots, draws, now, k, 44) == Search(Model(), tab, slots, draws, now, 0, 44)
        decreases 44 - k
      {
        id := tab[slots(k)];
        SearchNext(Model(), tab, slots, draws, now, k);
        if draws(k) as real < Odds(factor, infos[id], now) {
          return;
        }
        PowerFrom(k);
        factor := factor * 1.2;
        k := k + 1;
      }
    }

    /** Select_: `coin` is the choice between the tables, `slots` are the occupied slots the walks end at. */
    method SelectEntry(newOnly: bool, coin: bool, slots: nat -> nat, draws: nat -> nat, now: int) returns (r: Option<int>)
      requires Valid() && forall j :: draws(j) < DRAWS
      requires forall j :: slots(j) < |Searched(Model(), newOnly, coin)|
      requires !NothingToSelect(Model(), newOnly) ==> forall j :: Searched(Model(), newOnly, coin)[slots(j)] != EMPTY
      ensures r == Select(Model(), newOnly, coin, slots, draws, now)
    {
      hide Ok, PendingOk, TriedSlot, Search;
      if |random| == 0 || (newOnly && nNew == 0) {
        return None;
      }
      forall j: nat ensures Searched(Model(), newOnly, coin)[slots(j)] in infos { HeldEntries(Model(), slots(j)); }
      var id;
      if !newOnly && nTried > 0 && (nNew == 0 || coin) {
        id := SearchTable(triedTab, slots, draws, now);
      } else {
        id := SearchTable(newTab, slots, draws, now);
      }
      return Some(id);
    }

    /** GetAddr_: a partial shuffle of `random` that collects entries of good quality. */
    method CollectAddresses(pick: nat -> nat, now: int) returns (got: seq<Address>)
      requires Valid()
      modifies `infos, `random
      ensures Valid() && (Model(), got) == GetAddr(old(Model()), 0, GetAddrLimit(old(Model())), [], pick, now)
    {
      hide Ok, PendingOk, TriedSlot, SwapRandom, Grows, PickFrom, IsTerrible, GetAddr;
      ghost var s := Model();
      var nodes := GETADDR_MAX_PCT * |random| / 100;
      if nodes > GETADDR_MAX {
        nodes := GETADDR_MAX;
      }
      got := [];
      var n := 0;
      while n < |random| && |got| < nodes
        invariant n <= |random| && Valid()
        invariant GetAddr(Model(), n, nodes, got, pick, now) == GetAddr(s, 0, nodes, [], pick, now)
        decreases |random| - n
      {
        GetAddrUnfold(Model(), n, nodes, got, pick, now);
        var j := PickFrom(n, |random|, pick(n));
        OkRandom(Model(), {}, {});
        SwapRandomInv(Model(), n, j);
        SwapRandomPositions(n, j);
        OkRandom(Model(), {}, {});
        RandomKnown(Model(), n);
        assert random[n] in infos;
        var info := infos[random[n]];
        if !IsTerrible(info, now) {
          got := got + [Address(info.service, info.services, info.time)];
        }
        n := n + 1;
      }
      GetAddrUnfold(Model(), n, nodes, got, pick, now);
    }

    /** The body of ResolveCollisions_'s loop; `start` feeds Good_'s bucket search. */
    method ResolveOne(id: int, now: int, start: nat)
      requires Valid() && id in collisions
      modifies this
      ensures Valid() && Model() == Resolve(old(Model()), id, now)
    {
      hide Ok, PendingOk, TriedSlot, Good, Grows;
      ResolveInv(Model(), id, now);
      var erase := false;
      if id !in infos {
        erase := true;
      } else {
        var info := infos[id];
        var i := TriedSlot(env, key, info.service);
        if !env.isValid(info.service.host) {
          erase := true;
        } else if triedTab[i] != EMPTY {
          PendingHasRival(Model(), id);
          assert triedTab[i] in infos;
          var rival := infos[triedTab[i]];
          if now - rival.lastSuccess < REPLACEMENT_HOURS * 60 * 60 {
            erase := true;
          } else if now - rival.lastTry < REPLACEMENT_HOURS * 60 * 60 {
            if now - rival.lastTry > 60 {
              MarkGood(info.service, false, now, start);
              erase := true;
            }
          }
        } else {
          MarkGood(info.service, false, now, start);
          erase := true;
        }
      }
      if erase {
        collisions := collisions - {id};
      }
    }

    /** ResolveCollisions_: every pending id, in ascending order. */
    method ResolveCollisions(now: int, start: int -> nat)
      requires Valid()
      modifies this
      ensures Valid() && Model() == ResolveFrom(old(Model()), 0, old(idCount), now)
    {
      hide Ok, PendingOk, TriedSlot, Resolve, Grows;
      ghost var s := Model();
      IdsInRange(s);
      var stop := idCount;
      var id := 0;
      while id < stop
        invariant id <= stop && Valid()
        invariant ResolveFrom(Model(), id, stop, now) == ResolveFrom(s, 0, stop, now)
      {
        if id in collisions {
          ResolveOne(id, now, start(id));
        }
        id := id + 1;
      }
    }

    /** SelectTriedCollision_ for the pending id the random choice picked. */
    method SelectCollision(id: int) returns (info: Info)
      requires Valid() && (collisions != {} ==> id in collisions)
      modifies `collisions
      ensures Valid()
      ensures old(collisions) == {} ==> Model() == old(Model()) && info == NO_INFO
      ensures old(collisions) != {} ==> (Model(), info) == SelectTriedCollision(old(Model()), id)
      ensures id in infos && old(collisions) != {} ==> info in infos.Values && info.inTried
    {
      hide Ok, PendingOk, TriedSlot, Grows;
      SelectCollisionInv(Model(), id);
      if collisions == {} {
        return NO_INFO;
      }
      if id !in infos {
        collisions := collisions - {id};
        return NO_INFO;
      }
      PendingHasRival(Model(), id);
      var holder := triedTab[TriedSlot(env, key, infos[id].service)];
      assert holder in infos;
      return infos[holder];
    }

    // -------------------------------------------------------------- Check_

    method CheckEntries() returns (err: int, setTried: set<int>, mapNew: map<int, int>)
      requires Shape(Model())
      ensures err == 0 <==> forall id :: id in infos ==> EntryPasses(Model(), id)
      ensures err == 0 ==> setTried == TriedIds(infos) && mapNew.Keys == NewIds(infos)
      ensures err == 0 ==> forall id :: id in mapNew ==> mapNew[id] == infos[id].refCount
    {
      err, setTried, mapNew := 0, {}, map[];
      var todo := infos.Keys;
      while todo != {}
        invariant todo <= infos.Keys
        invariant forall id :: id in setTried <==> id in infos && id !in todo && infos[id].inTried
        invariant forall id :: id in mapNew <==> id in infos && id !in todo && !infos[id].inTried
        invariant forall id :: id in mapNew ==> mapNew[id] == infos[id].refCount
        invariant forall id :: id in infos && id !in todo ==> EntryPasses(Model(), id)
      {
        var id := PickAny(todo);
        todo := todo - {id};
        var info := infos[id];
        err := CheckEntry(id);
        if err != 0 {
          return;
        }
        if info.inTried {
          setTried := setTried + {id};
        } else {
          mapNew := mapNew[id := info.refCount];
        }
      }
      forall id | id in TriedIds(infos) ensures id in setTried {}
      forall id | id in setTried ensures id in TriedIds(infos) {}
      forall id | id in NewIds(infos) ensures id in mapNew.Keys {}
      forall id | id in mapNew.Keys ensures id in NewIds(infos) {}
    }

    method CheckEntry(id: int) returns (err: int)
      requires id in infos
      ensures err == 0 <==> EntryPasses(Model(), id)
    {
      var info := infos[id];
      if info.inTried {
        if info.lastSuccess == 0 { return -1; }
        if info.refCount != 0 { return -2; }
      } else {
        if info.refCount < 0 || info.refCount > NEW_BUCKETS_PER_ADDRESS { return -3; }
        if info.refCount == 0 { return -4; }
      }
      if (if info.service.host in addrs then addrs[info.service.host] else 0) != id { return -5; }
      if info.randomPos < 0 || info.randomPos >= |random| || random[info.randomPos] != id { return -14; }
      if info.lastTry < 0 { return -6; }
      if info.lastSuccess < 0 { return -8; }
      return 0;
    }

    method CheckTriedTable(tried: set<int>) returns (err: int)
      requires Shape(Model()) && tried == TriedIds(infos)
      ensures err == 0 <==>
              && (forall i :: 0 <= i < TRIED_SLOTS ==> TriedSlotPasses(Model(), i))
              && (forall id :: id in TriedIds(infos) ==> id != EMPTY && id in triedTab)
    {
      hide TriedSlot;
      ghost var s := Model();
      var left := tried;
      for i := 0 to TRIED_SLOTS
        invariant forall id :: id in left <==> id in tried && (id == EMPTY || id !in triedTab[..i])
        invariant forall k :: 0 <= k < i ==> TriedSlotPasses(Model(), k)
      {
        assert triedTab[..i + 1] == triedTab[..i] + [triedTab[i]];
        if triedTab[i] != EMPTY {
          if triedTab[i] !in left {
            assert !TriedSlotPasses(Model(), i) by { RepeatedTried(Model(), i); }
            return -11;
          }
          var at := TriedSlot(env, key, infos[triedTab[i]].service);
          if at / BUCKET_SIZE != i / BUCKET_SIZE {
            assert !TriedSlotPasses(Model(), i);
            return -17;
          }
          if at != i {
            assert !TriedSlotPasses(Model(), i);
            return -18;
          }
          left := left - {triedTab[i]};
        }
      }
      assert triedTab[..TRIED_SLOTS] == triedTab;
      if left != {} {
        ghost var id := AnyOf(left);
        assert id in TriedIds(infos) && (id == EMPTY || id !in triedTab);
        return -13;
      }
      assert forall id :: id in TriedIds(infos) ==> id !in left;
      return 0;
    }

    method CheckNewTable(mapNew: map<int, int>) returns (err: int)
      requires Shape(Model()) && mapNew.Keys == NewIds(infos)
      requires forall id :: id in mapNew ==> mapNew[id] == infos[id].refCount >= 1
      ensures err == 0 <==>
              && (forall i :: 0 <= i < NEW_SLOTS ==> NewSlotPasses(Model(), i))
              && (forall id :: id in NewIds(infos) ==> id != EMPTY && |Slots(newTab, id)| == infos[id].refCount)
    {
      hide NewSlot, Slots;
      var left := mapNew;
      SlotsOfNothing(newTab);
      for i := 0 to NEW_SLOTS
        invariant forall id :: id in left <==> id in mapNew && Seen(newTab, i, id) < mapNew[id]
        invariant forall id :: id in left ==> left[id] == mapNew[id] - Seen(newTab, i, id)
        invariant forall id :: id in mapNew ==> Seen(newTab, i, id) <= mapNew[id]
        invariant forall k :: 0 <= k < i ==> NewSlotPasses(Model(), k)
      {
        SeenStep(newTab, i);
        var id := newTab[i];
        if id != EMPTY {
          if id !in left {
            if id in mapNew {
              SeenAll(newTab, i + 1, id);
              assert |Slots(newTab, id)| > infos[id].refCount;
              assert id in NewIds(infos);
            } else {
              assert !NewSlotPasses(Model(), i);
            }
            return -12;
          }
          assert id in NewIds(infos);
          if NewSlot(env, key, i / BUCKET_SIZE, infos[id].service) != i {
            assert !NewSlotPasses(Model(), i);
            return -19;
          }
          left := left[id := left[id] - 1];
          if left[id] == 0 {
            left := left - {id};
          }
        }
      }
      SeenEverything(newTab);
      if left != map[] {
        assert left.Keys != {};
        ghost var id := AnyOf(left.Keys);
        assert id in NewIds(infos) && (id == EMPTY || |Slots(newTab, id)| < infos[id].refCount);
        return -15;
      }
      return 0;
    }

    /** Check_: zero exactly for the states CheckPasses describes. */
    method Check() returns (err: int)
      requires Shape(Model())
      ensures err == 0 <==> CheckPasses(Model())
      ensures Valid() && TimesOk(Model()) && key.bits != 0 ==> err == 0
    {
      hide Ok, PendingOk, EntryPasses, TriedSlotPasses, NewSlotPasses, TriedIds, NewIds, Slots, TimesOk;
      if Valid() && TimesOk(Model()) && key.bits != 0 {
        OkPasses(Model());
      }
      if |random| != nTried + nNew { return -7; }
      var setTried, mapNew;
      err, setTried, mapNew := CheckEntries();
      if err != 0 { return; }
      if |setTried| != nTried { return -9; }
      if |mapNew| != nNew { return -10; }
      err := CheckTriedTable(setTried);
      if err != 0 { return; }
      PositiveRefs(Model(), mapNew);
      err := CheckNewTable(mapNew);
      if err != 0 { return; }
      if key.bits == 0 { return -16; }
      return 0;
    }

    // -------------------------------------------------------------- Serialize

    /** One of Serialize's two entry loops: the entries of a section, with their running numbers. */
    method SaveSection(tried: bool) returns (out: seq<Token>, numbers: map<int, int>)
      requires Valid()
      ensures 0 <= idCount && out == Entries(Model(), List(infos, idCount, tried))
      ensures forall id :: id in infos && !tried ==> id in numbers && numbers[id] == Rank(infos, id)
    {
      hide Ok, PendingOk, Entries, List;
      ListedFacts(Model());
      SectionSizes(Model());
      out, numbers := [], map[];
      var nIds := 0;
      EntriesOfNone(Model(), tried);
      for id := 0 to idCount
        invariant out == Entries(Model(), List(infos, id, tried)) && nIds == |List(infos, id, tried)|
        invariant forall x :: x in infos && x < id ==> x in numbers && numbers[x] == |List(infos, x, tried)|
      {
        ListUnfold(Model(), id, tried);
        if id in infos {
          numbers := numbers[id := nIds];
          if Listed(tried, infos[id]) {
            ListRank(infos, idCount, tried, id);
            assert nIds != if tried then nTried else nNew;
            out := out + [TEntry(ToRecord(infos[id]))];
            nIds := nIds + 1;
          }
        }
      }
    }

    /** The index lists of Serialize's last loop, for one bucket. */
    method SaveBucket(b: nat, numbers: map<int, int>) returns (out: seq<Token>)
      requires Valid() && b < NEW_BUCKET_COUNT
      requires forall id :: id in infos ==> id in numbers && numbers[id] == Rank(infos, id)
      ensures out == BucketTokens(Model(), b)
    {
      hide Ok, PendingOk, Rank;
      var size := 0;
      for i := 0 to BUCKET_SIZE
        invariant size + |Indices(Model(), b * BUCKET_SIZE + i, (b + 1) * BUCKET_SIZE)|
               == |Indices(Model(), b * BUCKET_SIZE, (b + 1) * BUCKET_SIZE)|
      {
        if newTab[b * BUCKET_SIZE + i] != EMPTY {
          size := size + 1;
        }
      }
      out := [TNum(size)];
      for i := 0 to BUCKET_SIZE
        invariant out + Indices(Model(), b * BUCKET_SIZE + i, (b + 1) * BUCKET_SIZE) == BucketTokens(Model(), b)
      {
        var id := newTab[b * BUCKET_SIZE + i];
        if id != EMPTY {
          NewSlotHolder(Model(), b * BUCKET_SIZE + i, {}, {});
          ghost var rest := Indices(Model(), b * BUCKET_SIZE + i + 1, (b + 1) * BUCKET_SIZE);
          assert out + ([TNum(numbers[id])] + rest) == (out + [TNum(numbers[id])]) + rest;
          out := out + [TNum(numbers[id])];
        }
      }
    }

    method Save() returns (out: seq<Token>)
      requires Valid()
      ensures 0 <= idCount && out == Serialize(Model())
    {
      hide Ok, PendingOk, Entries, List, BucketTokens, FlipBit30;
      var newEntries, numbers := SaveSection(false);
      var triedEntries, _ := SaveSection(true);
      var buckets := [];
      for b := 0 to NEW_BUCKET_COUNT
        invariant buckets + Buckets(Model(), b) == Buckets(Model(), 0)
      {
        var more := SaveBucket(b, numbers);
        assert buckets + (more + Buckets(Model(), b + 1)) == (buckets + more) + Buckets(Model(), b + 1);
        buckets := buckets + more;
      }
      out := [TByte(FORMAT_VERSION), TByte(KEY_SIZE), TKey(key), TNum(nNew), TNum(nTried),
              TNum(FlipBit30(NEW_BUCKET_COUNT))];
      out := out + (newEntries + (triedEntries + buckets));
    }

    // -------------------------------------------------------------- Unserialize

    /** The body of Unserialize's first loop. */
    method LoadNewEntry(n: int, record: Record, usable: bool)
      requires Shape(Model())
      modifies `infos, `addrs, `random, `newTab
      ensures Model() == LoadNew(old(Model()), n, record, usable)
    {
      hide LoadNew, NewSlot, NewBucket;
      var info := FromRecord(record).(randomPos := |random|);
      addrs := addrs[record.service.host := n];
      random := random + [n];
      infos := infos[n := info];
      if !usable {
        var i := NewSlot(env, key, NewBucket(env, key, info.service.host, info.source), info.service);
        if newTab[i] == EMPTY {
          newTab := newTab[i := n];
          infos := infos[n := info.(refCount := 1)];
        }
      }
      LoadNewIs(old(Model()), Model(), n, record, usable);
    }

    method LoadNewEntries(tokens: seq<Token>, usable: bool) returns (ok: bool, rest: seq<Token>)
      requires Filling(Model(), 0) && infos == map[]
      modifies `infos, `addrs, `random, `newTab
      ensures var r := ReadNew(old(Model()), tokens, 0, nNew, usable);
              if r.Failed? then !ok
              else ok && Model() == r.s && rest == r.rest && Filling(Model(), nNew) && Complete(Model(), nNew)
    {
      hide LoadNew, Filling, Complete;
      ok, rest := true, tokens;
      ghost var s := Model();
      FillingStart(s, nNew);
      var n := 0;
      while n < nNew
        invariant 0 <= n && (n <= nNew || n == 0) && Shape(Model()) && Filling(Model(), n) && Complete(Model(), n)
        invariant nNew < 0 ==> Filling(Model(), nNew) && Complete(Model(), nNew)
        invariant ReadNew(Model(), rest, n, nNew, usable) == ReadNew(s, tokens, 0, nNew, usable)
        decreases nNew - n
      {
        if rest == [] || !rest[0].TEntry? {
          return false, rest;
        }
        FillingNew(Model(), n, rest[0].record, usable);
        LoadNewEntry(n, rest[0].record, usable);
        rest := rest[1..];
        n := n + 1;
      }
    }

    /** The body of Unserialize's second loop; an entry whose slot is taken is lost. */
    method LoadTriedEntry(record: Record)
      requires Shape(Model())
      modifies `infos, `addrs, `random, `triedTab, `idCount, `nTried
      ensures Model() == LoadTried(old(Model()), record)
    {
      hide TriedSlot;
      var i := TriedSlot(env, key, record.service);
      if triedTab[i] == EMPTY {
        var info := FromRecord(record).(randomPos := |random|, inTried := true);
        random := random + [idCount];
        infos := infos[idCount := info];
        addrs := addrs[info.service.host := idCount];
        triedTab := triedTab[i := idCount];
        idCount := idCount + 1;
      } else {
        nTried := nTried - 1;
      }
    }

    method LoadTriedEntries(tokens: seq<Token>) returns (ok: bool, rest: seq<Token>)
      requires Filling(Model(), idCount) && Complete(Model(), nNew)
      modifies `infos, `addrs, `random, `triedTab, `idCount, `nTried
      ensures Shape(old(Model()))
      ensures var r := ReadTried(old(Model()), tokens, 0, old(nTried));
              if r.Failed? then !ok
              else ok && Model() == r.s && rest == r.rest && Filling(Model(), idCount) && Complete(Model(), nNew)
    {
      hide LoadTried, Filling, Complete;
      ok, rest := true, tokens;
      ghost var s := Model();
      FillingShape(s, idCount);
      var n, count := 0, nTried;
      while n < count
        invariant 0 <= n && Shape(Model()) && Filling(Model(), idCount) && Complete(Model(), nNew)
        invariant ReadTried(Model(), rest, n, count) == ReadTried(s, tokens, 0, count)
      {
        if rest == [] || !rest[0].TEntry? {
          return false, rest;
        }
        FillingTried(Model(), rest[0].record);
        LoadTriedEntry(rest[0].record);
        rest := rest[1..];
        n := n + 1;
      }
    }

    /** The innermost body of Unserialize's third loop. */
    method LoadBucketIndex(b: nat, index: int, usable: bool)
      requires Shape(Model()) && (usable ==> b < NEW_BUCKET_COUNT)
      requires 0 <= index < nNew ==> index in infos
      modifies `infos, `newTab
      ensures Model() == LoadIndex(old(Model()), b, index, usable)
    {
      hide NewSlot;
      if 0 <= index < nNew {
        var info := infos[index];
        if usable {
          var i := NewSlot(env, key, b, info.service);
          if newTab[i] == EMPTY && info.refCount < NEW_BUCKETS_PER_ADDRESS {
            infos := infos[index := info.(refCount := info.refCount + 1)];
            newTab := newTab[i := index];
          }
        }
      }
    }

    method LoadBucket(tokens: seq<Token>, b: nat, size: int, usable: bool) returns (ok: bool, rest: seq<Token>)
      requires Filling(Model(), idCount) && Complete(Model(), nNew) && (usable ==> b < NEW_BUCKET_COUNT)
      modifies `infos, `newTab
      ensures Shape(old(Model()))
      ensures var r := ReadIndices(old(Model()), tokens, b, size, usable);
              if r.Failed? then !ok
              else ok && Model() == r.s && rest == r.rest && Filling(Model(), idCount) && Complete(Model(), nNew)
    {
      hide LoadIndex, Filling, Complete;
      ok, rest := true, tokens;
      ghost var s := Model();
      FillingShape(s, idCount);
      var n := 0;
      while n < size
        invariant 0 <= n && Shape(Model()) && Filling(Model(), idCount) && Complete(Model(), nNew)
        invariant ReadIndices(Model(), rest, b, size - n, usable) == ReadIndices(s, tokens, b, size, usable)
      {
        if rest == [] || !rest[0].TNum? {
          return false, rest;
        }
        FillingIndex(Model(), b, rest[0].num, usable);
        LoadBucketIndex(b, rest[0].num, usable);
        rest := rest[1..];
        n := n + 1;
      }
    }

    method LoadBuckets(tokens: seq<Token>, buckets: int, usable: bool) returns (ok: bool, rest: seq<Token>)
      requires Filling(Model(), idCount) && Complete(Model(), nNew) && (usable ==> buckets == NEW_BUCKET_COUNT)
      modifies `infos, `newTab
      ensures Shape(old(Model()))
      ensures var r := ReadBuckets(old(Model()), tokens, 0, buckets, usable);
              if r.Failed? then !ok else ok && Model() == r.s && rest == r.rest && Filling(Model(), idCount)
    {
      hide ReadIndices, Filling, Complete;
      ok, rest := true, tokens;
      ghost var s := Model();
      FillingShape(s, idCount);
      var b := 0;
      while b < buckets
        invariant 0 <= b && Shape(Model()) && Filling(Model(), idCount) && Complete(Model(), nNew)
        invariant ReadBuckets(Model(), rest, b, buckets, usable) == ReadBuckets(s, tokens, 0, buckets, usable)
      {
        if rest == [] || !rest[0].TNum? {
          return false, rest;
        }
        ok, rest := LoadBucket(rest[1..], b, rest[0].num, usable);
        if !ok {
          return;
        }
        b := b + 1;
      }
    }

    /** Unserialize's last loop: forget untried entries that ended up without a reference. */
    method PruneEntries()
      requires Filling(Model(), idCount)
      modifies `infos, `addrs, `random, `nNew
      ensures Shape(old(Model())) && Model() == Prune(old(Model()), 0, idCount)
    {
      hide Filling, Delete, RandomOk;
      ghost var s := Model();
      FillingShape(s, idCount);
      var id := 0;
      while id < idCount
        invariant 0 <= id && Shape(Model()) && Filling(Model(), idCount)
        invariant Prune(Model(), id, idCount) == Prune(s, 0, idCount)
        decreases idCount - id
      {
        if id in infos && !infos[id].inTried && infos[id].refCount == 0 {
          FillingDelete(Model(), id);
          DeleteEntry(id);
        }
        id := id + 1;
      }
    }

    /** Unserialize into a newly constructed manager. False stands for the stream exception. */
    method Load(tokens: seq<Token>) returns (ok: bool)
      requires Model() == Empty(env, key)
      modifies this
      ensures var r := Unserialize(env, tokens);
              if r.Failed? then !ok else ok && Model() == r.s
      ensures ok && HeaderFits(tokens) && AddrManHarmless.Harmless(tokens) ==> Valid()
    {
      hide ReadTables, AddrManHarmless.Harmless, HeaderFits, Inv, Filling, Prune;
      ok := LoadTables(tokens);
      if !ok {
        return;
      }
      PruneEntries();
      if HeaderFits(tokens) && AddrManHarmless.Harmless(tokens) { AddrManHarmless.LoadedIsSound(env, tokens); }
    }

    /** Everything but the pruning. */
    method LoadTables(tokens: seq<Token>) returns (ok: bool)
      requires Model() == Empty(env, key)
      modifies this
      ensures var r := ReadTables(env, tokens);
              if r.Failed? then !ok else ok && Model() == r.s && Filling(Model(), idCount)
    {
      hide ReadNew, ReadTried, ReadBuckets, Filling, Complete, FlipBit30;
      if !HeaderFits(tokens) {
        return false;
      }
      var version := tokens[0].byte;
      key := tokens[2].key;
      nNew := tokens[3].num;
      nTried := tokens[4].num;
      var buckets := tokens[5].num;
      if version != 0 {
        buckets := FlipBit30(buckets);
      }
      var usable := version == FORMAT_VERSION && buckets == NEW_BUCKET_COUNT;
      FillingEmpty(Model());
      var rest;
      ok, rest := LoadNewEntries(tokens[6..], usable);
      if !ok {
        return;
      }
      FillingCounted(Model(), nNew);
      idCount := nNew;
      ok, rest := LoadTriedEntries(rest);
      if !ok {
        return;
      }
      ok, rest := LoadBuckets(rest, buckets, usable);
    }
  }

  lemma NewSlotHolder(s: State, i: nat, F: set<int>, U: set<int>)
    requires Shape(s) && Ok(s, F, U) && i < NEW_SLOTS && s.newTab[i] != EMPTY
    ensures s.newTab[i] in s.infos && s.infos[s.newTab[i]].refCount > 0 && !s.infos[s.newTab[i]].inTried
  {
    hide IdentityOk, TriedOk, CountOk;
    assert i in Slots(s.newTab, s.newTab[i]);
  }

  lemma DropSlotIs(s: State, t: State, i: nat)
    requires Shape(s) && i < NEW_SLOTS && s.newTab[i] in s.infos
    requires var d := s.newTab[i];
             t == s.(newTab := s.newTab[i := EMPTY], infos := s.infos[d := s.infos[d].(refCount := s.infos[d].refCount - 1)])
    ensures t == DropSlot(s, i)
  {
  }

  lemma EvictKeepsId(s: State, t: State, id: int)
    requires Keeps(s, t) && id in t.infos
    ensures id in s.infos && t.infos[id].service == s.infos[id].service
  {
  }

  lemma DemoteIs(s: State, t: State, i: nat)
    requires Shape(s) && i < TRIED_SLOTS && s.triedTab[i] in s.infos
    requires var d := s.triedTab[i];
             t == s.(triedTab := s.triedTab[i := EMPTY], nTried := s.nTried - 1, infos := s.infos[d := s.infos[d].(inTried := false)])
    ensures t == Demote(s, i)
  {
  }

  lemma ScrubUnfold(s: State, id: int, b: nat)
    requires Shape(s) && id in s.infos && b <= NEW_BUCKET_COUNT
    ensures b == NEW_BUCKET_COUNT ==> Scrub(s, id, b) == s
    ensures b < NEW_BUCKET_COUNT ==>
              var i := NewSlot(s.env, s.key, b, s.infos[id].service);
              Scrub(s, id, b) == Scrub(if s.newTab[i] == id then DropSlot(s, i) else s, id, b + 1)
  {
  }

  /** Add_'s loop: 2 to the reference count, which exceeds 1 exactly when there is a reference. */
  method DoubledTimes(refCount: int) returns (factor: nat)
    requires 0 <= refCount
    ensures factor == Pow2(refCount)
    ensures factor > 1 <==> refCount > 0
  {
    factor := 1;
    for n := 0 to refCount
      invariant factor == Pow2(n) && factor >= n + 1
    {
      factor := factor * 2;
    }
  }

  lemma RandomKnown(s: State, n: nat)
    requires RandomOk(s) && n < |s.random|
    ensures s.random[n] in s.infos
  {
  }

  lemma GetAddrUnfold(s: State, n: nat, limit: nat, got: seq<Address>, pick: nat -> nat, now: int)
    requires n <= |s.random|
    ensures n == |s.random| || |got| >= limit ==> GetAddr(s, n, limit, got, pick, now) == (s, got)
    ensures n < |s.random| && |got| < limit ==>
              var t := SwapRandom(s, n, PickFrom(n, |s.random|, pick(n)));
              var i := InfoOf(t, t.random[n]);
              GetAddr(s, n, limit, got, pick, now)
              == GetAddr(t, n + 1, limit,
                         if IsTerrible(i, now) then got else got + [Address(i.service, i.services, i.time)], pick, now)
  {
  }

  /** An id met again in the tried table cannot be at its own slot both times. */
  lemma RepeatedTried(s: State, i: nat)
    requires Shape(s) && i < TRIED_SLOTS && s.triedTab[i] != EMPTY
    requires s.triedTab[i] !in TriedIds(s.infos) || s.triedTab[i] in s.triedTab[..i]
    requires forall k :: 0 <= k < i ==> TriedSlotPasses(s, k)
    ensures !TriedSlotPasses(s, i)
  {
    hide TriedSlot;
    if s.triedTab[i] in s.triedTab[..i] {
      var k :| 0 <= k < i && s.triedTab[k] == s.triedTab[i];
      assert TriedSlotPasses(s, k);
    }
  }

  /** How many of the first n slots hold id, the empty marker aside. */
  ghost function Seen(t: seq<int>, n: nat, id: int): nat
    requires n <= |t|
  {
    if id == EMPTY then 0 else |Slots(t[..n], id)|
  }

  lemma SlotsOfNothing(t: seq<int>)
    ensures forall id :: Seen(t, 0, id) == 0
  {
    forall id ensures Slots(t[..0], id) == {} {}
  }

  lemma SeenStep(t: seq<int>, i: nat)
    requires i < |t|
    ensures forall id :: Seen(t, i + 1, id) == Seen(t, i, id) + if t[i] == id && id != EMPTY then 1 else 0
  {
    forall id ensures Slots(t[..i + 1], id) == if t[i] == id then Slots(t[..i], id) + {i} else Slots(t[..i], id) {}
  }

  lemma SeenAll(t: seq<int>, n: nat, id: int)
    requires n <= |t| && id != EMPTY
    ensures Seen(t, n, id) <= |Slots(t, id)|
  {
    assert Slots(t[..n], id) <= Slots(t, id);
    SubsetSize(Slots(t[..n], id), Slots(t, id));
  }

  lemma SeenEverything(t: seq<int>)
    ensures forall id :: id != EMPTY ==> Seen(t, |t|, id) == |Slots(t, id)|
  {
    assert t[..|t|] == t;
  }

  method PickAny<T>(s: set<T>) returns (x: T)
    requires s != {}
    ensures x in s
  {
    x :| x in s;
  }

  lemma PositiveRefs(s: State, m: map<int, int>)
    requires m.Keys == NewIds(s.infos) && forall id :: id in m ==> m[id] == s.infos[id].refCount
    requires forall id :: id in s.infos ==> EntryPasses(s, id)
    ensures forall id :: id in m ==> m[id] == s.infos[id].refCount >= 1
  {
    forall id | id in m ensures m[id] == s.infos[id].refCount >= 1 {
      assert id in NewIds(s.infos);
      assert EntryPasses(s, id);
    }
  }

  lemma EntriesOfNone(s: State, tried: bool)
    ensures List(s.infos, 0, tried) == [] && Entries(s, []) == []
  {
  }

  lemma ListUnfold(s: State, k: nat, tried: bool)
    ensures k in s.infos && Listed(tried, s.infos[k]) ==> List(s.infos, k + 1, tried) == List(s.infos, k, tried) + [k]
    ensures !(k in s.infos && Listed(tried, s.infos[k])) ==> List(s.infos, k + 1, tried) == List(s.infos, k, tried)
    ensures Entries(s, List(s.infos, k, tried) + [k]) == Entries(s, List(s.infos, k, tried)) + [TEntry(ToRecord(InfoOf(s, k)))]
  {
    var q := List(s.infos, k, tried);
    assert (q + [k])[..|q|] == q;
  }

  /** The assignments of Unserialize's first loop make the step LoadNew. */
  lemma LoadNewIs(s: State, t: State, n: int, r: Record, usable: bool)
    requires Shape(s)
    requires var info := FromRecord(r).(randomPos := |s.random|);
             var u := s.(infos := s.infos[n := info], addrs := s.addrs[r.service.host := n], random := s.random + [n]);
             var i := NewSlot(s.env, s.key, NewBucket(s.env, s.key, r.service.host, r.source), r.service);
             t == if usable || s.newTab[i] != EMPTY then u
                  else u.(newTab := s.newTab[i := n], infos := u.infos[n := info.(refCount := 1)])
    ensures t == LoadNew(s, n, r, usable)
  {
    hide NewSlot, NewBucket;
  }

  /** Entries being read sit at their random positions; ids from `bound` on are unused. */
  ghost predicate Filling(s: State, bound: int) {
    Shape(s) && RandomOk(s) && forall id :: id in s.infos ==> id < bound
  }

  lemma FillingShape(s: State, bound: int)
    requires Filling(s, bound)
    ensures Shape(s)
  {
  }

  /** The first n ids are all known. */
  ghost predicate Complete(s: State, n: int) {
    forall x :: 0 <= x < n ==> x in s.infos
  }

  lemma FillingEmpty(s: State)
    requires Shape(s) && s.infos == map[] && s.random == []
    ensures Filling(s, 0)
  {
  }

  lemma FillingStart(s: State, n: int)
    requires Filling(s, 0) && s.infos == map[]
    ensures Shape(s) && Complete(s, 0) && (n < 0 ==> Filling(s, n) && Complete(s, n))
  {
  }

  lemma FillingNew(s: State, n: nat, r: Record, usable: bool)
    requires Filling(s, n) && Complete(s, n)
    ensures Filling(LoadNew(s, n, r, usable), n + 1) && Complete(LoadNew(s, n, r, usable), n + 1)
  {
    hide NewSlot, NewBucket;
  }

  lemma FillingTried(s: State, r: Record)
    requires Filling(s, s.idCount) && Complete(s, s.nNew)
    ensures var t := LoadTried(s, r); Filling(t, t.idCount) && t.nNew == s.nNew && Complete(t, t.nNew)
  {
    hide TriedSlot;
  }

  lemma FillingIndex(s: State, b: nat, index: int, usable: bool)
    requires Filling(s, s.idCount) && Complete(s, s.nNew) && (usable ==> b < NEW_BUCKET_COUNT)
    ensures 0 <= index < s.nNew ==> index in s.infos
    ensures var t := LoadIndex(s, b, index, usable);
            t.idCount == s.idCount && t.nNew == s.nNew && Filling(t, t.idCount) && Complete(t, t.nNew)
  {
    hide NewSlot;
  }

  lemma FillingDelete(s: State, id: int)
    requires Filling(s, s.idCount) && id in s.infos
    ensures RandomOk(s)
    ensures var t := Delete(s, id); t.idCount == s.idCount && Filling(t, t.idCount)
  {
    var last := |s.random| - 1;
    var w := SwapRandom(s, s.infos[id].randomPos, last);
    SwapRandomKeeps(s, s.infos[id].randomPos, last);
    SwapRandomPositions(s, s.infos[id].randomPos, last);
    assert w.random[last] == id;
    DropLastPosition(w, id);
    assert Shape(w);
    hide SwapRandom, RandomOk;
    assert forall x :: x in w.infos ==> x in w.infos.Keys;
  }

  lemma DropLastPosition(w: State, id: int)
    requires RandomOk(w) && id in w.infos && w.random[|w.random| - 1] == id
    ensures RandomOk(w.(random := w.random[..|w.random| - 1], addrs := w.addrs - {w.infos[id].service.host},
                        infos := w.infos - {id}, nNew := w.nNew - 1))
  {
  }

  lemma FillingCounted(s: State, n: int)
    requires Filling(s, n) && Complete(s, n)
    ensures Filling(s.(idCount := n), n) && Complete(s.(idCount := n), n)
  {
  }
}
