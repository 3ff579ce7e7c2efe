/**
 CCoinsViewDB and CCoinsViewCache as objects: caches linked to their base view, updated in place.
 Every method is proved against CoinsModel; BatchWrite visits the child's entries in any order.
 */
module CoinsCaches {
  import opened Basics
  import opened CoinsModel
  import opened CoinsRefinement

  class CoinsDatabase {
    var coins: map<OutPoint, Coin>

    constructor (coins: map<OutPoint, Coin>)
      ensures this.coins == coins
    {
      this.coins := coins;
    }

    method WriteBatch(child: CoinsMap)
      modifies this
      ensures Database(coins) == BatchWrite(Database(old(coins)), child)
    {
      hide StoredSoFar, BatchWrite;
      var left := child;
      StoredNothing(child, coins);
      while left.Keys != {}
        invariant StoredSoFar(child, left, old(coins), coins)
        decreases |left.Keys|
      {
        var o :| o in left.Keys;
        StoreOne(child, left, old(coins), coins, o);
        if left[o].isDirty {
          if IsSpent(left[o].coin) {
            coins := coins - {o};
          } else {
            coins := coins[o := left[o].coin];
          }
        }
        left := left - {o};
      }
      StoredAll(child, left, old(coins), coins);
    }
  }

  /** The entries of child outside left have been written: `was` has become `now`. */
  ghost predicate StoredSoFar(child: CoinsMap, left: CoinsMap, was: map<OutPoint, Coin>, now: map<OutPoint, Coin>) {
    && (forall o :: o in left ==> o in child && left[o] == child[o])
    && (forall o :: Has(now, o, if o in child && o !in left then Stored(child, was, o) else Kept(was, o)))
  }

  lemma StoredNothing(child: CoinsMap, was: map<OutPoint, Coin>)
    ensures StoredSoFar(child, child, was, was)
  {
  }

  lemma StoreOne(child: CoinsMap, left: CoinsMap, was: map<OutPoint, Coin>, now: map<OutPoint, Coin>, o: OutPoint)
    requires StoredSoFar(child, left, was, now) && o in left
    ensures StoredSoFar(child, left - {o}, was,
                        if !left[o].isDirty then now
                        else if IsSpent(left[o].coin) then now - {o} else now[o := left[o].coin])
  {
    assert Has(now, o, Kept(was, o));
  }

  lemma StoredAll(child: CoinsMap, left: CoinsMap, was: map<OutPoint, Coin>, now: map<OutPoint, Coin>)
    requires StoredSoFar(child, left, was, now) && left.Keys == {}
    ensures Database(now) == BatchWrite(Database(was), child)
  {
    forall o ensures Has(now, o, Stored(child, was, o)) { assert o !in left.Keys; }
    assert now == BatchWrite(Database(was), child).coins;
  }

  predicate Has<T(==)>(m: map<OutPoint, T>, o: OutPoint, v: Option<T>) {
    if o in m then v == Some(m[o]) else v == None
  }

  function Kept<T>(m: map<OutPoint, T>, o: OutPoint): Option<T> {
    if o in m then Some(m[o]) else None
  }

  class CoinsCache {
    const db: CoinsDatabase
    /** The cache below, or null when the base view is the database itself. */
    const base: CoinsCache?
    ghost const Repr: set<object>
    var entries: CoinsMap

    ghost predicate Linked()
      decreases Repr
    {
      && this in Repr && db in Repr
      && (base != null ==> base.Repr <= Repr - {this} && base.Repr < Repr && base.db == db && base.Linked())
    }

    ghost function Model(): (v: View)
      requires Linked()
      reads Repr
      ensures v.Cache?
      decreases Repr
    {
      Cache(entries, if base == null then Database(db.coins) else base.Model())
    }

    constructor OverDatabase(db: CoinsDatabase)
      ensures Linked() && this.db == db && Repr == {this, db} && Model() == Cache(map[], Database(db.coins))
    {
      this.db, base, entries := db, null, map[];
      Repr := {this, db};
    }

    constructor OverCache(below: CoinsCache)
      requires below.Linked()
      ensures Linked() && base == below && Repr == {this} + below.Repr && Model() == Cache(map[], below.Model())
    {
      db, base, entries := below.db, below, map[];
      Repr := {this} + below.Repr;
    }

    /** FetchCoin; afterwards the coin, if any view has it, is in this cache. */
    method Fetched(o: OutPoint) returns (found: bool)
      requires Linked()
      modifies Repr
      ensures Model() == Fetch(old(Model()), o)
      ensures found == Lookup(old(Model()), o).Some?
      ensures found ==> o in entries && Lookup(old(Model()), o) == Some(entries[o].coin)
      decreases Repr, 0
    {
      if o in entries {
        return true;
      }
      var coin := None;
      if base == null {
        coin := if o in db.coins then Some(db.coins[o]) else None;
      } else {
        coin := base.GetCoin(o);
      }
      if coin.None? {
        return false;
      }
      entries := entries[o := Entry(coin.value, false, false)];
      if IsSpent(coin.value) {
        entries := entries[o := entries[o].(isFresh := true)];
      }
      return true;
    }

    method GetCoin(o: OutPoint) returns (coin: Option<Coin>)
      requires Linked()
      modifies Repr
      ensures Model() == Fetch(old(Model()), o)
      ensures coin == Lookup(old(Model()), o)
      decreases Repr, 1
    {
      var found := Fetched(o);
      return if found then Some(entries[o].coin) else None;
    }

    /** True exactly when the view shows an unspent coin, as the plain map would. */
    method HaveCoin(o: OutPoint) returns (have: bool)
      requires Linked()
      modifies Repr
      ensures Model() == Fetch(old(Model()), o)
      ensures have == Unspent(old(Model()), o).Some?
    {
      LookupShows(Model(), o);
      var found := Fetched(o);
      return found && !IsSpent(entries[o].coin);
    }

    method AddCoinTo(o: OutPoint, coin: Coin, overwrite: bool) returns (thrown: bool)
      requires Linked() && !IsSpent(coin)
      modifies `entries
      ensures thrown <==> AddCoin(old(Model()), o, coin, overwrite).Thrown?
      ensures thrown ==> Model() == old(Model())
      ensures !thrown ==> Model() == AddCoin(old(Model()), o, coin, overwrite).view
    {
      if IsUnspendable(coin.out.script) {
        return false;
      }
      var entry := if o in entries then entries[o] else Entry(NO_COIN, false, false);
      var newly := false;
      if !overwrite {
        if !IsSpent(entry.coin) {
          return true;
        }
        newly := !entry.isDirty;
      }
      entry := entry.(coin := coin);
      entry := entry.(isDirty := true, isFresh := entry.isFresh || newly);
      entries := entries[o := entry];
      return false;
    }

    /** SpendCoin; returns what was there, as the moveout parameter does. */
    method Spend(o: OutPoint) returns (moved: Option<Coin>)
      requires Linked()
      modifies Repr
      ensures Model() == SpendCoin(old(Model()), o)
      ensures moved == Lookup(old(Model()), o)
    {
      var found := Fetched(o);
      if !found {
        return None;
      }
      moved := Some(entries[o].coin);
      if entries[o].isFresh {
        entries := entries - {o};
      } else {
        entries := entries[o := Entry(NO_COIN, true, entries[o].isFresh)];
      }
    }

    method UncacheCoin(o: OutPoint)
      requires Linked()
      modifies `entries
      ensures Model() == Uncache(old(Model()), o)
    {
      if o in entries && !entries[o].isDirty && !entries[o].isFresh {
        entries := entries - {o};
      }
    }

    /** One iteration of BatchWrite for a dirty child entry. */
    method MergeEntry(o: OutPoint, theirs: Entry) returns (thrown: bool)
      requires theirs.isDirty
      modifies `entries
      ensures thrown <==> theirs.isFresh && o in old(entries) && !IsSpent(old(entries)[o].coin)
      ensures thrown ==> entries == old(entries)
      ensures !thrown ==> Has(entries, o, Merged(map[o := theirs], old(entries), o))
      ensures forall x :: x != o ==> Has(entries, x, Kept(old(entries), x))
    {
      if o !in entries {
        if !(theirs.isFresh && IsSpent(theirs.coin)) {
          var entry := Entry(theirs.coin, true, false);
          if theirs.isFresh {
            entry := entry.(isFresh := true);
          }
          entries := entries[o := entry];
        }
      } else {
        if theirs.isFresh && !IsSpent(entries[o].coin) {
          return true;
        }
        if entries[o].isFresh && IsSpent(theirs.coin) {
          entries := entries - {o};
        } else {
          entries := entries[o := entries[o].(coin := theirs.coin, isDirty := true)];
        }
      }
      return false;
    }

    /** BatchWrite: the entries of the child cache, in any order. What is left of them is not yet merged. */
    method WriteBatch(child: CoinsMap) returns (thrown: bool, left: CoinsMap)
      requires Linked()
      modifies `entries
      ensures !thrown ==> left == map[]
      ensures thrown ==> MergedSoFar(child, left, old(Model()), entries)
      ensures thrown ==> exists o :: o in left && Misapplied(old(Model()), child, o)
      ensures !thrown ==> Model() == BatchWrite(old(Model()), child)
      ensures !thrown ==> forall o :: !Misapplied(old(Model()), child, o)
    {
      hide MergedSoFar, BatchWrite, Merged;
      ghost var v := Model();
      left := child;
      thrown := false;
      MergedNothing(child, v);
      while left.Keys != {}
        invariant MergedSoFar(child, left, v, entries)
        decreases |left.Keys|
      {
        var o :| o in left.Keys;
        ghost var before := entries;
        MergedKnown(child, left, v, entries, o);
        if left[o].isDirty {
          thrown := MergeEntry(o, left[o]);
          if thrown {
            return;
          }
        }
        MergeOne(child, left, v, before, entries, o);
        left := left - {o};
      }
      MergedAll(child, left, v, entries);
      return false, map[];
    }

    /** On an exception the entries not yet merged stay in this cache, and the base has merged the others. */
    method FlushToBase() returns (thrown: bool)
      requires Linked()
      modifies Repr
      ensures thrown ==> base != null && old(base.Model()).Cache? && MergedSoFar(old(entries), entries, old(base.Model()), base.entries)
      ensures !thrown ==> Model() == Flush(old(Model()))
      ensures thrown <==> FlushThrows(old(Model()), 0)
      ensures old(Inv(Model())) ==> !thrown
    {
      thrown := false;
      ghost var v, child := Model(), entries;
      if Inv(v) { FlushRefines(v); }
      if base == null {
        db.WriteBatch(entries);
        assert forall o :: !Misapplied(v.base, child, o);
      } else {
        assert v.base == base.Model();
        var left;
        thrown, left := base.WriteBatch(entries);
        assert thrown <==> exists o :: Misapplied(v.base, child, o);
        if thrown {
          entries := left;
          return;
        }
      }
      entries := map[];
    }
  }

  /** The entries of child outside left have been merged: v's own entries have become `now`. */
  ghost predicate MergedSoFar(child: CoinsMap, left: CoinsMap, v: View, now: CoinsMap)
    requires v.Cache?
  {
    && (forall o :: o in left ==> o in child && left[o] == child[o])
    && (forall o :: Has(now, o, if o in child && o !in left then Merged(child, v.entries, o) else Kept(v.entries, o)))
    && (forall o :: o in child && o !in left ==> !Misapplied(v, child, o))
  }

  lemma MergedNothing(child: CoinsMap, v: View)
    requires v.Cache?
    ensures MergedSoFar(child, child, v, v.entries)
  {
  }

  lemma MergedKnown(child: CoinsMap, left: CoinsMap, v: View, now: CoinsMap, o: OutPoint)
    requires v.Cache? && MergedSoFar(child, left, v, now) && o in left
    ensures left[o].isDirty && left[o].isFresh && o in now && !IsSpent(now[o].coin) <==> Misapplied(v, child, o)
  {
    assert Has(now, o, Kept(v.entries, o));
  }

  lemma MergeOne(child: CoinsMap, left: CoinsMap, v: View, was: CoinsMap, now: CoinsMap, o: OutPoint)
    requires v.Cache? && MergedSoFar(child, left, v, was) && o in left
    requires left[o].isDirty ==> Has(now, o, Merged(map[o := left[o]], was, o))
    requires !left[o].isDirty ==> Has(now, o, Kept(was, o))
    requires forall x :: x != o ==> Has(now, x, Kept(was, x))
    requires !Misapplied(v, child, o)
    ensures MergedSoFar(child, left - {o}, v, now)
  {
    assert Has(was, o, Kept(v.entries, o));
    forall x | x != o ensures Has(now, x, if x in child && x !in left then Merged(child, v.entries, x) else Kept(v.entries, x)) {
      assert Has(now, x, Kept(was, x));
      assert Has(was, x, if x in child && x !in left then Merged(child, v.entries, x) else Kept(v.entries, x));
    }
  }

  lemma MergedAll(child: CoinsMap, left: CoinsMap, v: View, now: CoinsMap)
    requires v.Cache? && MergedSoFar(child, left, v, now) && left.Keys == {}
    ensures Cache(now, v.base) == BatchWrite(v, child)
    ensures forall o :: !Misapplied(v, child, o)
  {
    forall o ensures Has(now, o, Merged(child, v.entries, o)) && !Misapplied(v, child, o) { assert o !in left.Keys; }
    assert now == BatchWrite(v, child).entries;
  }
}
