/**
 What the flags of a coin cache are for: coins that come and go within one cache leave no trace, only
 DIRTY entries are written back, and nothing spent is ever stored.
 */
module CoinsEffects {
  import opened Basics
  import opened CoinsModel
  import opened CoinsRefinement

  /** A coin that is new to the cache and spent again before the next flush leaves the stack as it was. */
  lemma AddThenSpend(v: View, o: OutPoint, c: Coin)
    requires v.Cache? && o !in v.entries && !IsUnspendable(c.out.script)
    ensures AddCoin(v, o, c, false).Done? && SpendCoin(AddCoin(v, o, c, false).view, o) == v
  {
    var w := AddCoin(v, o, c, false).view;
    assert w.entries - {o} == v.entries;
  }

  /** With the overwrite flag, or over an entry the base knows of, the spent entry stays to be written back. */
  lemma OverwriteThenSpend(v: View, o: OutPoint, c: Coin)
    requires v.Cache? && !IsUnspendable(c.out.script) && (o in v.entries ==> !v.entries[o].isFresh)
    ensures var r := AddCoin(v, o, c, true);
            r.Done? && SpendCoin(r.view, o) == v.(entries := v.entries[o := Entry(NO_COIN, true, false)])
  {
  }

  /** Outputs that start with OP_RETURN, or with a script over 10000 bytes, never enter a cache. */
  lemma UnspendableIgnored(v: View, o: OutPoint, c: Coin, overwrite: bool)
    requires v.Cache? && (|c.out.script| > 10000 || (|c.out.script| > 0 && c.out.script[0] == 106))
    ensures AddCoin(v, o, c, overwrite) == Done(v)
  {
  }

  /** Every cache down to the first that knows the coin holds it; caches below that one are not asked. */
  ghost predicate FilledDownTo(v: View, f: View, o: OutPoint, c: Coin) {
    v.Cache? && f.Cache? &&
    if o in v.entries then f == v && v.entries[o].coin == c
    else
      && f.entries == v.entries[o := Entry(c, false, IsSpent(c))]
      && if v.base.Cache? then FilledDownTo(v.base, f.base, o, c)
         else f.base == v.base && o in v.base.coins && v.base.coins[o] == c
  }

  lemma {:induction false} FetchFills(v: View, o: OutPoint)
    requires v.Cache?
    ensures Lookup(v, o).Some? ==> FilledDownTo(v, Fetch(v, o), o, Lookup(v, o).value)
    ensures Lookup(v, o).None? ==> Fetch(v, o) == v
  {
    if o !in v.entries && v.base.Cache? { FetchFills(v.base, o); }
  }

  /** Fetching copies a coin into the cache, and uncaching removes exactly that copy. */
  lemma FetchThenUncache(v: View, o: OutPoint)
    requires v.Cache? && o !in v.entries && Unspent(v, o).Some?
    ensures var f := Fetch(v, o);
            && f.entries == v.entries[o := Entry(Unspent(v, o).value, false, false)]
            && Uncache(f, o).entries == v.entries
  {
    LookupShows(v, o);
    assert v.entries[o := Entry(Unspent(v, o).value, false, false)] - {o} == v.entries;
  }

  /** An entry with changes to write back is never dropped by Uncache; a clean one always is. */
  lemma UncacheExact(v: View, o: OutPoint)
    requires v.Cache?
    ensures var r := Uncache(v, o);
            && r.base == v.base && (forall x :: x != o ==> (x in r.entries <==> x in v.entries))
            && (forall x :: x in r.entries ==> x in v.entries && r.entries[x] == v.entries[x])
            && (o in r.entries <==> o in v.entries && (v.entries[o].isDirty || v.entries[o].isFresh))
  {
  }

  /** AddCoin writes one entry; it is FRESH if it was, or if nothing needs to reach the base on its account. */
  lemma AddCoinExact(v: View, o: OutPoint, c: Coin, overwrite: bool)
    requires v.Cache? && !IsUnspendable(c.out.script) && AddCoin(v, o, c, overwrite).Done?
    ensures var w := AddCoin(v, o, c, overwrite).view;
            && w.Cache? && w.base == v.base && w.entries.Keys == v.entries.Keys + {o}
            && (forall x :: x in v.entries && x != o ==> w.entries[x] == v.entries[x])
            && w.entries[o].coin == c && w.entries[o].isDirty
            && (o !in v.entries ==> (w.entries[o].isFresh <==> !overwrite))
            && (o in v.entries ==>
                  (w.entries[o].isFresh <==> v.entries[o].isFresh || (!overwrite && !v.entries[o].isDirty)))
  {
  }

  // ---------------------------------------------------------------- what a flush moves

  /** The databases below never hold a spent coin. */
  ghost predicate NoSpentStored(v: View) {
    match v
    case Database(coins) => forall o :: o in coins ==> !IsSpent(coins[o])
    case Cache(_, base) => NoSpentStored(base)
  }

  /** Entries that are not DIRTY do not reach the parent. */
  lemma OnlyDirtyMoves(v: View, child: CoinsMap, o: OutPoint)
    requires !(o in child && child[o].isDirty)
    ensures Lookup(BatchWrite(v, child), o) == Lookup(v, o)
    ensures v.Cache? && o !in v.entries ==> o !in BatchWrite(v, child).entries
    ensures v.Cache? && o in v.entries ==>
              o in BatchWrite(v, child).entries && BatchWrite(v, child).entries[o] == v.entries[o]
  {
    match v
    case Database(coins) => assert o in BatchWrite(v, child).coins <==> Stored(child, coins, o).Some?;
    case Cache(entries, base) => assert o in BatchWrite(v, child).entries <==> Merged(child, entries, o).Some?;
  }

  /**
   A DIRTY entry written to a parent cache arrives DIRTY there and keeps the parent's FRESH flag, or its own
   if the parent had none. If it is spent where it is FRESH, it disappears from both instead.
   */
  lemma DirtyArrives(entries: CoinsMap, base: View, child: CoinsMap, o: OutPoint)
    requires o in child && child[o].isDirty
    ensures var r := BatchWrite(Cache(entries, base), child);
            var isNew := if o in entries then entries[o].isFresh else child[o].isFresh;
            && r.Cache? && r.base == base
            && (IsSpent(child[o].coin) && isNew ==> o !in r.entries)
            && (!(IsSpent(child[o].coin) && isNew) ==>
                  o in r.entries && r.entries[o] == Entry(child[o].coin, true, isNew))
  {
    assert o in BatchWrite(Cache(entries, base), child).entries <==> Merged(child, entries, o).Some?;
  }

  lemma NoSpentWritten(v: View, child: CoinsMap)
    requires NoSpentStored(v)
    ensures NoSpentStored(BatchWrite(v, child))
  {
    if v.Database? {
      var w := BatchWrite(v, child);
      forall o | o in w.coins ensures !IsSpent(w.coins[o]) {
        assert Stored(child, v.coins, o).Some?;
      }
    }
  }

  /** A flush empties the cache, and a second one has nothing left to do. */
  lemma FlushTwice(v: View)
    requires v.Cache?
    ensures Flush(v).entries == map[] && Flush(Flush(v)) == Flush(v)
  {
    NothingWritten(Flush(v).base);
  }

  lemma NothingWritten(v: View)
    ensures BatchWrite(v, map[]) == v
  {
    match v
    case Database(coins) =>
      var w := BatchWrite(v, map[]);
      forall o ensures o in w.coins <==> o in coins { assert o in w.coins <==> Stored(map[], coins, o).Some?; }
      assert w.coins == coins;
    case Cache(entries, base) =>
      var w := BatchWrite(v, map[]);
      forall o ensures o in w.entries <==> o in entries { assert o in w.entries <==> Merged(map[], entries, o).Some?; }
      assert w.entries == entries;
  }

  /** Along every run no database comes to hold a spent coin. */
  lemma {:induction false} RunStoresNoSpent(v: View, ops: seq<Op>)
    requires NoSpentStored(v)
    ensures Run(v, ops).Done? ==> NoSpentStored(Run(v, ops).view)
    decreases |ops|
  {
    if ops != [] && Depth(v) > 0 {
      StepStoresNoSpent(v, ops[0]);
      if Step(v, ops[0]).Done? { RunStoresNoSpent(Step(v, ops[0]).view, ops[1..]); }
    }
  }

  lemma {:induction false} FetchStoresNoSpent(v: View, o: OutPoint)
    requires NoSpentStored(v)
    ensures NoSpentStored(Fetch(v, o))
  {
    if v.Cache? { FetchStoresNoSpent(v.base, o); }
  }

  lemma {:induction false} LevelStoresNoSpent(v: View, level: nat, o: OutPoint)
    requires NoSpentStored(v) && level < Depth(v)
    ensures NoSpentStored(FlushAt(v, level)) && NoSpentStored(UncacheAt(v, level, o))
  {
    if level == 0 { NoSpentWritten(v.base, v.entries); } else { LevelStoresNoSpent(v.base, level - 1, o); }
  }

  lemma StepStoresNoSpent(v: View, op: Op)
    requires NoSpentStored(v) && Depth(v) > 0
    ensures Step(v, op).Done? ==> NoSpentStored(Step(v, op).view)
  {
    match op
    case Push =>
    case Discard =>
    case FetchCoin(o) => FetchStoresNoSpent(v, o);
    case Add(o, c, overwrite) =>
    case Spend(o) => FetchStoresNoSpent(v, o);
    case UncacheCoin(level, o) => if level < Depth(v) { LevelStoresNoSpent(v, level, o); }
    case FlushCache(level) =>
      if level < Depth(v) { LevelStoresNoSpent(v, level, OutPoint(0, 0)); }
  }
}
