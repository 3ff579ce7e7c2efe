/**
 A stack of coin caches behaves like a stack of plain maps of unspent coins: whatever the depth
 and the sequence of operations, each level shows exactly the coins of its map, and the FRESH
 flag is never misapplied.
 */
module CoinsRefinement {
  import opened Basics
  import opened CoinsModel

  type Utxos = map<OutPoint, Coin>

  /** The unspent coin a view shows for an outpoint. */
  function Unspent(v: View, o: OutPoint): Option<Coin> {
    match v
    case Database(coins) => if o in coins && !IsSpent(coins[o]) then Some(coins[o]) else None
    case Cache(entries, base) =>
      if o in entries then (if IsSpent(entries[o].coin) then None else Some(entries[o].coin)) else Unspent(base, o)
  }

  function Shown(c: Coin): Option<Coin> {
    if IsSpent(c) then None else Some(c)
  }

  /** FRESH: the parent shows no coin. Not DIRTY: the parent shows the same. */
  ghost predicate EntryOk(e: Entry, base: View, o: OutPoint) {
    && (e.isFresh ==> Unspent(base, o).None?)
    && (!e.isDirty ==> Shown(e.coin) == Unspent(base, o))
  }

  ghost predicate Inv(v: View) {
    v.Cache? ==> Inv(v.base) && forall o :: o in v.entries ==> EntryOk(v.entries[o], v.base, o)
  }

  ghost predicate SameCoins(v: View, w: View) {
    forall o :: Unspent(v, o) == Unspent(w, o)
  }

  // ---------------------------------------------------------------- flat maps

  function Keys(v: View): set<OutPoint> {
    match v
    case Database(coins) => coins.Keys
    case Cache(entries, base) => entries.Keys + Keys(base)
  }

  function Flat(v: View): Utxos {
    map o | o in Keys(v) && Unspent(v, o).Some? :: Unspent(v, o).value
  }

  lemma {:induction false} FlatShows(v: View, o: OutPoint)
    ensures o in Flat(v) <==> Unspent(v, o).Some?
    ensures o in Flat(v) ==> Unspent(v, o) == Some(Flat(v)[o])
  {
    KeysCover(v, o);
  }

  lemma {:induction false} KeysCover(v: View, o: OutPoint)
    ensures Unspent(v, o).Some? ==> o in Keys(v)
  {
    match v
    case Database(_) =>
    case Cache(_, base) => KeysCover(base, o);
  }

  lemma FlatFrom(v: View, m: Utxos)
    requires forall o :: Unspent(v, o) == if o in m then Some(m[o]) else None
    ensures Flat(v) == m
  {
    forall o ensures o in Flat(v) <==> o in m { FlatShows(v, o); }
    forall o | o in m ensures Flat(v)[o] == m[o] { FlatShows(v, o); }
  }

  lemma SameFlat(v: View, w: View)
    ensures SameCoins(v, w) <==> Flat(v) == Flat(w)
  {
    if SameCoins(v, w) {
      forall o ensures Unspent(v, o) == if o in Flat(w) then Some(Flat(w)[o]) else None { FlatShows(w, o); }
      FlatFrom(v, Flat(w));
    }
    if Flat(v) == Flat(w) {
      forall o ensures Unspent(v, o) == Unspent(w, o) { FlatShows(v, o); FlatShows(w, o); }
    }
  }

  /** The maps of all levels, the top one first. */
  function Levels(v: View): (r: seq<Utxos>)
    ensures |r| == Depth(v) + 1
  {
    match v
    case Database(_) => [Flat(v)]
    case Cache(_, base) => [Flat(v)] + Levels(base)
  }

  // ---------------------------------------------------------------- fetching

  lemma {:induction false} LookupShows(v: View, o: OutPoint)
    ensures Unspent(v, o) == match Lookup(v, o) case None => None case Some(c) => Shown(c)
  {
    match v
    case Database(_) =>
    case Cache(entries, base) => LookupShows(base, o);
  }

  /** Fetching fills caches at every level and changes nothing that any level shows. */
  lemma {:induction false} FetchKeeps(v: View, o: OutPoint)
    requires Inv(v)
    ensures Inv(Fetch(v, o)) && SameCoins(v, Fetch(v, o)) && Levels(Fetch(v, o)) == Levels(v)
  {
    if v.Cache? && o !in v.entries {
      FetchKeeps(v.base, o);
      LookupShows(v.base, o);
      var b := Fetch(v.base, o);
      var r := Fetch(v, o);
      assert r.base == b;
      forall x ensures Unspent(v, x) == Unspent(r, x) { assert Unspent(v.base, x) == Unspent(b, x); }
      forall x | x in r.entries ensures EntryOk(r.entries[x], b, x) {
        assert Unspent(v.base, x) == Unspent(b, x);
      }
      SameFlat(v, r);
    }
  }

  // ---------------------------------------------------------------- the top cache

  lemma LevelsTop(v: View, w: View)
    requires v.Cache? && w.Cache? && Levels(w.base) == Levels(v.base)
    ensures Levels(w) == Levels(v)[0 := Flat(w)]
  {
  }

  /** Adding shows the coin, unless its script can never be spent. */
  lemma AddCoinRefines(v: View, o: OutPoint, c: Coin, overwrite: bool)
    requires v.Cache? && Inv(v) && !IsSpent(c) && (!overwrite ==> Unspent(v, o).None?)
    ensures var r := AddCoin(v, o, c, overwrite);
            && r.Done? && r.view.Cache? && Inv(r.view)
            && Levels(r.view) == Levels(v)[0 := if IsUnspendable(c.out.script) then Flat(v) else Flat(v)[o := c]]
  {
    var w := AddCoin(v, o, c, overwrite).view;
    if !IsUnspendable(c.out.script) {
      forall x ensures Unspent(w, x) == if x in Flat(v)[o := c] then Some(Flat(v)[o := c][x]) else None {
        FlatShows(v, x);
      }
      FlatFrom(w, Flat(v)[o := c]);
    }
    LevelsTop(v, w);
  }

  /**
   Without the overwrite flag, AddCoin keeps the invariant exactly when no unspent coin is shown.
   When one is, it either throws or leaves a FRESH entry over an unspent coin of the base.
   */
  lemma AddCoinNeedsNoCoin(v: View, o: OutPoint, c: Coin)
    requires v.Cache? && Inv(v) && !IsSpent(c) && !IsUnspendable(c.out.script)
    ensures var r := AddCoin(v, o, c, false); (r.Done? && Inv(r.view)) <==> Unspent(v, o).None?
    ensures AddCoin(v, o, c, false).Thrown? <==> o in v.entries && Unspent(v, o).Some?
  {
    var r := AddCoin(v, o, c, false);
    if Unspent(v, o).None? {
      AddCoinRefines(v, o, c, false);
    } else if r.Done? {
      assert r.view.entries[o].isFresh && !EntryOk(r.view.entries[o], r.view.base, o);
    }
  }

  /** Spending hides the coin; a FRESH entry may simply vanish because the base shows nothing. */
  lemma SpendCoinRefines(v: View, o: OutPoint)
    requires v.Cache? && Inv(v)
    ensures Inv(SpendCoin(v, o)) && Levels(SpendCoin(v, o)) == Levels(v)[0 := Flat(v) - {o}]
  {
    FetchKeeps(v, o);
    LookupShows(v, o);
    var f := Fetch(v, o);
    var w := SpendCoin(v, o);
    forall x ensures Unspent(w, x) == if x in Flat(v) - {o} then Some((Flat(v) - {o})[x]) else None {
      FlatShows(v, x);
      assert Unspent(f, x) == Unspent(v, x);
    }
    FlatFrom(w, Flat(v) - {o});
    assert Levels(w.base) == Levels(f.base) && Levels(f.base) == Levels(f)[1..];
    LevelsTop(v, w);
  }

  lemma UncacheRefines(v: View, o: OutPoint)
    requires v.Cache? && Inv(v)
    ensures Inv(Uncache(v, o)) && SameCoins(v, Uncache(v, o)) && Levels(Uncache(v, o)) == Levels(v)
  {
    var w := Uncache(v, o);
    forall x ensures Unspent(w, x) == Unspent(v, x) {
      if x == o && o in v.entries { assert EntryOk(v.entries[o], v.base, o); }
    }
    SameFlat(v, w);
    LevelsTop(v, w);
  }

  // ---------------------------------------------------------------- writing back

  /** The child entries that a cache on top of v may hold. */
  ghost predicate ChildOk(v: View, child: CoinsMap) {
    forall o :: o in child ==> EntryOk(child[o], v, o)
  }

  lemma NeverMisapplied(v: View, child: CoinsMap, o: OutPoint)
    requires ChildOk(v, child)
    ensures !Misapplied(v, child, o)
  {
    if o in child { assert EntryOk(child[o], v, o); }
  }

  /** After BatchWrite the parent shows what the child showed. */
  lemma BatchWriteShows(v: View, child: CoinsMap, o: OutPoint)
    requires Inv(v) && ChildOk(v, child)
    ensures Unspent(BatchWrite(v, child), o) == Unspent(Cache(child, v), o)
  {
    if o in child { assert EntryOk(child[o], v, o); }
    if v.Cache? && o in v.entries { assert EntryOk(v.entries[o], v.base, o); }
    match v
    case Database(coins) => assert o in BatchWrite(v, child).coins <==> Stored(child, coins, o).Some?;
    case Cache(entries, base) => assert o in BatchWrite(v, child).entries <==> Merged(child, entries, o).Some?;
  }

  lemma BatchWriteInv(v: View, child: CoinsMap)
    requires Inv(v) && ChildOk(v, child)
    ensures Inv(BatchWrite(v, child))
  {
    if v.Cache? {
      var w := BatchWrite(v, child);
      forall o | o in w.entries ensures EntryOk(w.entries[o], w.base, o) {
        assert Merged(child, v.entries, o).Some?;
        if o in child { assert EntryOk(child[o], v, o); }
        if o in v.entries { assert EntryOk(v.entries[o], v.base, o); }
      }
    }
  }

  lemma BatchWriteLevels(v: View, child: CoinsMap)
    requires Inv(v) && ChildOk(v, child)
    ensures Levels(BatchWrite(v, child)) == Levels(v)[0 := Flat(Cache(child, v))]
  {
    var w := BatchWrite(v, child);
    forall o ensures Unspent(w, o) == Unspent(Cache(child, v), o) { BatchWriteShows(v, child, o); }
    SameFlat(w, Cache(child, v));
    if v.Cache? { LevelsTop(v, w); }
  }

  /** Flushing empties the cache, gives its base the same coins, and never trips the FRESH check. */
  lemma FlushRefines(v: View)
    requires v.Cache? && Inv(v)
    ensures Inv(Flush(v)) && SameCoins(v, Flush(v))
    ensures Levels(Flush(v)) == Levels(v)[1 := Levels(v)[0]]
    ensures forall o :: !Misapplied(v.base, v.entries, o)
  {
    hide BatchWrite, Misapplied, Flat;
    var w := Flush(v);
    BatchWriteInv(v.base, v.entries);
    BatchWriteLevels(v.base, v.entries);
    forall o ensures !Misapplied(v.base, v.entries, o) { NeverMisapplied(v.base, v.entries, o); }
    forall o ensures Unspent(v, o) == Unspent(w, o) { BatchWriteShows(v.base, v.entries, o); }
    SameFlat(v, w);
  }

  // ---------------------------------------------------------------- at a given level

  /** Replacing the base by one that shows the same keeps everything above it. */
  lemma BaseReplaced(v: View, b: View)
    requires v.Cache? && Inv(v) && Inv(b) && SameCoins(v.base, b)
    ensures Inv(v.(base := b)) && SameCoins(v, v.(base := b)) && Flat(v.(base := b)) == Flat(v)
  {
    var w := v.(base := b);
    forall o | o in v.entries ensures EntryOk(w.entries[o], b, o) { assert EntryOk(v.entries[o], v.base, o); }
    forall o ensures Unspent(w, o) == Unspent(v, o) { assert Unspent(v.base, o) == Unspent(b, o); }
    SameFlat(v, w);
  }

  lemma {:induction false} FlushAtRefines(v: View, level: nat)
    requires level < Depth(v) && Inv(v)
    ensures Inv(FlushAt(v, level)) && SameCoins(v, FlushAt(v, level))
    ensures Levels(FlushAt(v, level)) == Levels(v)[level + 1 := Levels(v)[level]]
  {
    if level == 0 {
      FlushRefines(v);
    } else {
      FlushAtRefines(v.base, level - 1);
      BaseReplaced(v, FlushAt(v.base, level - 1));
    }
  }

  lemma {:induction false} UncacheAtRefines(v: View, level: nat, o: OutPoint)
    requires level < Depth(v) && Inv(v)
    ensures Inv(UncacheAt(v, level, o)) && SameCoins(v, UncacheAt(v, level, o))
    ensures Levels(UncacheAt(v, level, o)) == Levels(v)
  {
    if level == 0 {
      UncacheRefines(v, o);
    } else {
      UncacheAtRefines(v.base, level - 1, o);
      BaseReplaced(v, UncacheAt(v.base, level - 1, o));
    }
  }

  // ---------------------------------------------------------------- whole runs

  datatype Op =
    | Push
    | Discard
    | FetchCoin(o: OutPoint)
    | Add(o: OutPoint, coin: Coin, overwrite: bool)
    | Spend(o: OutPoint)
    | UncacheCoin(level: nat, o: OutPoint)
    | FlushCache(level: nat)

  /** Some flush of the stack would trip the "FRESH flag misapplied" exception. */
  ghost predicate FlushThrows(v: View, level: nat)
    requires level < Depth(v)
  {
    if level == 0 then exists o :: Misapplied(v.base, v.entries, o) else FlushThrows(v.base, level - 1)
  }

  ghost function Step(v: View, op: Op): Outcome
    requires Depth(v) > 0
  {
    match op
    case Push => Done(Cache(map[], v))
    case Discard => Done(v.base)
    case FetchCoin(o) => Done(Fetch(v, o))
    case Add(o, c, overwrite) => AddCoin(v, o, c, overwrite)
    case Spend(o) => Done(SpendCoin(v, o))
    case UncacheCoin(level, o) => if level < Depth(v) then Done(UncacheAt(v, level, o)) else Done(v)
    case FlushCache(level) =>
      if level >= Depth(v) then Done(v) else if FlushThrows(v, level) then Thrown else Done(FlushAt(v, level))
  }

  /** The same operation on a stack of plain maps. */
  function FlatStep(levels: seq<Utxos>, op: Op): seq<Utxos>
    requires |levels| > 1
  {
    match op
    case Push => [levels[0]] + levels
    case Discard => levels[1..]
    case Add(o, c, _) => if IsUnspendable(c.out.script) then levels else levels[0 := levels[0][o := c]]
    case Spend(o) => levels[0 := levels[0] - {o}]
    case FlushCache(level) => if level + 1 < |levels| then levels[level + 1 := levels[level]] else levels
    case _ => levels
  }

  /** What AddCoin asks of its callers, judged on the plain maps. */
  predicate Legal(levels: seq<Utxos>, op: Op) {
    |levels| > 1 && (op.Add? ==> !IsSpent(op.coin) && (op.overwrite || op.o !in levels[0]))
  }

  lemma {:induction false} FlushNeverThrows(v: View, level: nat)
    requires level < Depth(v) && Inv(v)
    ensures !FlushThrows(v, level)
  {
    if level == 0 { FlushRefines(v); } else { FlushNeverThrows(v.base, level - 1); }
  }

  lemma StepRefines(v: View, op: Op)
    requires Inv(v) && Legal(Levels(v), op)
    ensures var r := Step(v, op);
            r.Done? && Inv(r.view) && Levels(r.view) == FlatStep(Levels(v), op)
  {
    match op
    case Push =>
      var w := Cache(map[], v);
      forall o ensures Unspent(w, o) == Unspent(v, o) {}
      SameFlat(v, w);
    case Discard =>
    case FetchCoin(o) => FetchKeeps(v, o);
    case Add(o, c, overwrite) => FlatShows(v, o); AddCoinRefines(v, o, c, overwrite);
    case Spend(o) => SpendCoinRefines(v, o);
    case UncacheCoin(level, o) => if level < Depth(v) { UncacheAtRefines(v, level, o); }
    case FlushCache(level) => if level < Depth(v) { FlushNeverThrows(v, level); FlushAtRefines(v, level); }
  }

  ghost predicate LegalRun(levels: seq<Utxos>, ops: seq<Op>)
    decreases |ops|
  {
    ops == [] || (Legal(levels, ops[0]) && LegalRun(FlatStep(levels, ops[0]), ops[1..]))
  }

  ghost function FlatRun(levels: seq<Utxos>, ops: seq<Op>): seq<Utxos>
    requires LegalRun(levels, ops)
    decreases |ops|
  {
    if ops == [] then levels else FlatRun(FlatStep(levels, ops[0]), ops[1..])
  }

  ghost function Run(v: View, ops: seq<Op>): Outcome
    decreases |ops|
  {
    if ops == [] then Done(v)
    else if Depth(v) == 0 then Thrown
    else match Step(v, ops[0]) case Thrown => Thrown case Done(w) => Run(w, ops[1..])
  }

  /**
   Any stack of caches, any legal sequence of operations: no exception, every level shows the coins
   of its plain map, and FRESH still means that the parent shows none.
   */
  lemma {:induction false} RunRefines(v: View, ops: seq<Op>)
    requires Inv(v) && LegalRun(Levels(v), ops)
    ensures var r := Run(v, ops);
            r.Done? && Inv(r.view) && Levels(r.view) == FlatRun(Levels(v), ops)
    decreases |ops|
  {
    if ops != [] {
      StepRefines(v, ops[0]);
      RunRefines(Step(v, ops[0]).view, ops[1..]);
    }
  }

  /** A new cache over any database is a legal place to start. */
  lemma NewStackInv(coins: map<OutPoint, Coin>)
    ensures Inv(Cache(map[], Database(coins))) && Legal(Levels(Cache(map[], Database(coins))), Push)
  {
  }

  /** Every legal run from a new cache over any database refines the flat maps and never throws. */
  lemma NewStackRuns(coins: map<OutPoint, Coin>, ops: seq<Op>)
    requires var m := Flat(Database(coins)); LegalRun([m, m], ops)
    ensures var m := Flat(Database(coins)); var r := Run(Cache(map[], Database(coins)), ops);
            r.Done? && Inv(r.view) && Levels(r.view) == FlatRun([m, m], ops)
  {
    hide LegalRun, FlatRun, Run;
    var v := Cache(map[], Database(coins));
    NewStackInv(coins);
    SameFlat(v, Database(coins));
    assert Levels(v) == [Flat(v), Flat(Database(coins))];
    RunRefines(v, ops);
  }

  /** The caller's obligation is needed: an illegal AddCoin goes unnoticed and the next Flush throws. */
  lemma IllegalAddThrowsLater(o: OutPoint, c: Coin)
    requires !IsSpent(c) && !IsUnspendable(c.out.script)
    ensures var parent := Cache(map[o := Entry(c, false, false)], Database(map[o := c]));
            var v := Cache(map[], parent);
            && Inv(v) && !Legal(Levels(v), Add(o, c, false))
            && Step(v, Add(o, c, false)).Done?
            && Step(Step(v, Add(o, c, false)).view, FlushCache(0)).Thrown?
  {
    var parent := Cache(map[o := Entry(c, false, false)], Database(map[o := c]));
    var v := Cache(map[], parent);
    FlatShows(v, o);
    var w := Step(v, Add(o, c, false)).view;
    assert Misapplied(w.base, w.entries, o);
  }
}
