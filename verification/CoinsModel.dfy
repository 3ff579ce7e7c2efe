/**
 The stack of coin views as a value: a database of coins with any number of write-back caches on
 top, and the operations of CCoinsViewCache as functions from stack to stack.
 */
module CoinsModel {
  import opened Basics

  const OP_RETURN: nat := 0x6a
  const MAX_SCRIPT_SIZE: nat := 10000

  datatype OutPoint = OutPoint(hash: nat, n: nat)
  datatype TxOut = TxOut(value: int, script: seq<nat>, rounds: int)
  datatype Coin = Coin(out: TxOut, height: nat, coinBase: bool, coinStake: bool)

  /** What Coin() and Clear() leave behind. */
  const NO_COIN: Coin := Coin(TxOut(-1, [], -10), 0, false, false)

  predicate IsSpent(c: Coin) {
    c.out.value == -1
  }

  predicate IsUnspendable(script: seq<nat>) {
    (|script| > 0 && script[0] == OP_RETURN) || |script| > MAX_SCRIPT_SIZE
  }

  datatype Entry = Entry(coin: Coin, isDirty: bool, isFresh: bool)

  type CoinsMap = map<OutPoint, Entry>

  datatype View = Database(coins: map<OutPoint, Coin>) | Cache(entries: CoinsMap, base: View)

  // ---------------------------------------------------------------- reading

  /** GetCoin's answer; it may be a spent coin that a cache remembers. */
  function Lookup(v: View, o: OutPoint): Option<Coin> {
    match v
    case Database(coins) => if o in coins then Some(coins[o]) else None
    case Cache(entries, base) => if o in entries then Some(entries[o].coin) else Lookup(base, o)
  }

  /** FetchCoin: every cache on the way copies what its base delivers. */
  function Fetch(v: View, o: OutPoint): (r: View)
    ensures r.Cache? == v.Cache?
    ensures v.Cache? ==> (o in r.entries <==> Lookup(v, o).Some?)
  {
    match v
    case Database(_) => v
    case Cache(entries, base) =>
      if o in entries then v else
        var b := Fetch(base, o);
        match Lookup(base, o)
        case None => Cache(entries, b)
        case Some(c) => Cache(entries[o := Entry(c, false, IsSpent(c))], b)
  }

  // ---------------------------------------------------------------- changing the top cache

  datatype Outcome = Done(view: View) | Thrown

  function AddCoin(v: View, o: OutPoint, c: Coin, overwrite: bool): Outcome
    requires v.Cache?
  {
    if IsUnspendable(c.out.script) then Done(v) else
      var e := if o in v.entries then v.entries[o] else Entry(NO_COIN, false, false);
      if !overwrite && !IsSpent(e.coin) then Thrown else
        var newly := !overwrite && !e.isDirty;
        Done(v.(entries := v.entries[o := Entry(c, true, e.isFresh || newly)]))
  }

  function SpendCoin(v: View, o: OutPoint): (r: View)
    requires v.Cache?
    ensures r.Cache?
  {
    var f := Fetch(v, o);
    if o !in f.entries then f
    else if f.entries[o].isFresh then f.(entries := f.entries - {o})
    else f.(entries := f.entries[o := Entry(NO_COIN, true, false)])
  }

  function Uncache(v: View, o: OutPoint): (r: View)
    requires v.Cache?
    ensures r.Cache?
  {
    if o in v.entries && !v.entries[o].isDirty && !v.entries[o].isFresh then v.(entries := v.entries - {o}) else v
  }

  // ---------------------------------------------------------------- writing back

  /** CCoinsViewDB::BatchWrite for one outpoint. */
  function Stored(child: CoinsMap, coins: map<OutPoint, Coin>, o: OutPoint): Option<Coin> {
    if o in child && child[o].isDirty then (if IsSpent(child[o].coin) then None else Some(child[o].coin))
    else if o in coins then Some(coins[o]) else None
  }

  /** CCoinsViewCache::BatchWrite for one outpoint. */
  function Merged(child: CoinsMap, mine: CoinsMap, o: OutPoint): Option<Entry> {
    if !(o in child && child[o].isDirty) then (if o in mine then Some(mine[o]) else None)
    else
      var c := child[o];
      if o !in mine then
        if c.isFresh && IsSpent(c.coin) then None else Some(Entry(c.coin, true, c.isFresh))
      else if mine[o].isFresh && IsSpent(c.coin) then None
      else Some(Entry(c.coin, true, mine[o].isFresh))
  }

  function BatchWrite(v: View, child: CoinsMap): (r: View)
    ensures r.Cache? == v.Cache?
  {
    match v
    case Database(coins) =>
      Database(map o | o in coins.Keys + child.Keys && Stored(child, coins, o).Some? :: Stored(child, coins, o).value)
    case Cache(entries, base) =>
      Cache(map o | o in entries.Keys + child.Keys && Merged(child, entries, o).Some? :: Merged(child, entries, o).value, base)
  }

  /** The child's FRESH flag contradicts an unspent coin of the parent cache: BatchWrite throws. */
  predicate Misapplied(v: View, child: CoinsMap, o: OutPoint) {
    v.Cache? && o in child && child[o].isDirty && child[o].isFresh && o in v.entries && !IsSpent(v.entries[o].coin)
  }

  function Flush(v: View): (r: View)
    requires v.Cache?
    ensures r.Cache?
  {
    Cache(map[], BatchWrite(v.base, v.entries))
  }

  // ---------------------------------------------------------------- the same at a given depth

  function Depth(v: View): nat {
    match v
    case Database(_) => 0
    case Cache(_, base) => 1 + Depth(base)
  }

  function FlushAt(v: View, level: nat): (r: View)
    requires level < Depth(v)
    ensures r.Cache?
  {
    if level == 0 then Flush(v) else v.(base := FlushAt(v.base, level - 1))
  }

  function UncacheAt(v: View, level: nat, o: OutPoint): (r: View)
    requires level < Depth(v)
    ensures r.Cache?
  {
    if level == 0 then Uncache(v, o) else v.(base := UncacheAt(v.base, level - 1, o))
  }
}
