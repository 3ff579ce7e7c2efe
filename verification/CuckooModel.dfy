/**
 The cuckoo cache as a value. Slots flagged as garbage may be overwritten; slots flagged as recent
 belong to the current epoch. The eight hash functions are arbitrary.
 */
module CuckooModel {
  import opened Basics

  const WAYS: nat := 8

  datatype State<!E> = State(
    hash: (nat, E) -> nat,
    table: seq<E>,
    garbage: seq<bool>,
    recent: seq<bool>,
    counter: nat,
    epochSize: nat,
    depthLimit: nat)

  ghost predicate Shape<E>(s: State<E>) {
    |s.table| > 0 && |s.garbage| == |s.table| && |s.recent| == |s.table|
  }

  /** The k-th location of e; the size is a power of two, so masking is reduction modulo the size. */
  function Loc<E>(s: State<E>, e: E, k: nat): (i: nat)
    requires Shape(s)
    ensures i < |s.table|
  {
    s.hash(k, e) % |s.table|
  }

  function FindPresent<E(==)>(s: State<E>, e: E, k: nat): (r: nat)
    requires Shape(s) && k <= WAYS
    ensures k <= r <= WAYS
    ensures r < WAYS ==> s.table[Loc(s, e, r)] == e
    ensures forall j :: k <= j < r ==> s.table[Loc(s, e, j)] != e
    decreases WAYS - k
  {
    if k == WAYS || s.table[Loc(s, e, k)] == e then k else FindPresent(s, e, k + 1)
  }

  function FindGarbage<E>(s: State<E>, e: E, k: nat): (r: nat)
    requires Shape(s) && k <= WAYS
    ensures k <= r <= WAYS
    ensures r < WAYS ==> s.garbage[Loc(s, e, r)]
    ensures forall j :: k <= j < r ==> !s.garbage[Loc(s, e, j)]
    decreases WAYS - k
  {
    if k == WAYS || s.garbage[Loc(s, e, k)] then k else FindGarbage(s, e, k + 1)
  }

  /** The first way of e that leads to location `last`, or WAYS (std::find's end). */
  function FindWay<E>(s: State<E>, e: E, last: int, k: nat): (r: nat)
    requires Shape(s) && k <= WAYS
    ensures k <= r <= WAYS
    ensures r < WAYS ==> Loc(s, e, r) == last
    ensures forall j :: k <= j < r ==> Loc(s, e, j) != last
    decreases WAYS - k
  {
    if k == WAYS || Loc(s, e, k) == last then k else FindWay(s, e, last, k + 1)
  }

  /** Store e at i as live, in the current epoch or not. */
  function Put<E>(s: State<E>, i: nat, e: E, recent: bool): (r: State<E>)
    requires Shape(s) && i < |s.table|
    ensures Shape(r) && |r.table| == |s.table|
  {
    s.(table := s.table[i := e], garbage := s.garbage[i := false], recent := s.recent[i := recent])
  }

  ghost function RecentLive<E>(s: State<E>): set<nat>
    requires Shape(s)
  {
    set i: nat | i < |s.table| && s.recent[i] && !s.garbage[i]
  }

  ghost function OldLive<E>(s: State<E>): set<nat>
    requires Shape(s)
  {
    set i: nat | i < |s.table| && !s.recent[i] && !s.garbage[i]
  }

  /** All slots of the old epoch become garbage, all of the current one become old. */
  function Age<E>(s: State<E>): (r: State<E>)
    requires |s.garbage| == |s.recent|
  {
    s.(garbage := seq(|s.garbage|, i requires 0 <= i < |s.garbage| => s.garbage[i] || !s.recent[i]),
       recent := seq(|s.recent|, _ => false), counter := s.epochSize)
  }

  ghost function EpochCheck<E>(s: State<E>): (r: State<E>)
    requires Shape(s)
    ensures Shape(r) && |r.table| == |s.table| && r.table == s.table && r.hash == s.hash
  {
    if s.counter != 0 then s.(counter := s.counter - 1)
    else if |RecentLive(s)| >= s.epochSize then Age(s)
    else s.(counter := Max(1, Max(s.epochSize / 16, s.epochSize - |RecentLive(s)|)))
  }

  /** The eviction loop with `depth` rounds left: e is in hand, `last` is where it was taken from. */
  function Displace<E>(s: State<E>, e: E, recent: bool, last: int, depth: nat): (r: State<E>)
    requires Shape(s)
    ensures Shape(r) && |r.table| == |s.table|
    decreases depth
  {
    if depth == 0 then s else
      var k := FindGarbage(s, e, 0);
      if k < WAYS then Put(s, Loc(s, e, k), e, recent)
      else
        var i := Loc(s, e, (1 + FindWay(s, e, last, 0)) % WAYS);
        Displace(s.(table := s.table[i := e], recent := s.recent[i := recent]), s.table[i], s.recent[i], i, depth - 1)
  }

  /** The element the eviction loop drops, if it runs out of depth. */
  function Dropped<E>(s: State<E>, e: E, recent: bool, last: int, depth: nat): (d: E)
    requires Shape(s)
    decreases depth
  {
    if depth == 0 || FindGarbage(s, e, 0) < WAYS then e else
      var i := Loc(s, e, (1 + FindWay(s, e, last, 0)) % WAYS);
      Dropped(s.(table := s.table[i := e], recent := s.recent[i := recent]), s.table[i], s.recent[i], i, depth - 1)
  }

  ghost function Insert<E>(s: State<E>, e: E): (r: State<E>)
    requires Shape(s)
    ensures Shape(r) && |r.table| == |s.table|
  {
    var c := EpochCheck(s);
    var k := FindPresent(c, e, 0);
    if k < WAYS then Put(c, Loc(c, e, k), e, true)
    else Displace(c, e, true, -1, c.depthLimit)
  }

  predicate Contains<E(==)>(s: State<E>, e: E)
    requires Shape(s)
  {
    FindPresent(s, e, 0) < WAYS
  }

  /** contains(e, true): a hit becomes garbage. */
  function Erase<E(==)>(s: State<E>, e: E): (r: State<E>)
    requires Shape(s)
    ensures Shape(r)
  {
    var k := FindPresent(s, e, 0);
    if k < WAYS then s.(garbage := s.garbage[Loc(s, e, k) := true]) else s
  }

  // ---------------------------------------------------------------- setup

  /** 45% of the size, in 32-bit arithmetic. */
  function EpochSize(size: nat): (r: nat)
    ensures r >= 1
  {
    Max(1, (45 * size % 0x1_0000_0000) / 100)
  }

  /** setup: `blank` is the default element, every slot starts as garbage. */
  function Setup<E>(hash: (nat, E) -> nat, depthLimit: nat, blank: E): (s: State<E>)
    ensures Shape(s)
  {
    var size := Pow2(depthLimit);
    State(hash, seq(size, _ => blank), seq(size, _ => true), seq(size, _ => false),
          EpochSize(size), EpochSize(size), depthLimit)
  }
}
