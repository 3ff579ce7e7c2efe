/**
 What one call does to the cuckoo cache, slot by slot: which slot an insertion writes, which element
 the eviction loop takes out next, and which slot an erasing lookup gives away.
 */
module CuckooEffects {
  import opened Basics
  import opened CuckooModel
  import opened CuckooProofs

  /** Slot i of t holds e, live, in the current epoch or not. */
  ghost predicate Stores<E>(t: State<E>, i: nat, e: E, recent: bool)
    requires Shape(t)
  {
    i < |t.table| && t.table[i] == e && !t.garbage[i] && t.recent[i] == recent
  }

  ghost predicate SameSlot<E>(s: State<E>, t: State<E>, j: nat)
    requires Shape(s) && Shape(t) && j < |s.table| == |t.table|
  {
    t.table[j] == s.table[j] && t.garbage[j] == s.garbage[j] && t.recent[j] == s.recent[j]
  }

  /** No slot but i differs between s and t. */
  ghost predicate OnlySlot<E>(s: State<E>, t: State<E>, i: nat)
    requires Shape(s) && Shape(t) && |t.table| == |s.table|
  {
    forall j: nat :: j < |s.table| && j != i ==> SameSlot(s, t, j)
  }

  /** e is stored at the location of way k and at no location of an earlier way. */
  ghost predicate FirstHeld<E>(s: State<E>, e: E, k: nat)
    requires Shape(s)
  {
    k < WAYS && s.table[Loc(s, e, k)] == e && forall j: nat :: j < k ==> s.table[Loc(s, e, j)] != e
  }

  /** e is stored at none of its locations. */
  ghost predicate Missing<E>(s: State<E>, e: E)
    requires Shape(s)
  {
    forall j: nat :: j < WAYS ==> s.table[Loc(s, e, j)] != e
  }

  /** The location of way k may be overwritten, and that of no earlier way may. */
  ghost predicate FirstFree<E>(s: State<E>, e: E, k: nat)
    requires Shape(s)
  {
    k < WAYS && s.garbage[Loc(s, e, k)] && forall j: nat :: j < k ==> !s.garbage[Loc(s, e, j)]
  }

  /** No location of e may be overwritten. */
  ghost predicate Full<E>(s: State<E>, e: E)
    requires Shape(s)
  {
    forall j: nat :: j < WAYS ==> !s.garbage[Loc(s, e, j)]
  }

  /** An element that is stored already stays where it is, live and in the current epoch. */
  lemma InsertPresent<E>(s: State<E>, e: E, k: nat)
    requires Shape(s) && FirstHeld(s, e, k)
    ensures var r := Insert(s, e);
            Stores(r, Loc(s, e, k), e, true) && OnlySlot(EpochCheck(s), r, Loc(s, e, k)) && r.table == s.table
  {
    var c := EpochCheck(s);
    assert forall j: nat :: Loc(c, e, j) == Loc(s, e, j);
    assert FindPresent(c, e, 0) == k;
    assert c.table[Loc(c, e, k) := e] == c.table;
  }

  /** A missing element goes to the first of its locations that may be overwritten. */
  lemma InsertFree<E>(s: State<E>, e: E, k: nat)
    requires Shape(s) && s.depthLimit > 0 && Missing(s, e) && FirstFree(EpochCheck(s), e, k)
    ensures var r := Insert(s, e);
            Stores(r, Loc(s, e, k), e, true) && OnlySlot(EpochCheck(s), r, Loc(s, e, k))
  {
    var c := EpochCheck(s);
    assert forall j: nat :: Loc(c, e, j) == Loc(s, e, j);
    assert FindPresent(c, e, 0) == WAYS;
    assert FindGarbage(c, e, 0) == k;
  }

  /** With no such location the first element taken out is the one at the second location. */
  lemma InsertEvicts<E>(s: State<E>, e: E)
    requires Shape(s) && s.depthLimit > 0 && Missing(s, e) && Full(EpochCheck(s), e)
    ensures var c := EpochCheck(s);
            var i := Loc(s, e, 1);
            && Stores(Swapped(c, i, e, true), i, e, true) && OnlySlot(c, Swapped(c, i, e, true), i)
            && Insert(s, e) == Displace(Swapped(c, i, e, true), s.table[i], c.recent[i], i, s.depthLimit - 1)
  {
    var c := EpochCheck(s);
    assert forall j: nat :: Loc(c, e, j) == Loc(s, e, j);
    assert FindPresent(c, e, 0) == WAYS;
    assert FindGarbage(c, e, 0) == WAYS;
    assert FindWay(c, e, -1, 0) == WAYS;
  }

  /**
   An element in hand that was taken from its way w is put where the next way leads, and what was there
   is taken out with its own epoch flag; unless a location may be overwritten, where the loop ends.
   */
  lemma EvictionContinues<E>(s: State<E>, e: E, recent: bool, w: nat, depth: nat)
    requires Shape(s) && depth > 0 && Full(s, e)
    requires w < WAYS && forall j: nat :: j < w ==> Loc(s, e, j) != Loc(s, e, w)
    ensures var i := Loc(s, e, (w + 1) % WAYS);
            && Displace(s, e, recent, Loc(s, e, w), depth)
               == Displace(Swapped(s, i, e, recent), s.table[i], s.recent[i], i, depth - 1)
            && OnlySlot(s, Swapped(s, i, e, recent), i)
  {
    assert FindGarbage(s, e, 0) == WAYS;
    assert FindWay(s, e, Loc(s, e, w), 0) == w;
  }

  lemma EvictionEnds<E>(s: State<E>, e: E, recent: bool, last: int, k: nat, depth: nat)
    requires Shape(s) && depth > 0 && FirstFree(s, e, k)
    ensures var r := Displace(s, e, recent, last, depth);
            Stores(r, Loc(s, e, k), e, recent) && OnlySlot(s, r, Loc(s, e, k))
  {
    assert FindGarbage(s, e, 0) == k;
  }

  /**
   The element just put in is not the next to be moved, if the eight locations of the evicted element
   differ: the next slot is another one.
   */
  lemma NotMovedBack<E>(s: State<E>, x: E, w: nat)
    requires Shape(s) && w < WAYS
    requires forall j: nat, k: nat :: j < k < WAYS ==> Loc(s, x, j) != Loc(s, x, k)
    ensures (1 + FindWay(s, x, Loc(s, x, w), 0)) % WAYS == (w + 1) % WAYS
    ensures Loc(s, x, (w + 1) % WAYS) != Loc(s, x, w)
  {
    assert FindWay(s, x, Loc(s, x, w), 0) == w;
  }

  /** An erasing lookup flags the first slot that holds the element, and changes nothing else. */
  lemma EraseExact<E>(s: State<E>, e: E)
    requires Shape(s)
    ensures Missing(s, e) ==> !Contains(s, e) && Erase(s, e) == s
    ensures forall k: nat :: FirstHeld(s, e, k) ==>
              && Contains(s, e)
              && Erase(s, e) == s.(garbage := Erase(s, e).garbage) && Erase(s, e).garbage[Loc(s, e, k)]
              && OnlySlot(s, Erase(s, e), Loc(s, e, k))
  {
    forall k: nat | FirstHeld(s, e, k)
      ensures FindPresent(s, e, 0) == k
    {
    }
  }

  lemma EpochSizeRange(size: nat)
    requires 3 <= size <= 0x400_0000
    ensures 45 * size - 100 < 100 * EpochSize(size) <= 45 * size
  {
  }

  lemma TableSizes(depthLimit: nat)
    requires 5 <= depthLimit <= 26
    ensures 32 <= Pow2(depthLimit) <= 0x400_0000
  {
    Pow2Grows(5, depthLimit);
    Pow2Grows(depthLimit, 26);
    assert Pow2(5) == 32;
    assert Pow2(16) == 0x1_0000;
    assert Pow2(26) == 0x400_0000;
  }

  /** A cache that has just been set up holds nothing live and waits for a whole epoch, 45% of its slots. */
  lemma SetupExact<E>(hash: (nat, E) -> nat, depthLimit: nat, blank: E)
    requires 5 <= depthLimit <= 26
    ensures var s := Setup(hash, depthLimit, blank);
            && |s.table| == Pow2(depthLimit) && Live(s) == iset{} && s.counter == s.epochSize
            && 45 * |s.table| - 100 < 100 * s.epochSize <= 45 * |s.table|
  {
    hide EpochSize, Pow2;
    TableSizes(depthLimit);
    EpochSizeRange(Pow2(depthLimit));
    var s := Setup(hash, depthLimit, blank);
    assert forall i: nat :: i < |s.table| ==> s.garbage[i];
  }
}
