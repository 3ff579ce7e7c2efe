/**
 The cuckoo cache as an object, with its bit-packed garbage flags, scanning and eviction loops.
 */
module CuckooCache {
  import opened Basics
  import opened CuckooModel
  import opened CuckooProofs

  // ---------------------------------------------------------------- bit_packed_atomic_flags

  /** The bit of a byte that belongs to index s. */
  function Mask(s: nat): bv8 {
    (1 as bv8) << (s % 8)
  }

  predicate BitIsSet(mem: seq<bv8>, s: nat)
    requires s / 8 < |mem|
  {
    Mask(s) & mem[s / 8] != 0
  }

  function BitSet(mem: seq<bv8>, s: nat): (r: seq<bv8>)
    requires s / 8 < |mem|
    ensures |r| == |mem|
  {
    mem[s / 8 := mem[s / 8] | Mask(s)]
  }

  function BitUnset(mem: seq<bv8>, s: nat): (r: seq<bv8>)
    requires s / 8 < |mem|
    ensures |r| == |mem|
  {
    mem[s / 8 := mem[s / 8] & !Mask(s)]
  }

  lemma BytesIndependent(a: bv8, m: bv8, n: bv8)
    requires m != 0 && n & m == 0
    ensures m & (a | m) != 0 && m & (a & !m) == 0
    ensures n & (a | m) == n & a && n & (a & !m) == n & a
  {
  }

  lemma MaskFacts(s: nat, t: nat)
    ensures Mask(s) != 0
    ensures s % 8 != t % 8 ==> Mask(t) & Mask(s) == 0
  {
  }

  /** Setting or clearing one flag changes that flag and no other. */
  lemma FlagsIndependent(mem: seq<bv8>, s: nat, t: nat)
    requires s / 8 < |mem| && t / 8 < |mem|
    ensures BitIsSet(BitSet(mem, s), s) && !BitIsSet(BitUnset(mem, s), s)
    ensures t != s ==> BitIsSet(BitSet(mem, s), t) == BitIsSet(mem, t)
    ensures t != s ==> BitIsSet(BitUnset(mem, s), t) == BitIsSet(mem, t)
  {
    MaskFacts(s, t);
    BytesIndependent(mem[s / 8], Mask(s), 0);
    if t != s && t / 8 == s / 8 {
      BytesIndependent(mem[s / 8], Mask(s), Mask(t));
    }
  }

  /** The first n flags. */
  ghost function FlagSeq(mem: seq<bv8>, n: nat): seq<bool>
    requires n <= 8 * |mem|
  {
    seq(n, i requires 0 <= i < n => BitIsSet(mem, i))
  }

  lemma FlagSeqUpdate(mem: seq<bv8>, n: nat, i: nat)
    requires i < n <= 8 * |mem|
    ensures FlagSeq(BitSet(mem, i), n) == FlagSeq(mem, n)[i := true]
    ensures FlagSeq(BitUnset(mem, i), n) == FlagSeq(mem, n)[i := false]
  {
    hide BitIsSet, BitSet, BitUnset;
    forall j | 0 <= j < n
      ensures FlagSeq(BitSet(mem, i), n)[j] == FlagSeq(mem, n)[i := true][j]
      ensures FlagSeq(BitUnset(mem, i), n)[j] == FlagSeq(mem, n)[i := false][j]
    {
      FlagsIndependent(mem, i, j);
    }
  }

  lemma FreshFlags(n: nat, m: nat)
    requires m <= 8 * n
    ensures FlagSeq(seq(n, _ => 0xFF), m) == seq(m, _ => true)
  {
    var mem := seq(n, _ => 0xFF as bv8);
    forall j | 0 <= j < m ensures BitIsSet(mem, j) {
      MaskFacts(j, j);
      AllOnes(Mask(j));
      assert mem[j / 8] == 0xFF;
    }
  }

  lemma AllOnes(x: bv8)
    ensures x & 0xFF == x
  {
  }

  // ---------------------------------------------------------------- cache

  class Cache<E(==,!new)> {
    const hash: (nat, E) -> nat
    const epochSize: nat
    const depthLimit: nat
    var table: seq<E>
    var mem: seq<bv8>
    var epochFlags: seq<bool>
    var counter: nat

    ghost predicate Valid()
      reads this
    {
      |table| > 0 && |epochFlags| == |table| && |table| <= 8 * |mem|
    }

    ghost function Model(): (s: State<E>)
      requires Valid()
      reads this
      ensures Shape(s)
    {
      State(hash, table, FlagSeq(mem, |table|), epochFlags, counter, epochSize, depthLimit)
    }

    /** setup, for the depth limit it derived from the requested size. */
    constructor (hash: (nat, E) -> nat, depthLimit: nat, blank: E)
      ensures Valid() && Model() == Setup(hash, depthLimit, blank)
    {
      var size := Pow2(depthLimit);
      this.hash, this.depthLimit := hash, depthLimit;
      table := seq(size, _ => blank);
      mem := seq((size + 7) / 8, _ => 0xFF);
      epochFlags := seq(size, _ => false);
      epochSize := EpochSize(size);
      counter := EpochSize(size);
      new;
      FreshFlags((size + 7) / 8, size);
    }

    method AllowErase(i: nat)
      requires Valid() && i < |table|
      modifies `mem
      ensures Valid() && Model() == old(Model()).(garbage := old(Model()).garbage[i := true])
    {
      FlagSeqUpdate(mem, |table|, i);
      hide FlagSeq;
      mem := BitSet(mem, i);
    }

    method PleaseKeep(i: nat)
      requires Valid() && i < |table|
      modifies `mem
      ensures Valid() && Model() == old(Model()).(garbage := old(Model()).garbage[i := false])
    {
      FlagSeqUpdate(mem, |table|, i);
      hide FlagSeq;
      mem := BitUnset(mem, i);
    }

    /** The scan of epoch_check: entries of the current epoch that are not erased. */
    method CountRecent() returns (n: nat)
      requires Valid()
      ensures n == |RecentLive(Model())|
    {
      hide BitIsSet, RecentBelow, RecentLive;
      n := 0;
      RecentEnds(Model());
      for i := 0 to |table|
        invariant n == |RecentBelow(Model(), i)|
      {
        RecentNext(Model(), i);
        if epochFlags[i] && !BitIsSet(mem, i) {
          n := n + 1;
        }
      }
    }

    /** The aging loop of epoch_check. */
    method AgeEpochs()
      requires Valid()
      modifies `mem, `epochFlags
      ensures Valid() && Model() == Age(old(Model())).(counter := counter)
    {
      hide BitIsSet, FlagSeq;
      ghost var s := Model();
      for i := 0 to |table|
        invariant Valid() && AgedTo(s, Model(), i)
      {
        if epochFlags[i] {
          epochFlags := epochFlags[i := false];
        } else {
          AllowErase(i);
        }
      }
    }

    method CheckEpoch()
      requires Valid()
      modifies `mem, `epochFlags, `counter
      ensures Valid() && Model() == EpochCheck(old(Model()))
    {
      hide FlagSeq;
      if counter != 0 {
        counter := counter - 1;
        return;
      }
      var unused := CountRecent();
      if unused >= epochSize {
        AgeEpochs();
        counter := epochSize;
      } else {
        counter := Max(1, Max(epochSize / 16, epochSize - unused));
      }
    }

    method InsertElement(e: E)
      requires Valid()
      modifies `table, `mem, `epochFlags, `counter
      ensures Valid() && Model() == Insert(old(Model()), e)
    {
      hide FlagSeq, EpochCheck, Loc, Displace;
      CheckEpoch();
      ghost var c := Model();
      var k := 0;
      while k < WAYS
        invariant k <= WAYS && Valid() && Model() == c
        invariant FindPresent(c, e, 0) == FindPresent(c, e, k)
      {
        var loc := hash(k, e) % |table|;
        LocIs(c, e, k);
        if table[loc] == e {
          PleaseKeep(loc);
          epochFlags := epochFlags[loc := true];
          assert c.table[loc := e] == c.table;
          return;
        }
        k := k + 1;
      }
      Evict(e);
    }

    /** The eviction loop of insert. */
    method Evict(x: E)
      requires Valid()
      modifies `table, `mem, `epochFlags
      ensures Valid() && Model() == Displace(old(Model()), x, true, -1, depthLimit)
    {
      hide FlagSeq, Loc, FindGarbage, FindWay, Displace;
      ghost var c := Model();
      var e, lastEpoch, lastLoc := x, true, -1;
      var depth := 0;
      while depth < depthLimit
        invariant depth <= depthLimit && Valid()
        invariant Displace(Model(), e, lastEpoch, lastLoc, depthLimit - depth) == Displace(c, x, true, -1, depthLimit)
      {
        DisplaceUnfold(Model(), e, lastEpoch, lastLoc, depthLimit - depth);
        var free := FreeWay(e);
        if free < WAYS {
          var loc := hash(free, e) % |table|;
          LocIs(Model(), e, free);
          table := table[loc := e];
          PleaseKeep(loc);
          epochFlags := epochFlags[loc := lastEpoch];
          return;
        }
        var way := WayTo(e, lastLoc);
        LocIs(Model(), e, (1 + way) % WAYS);
        lastLoc := hash((1 + way) % WAYS, e) % |table|;
        var evicted := table[lastLoc];
        table := table[lastLoc := e];
        e := evicted;
        var epoch := lastEpoch;
        lastEpoch := epochFlags[lastLoc];
        epochFlags := epochFlags[lastLoc := epoch];
        depth := depth + 1;
      }
      DisplaceUnfold(Model(), e, lastEpoch, lastLoc, 0);
    }

    method FreeWay(e: E) returns (k: nat)
      requires Valid()
      ensures k == FindGarbage(Model(), e, 0)
    {
      hide BitIsSet, Loc;
      k := 0;
      while k < WAYS
        invariant k <= WAYS && FindGarbage(Model(), e, 0) == FindGarbage(Model(), e, k)
      {
        LocIs(Model(), e, k);
        if BitIsSet(mem, hash(k, e) % |table|) {
          return;
        }
        k := k + 1;
      }
    }

    method WayTo(e: E, last: int) returns (k: nat)
      requires Valid()
      ensures k == FindWay(Model(), e, last, 0)
    {
      hide FlagSeq;
      k := 0;
      while k < WAYS && hash(k, e) % |table| != last
        invariant k <= WAYS && FindWay(Model(), e, last, 0) == FindWay(Model(), e, last, k)
      {
        k := k + 1;
      }
    }

    method ContainsElement(e: E, erase: bool) returns (found: bool)
      requires Valid()
      modifies `mem
      ensures Valid() && found == Contains(old(Model()), e)
      ensures Model() == if erase then Erase(old(Model()), e) else old(Model())
    {
      hide FlagSeq, Loc;
      ghost var s := Model();
      var k := 0;
      while k < WAYS
        invariant k <= WAYS && Valid() && Model() == s
        invariant FindPresent(s, e, 0) == FindPresent(s, e, k)
      {
        var loc := hash(k, e) % |table|;
        LocIs(s, e, k);
        if table[loc] == e {
          if erase {
            AllowErase(loc);
          }
          return true;
        }
        k := k + 1;
      }
      return false;
    }
  }

  ghost function RecentBelow<E>(s: State<E>, n: nat): set<nat>
    requires Shape(s) && n <= |s.table|
  {
    set i: nat | i < n && s.recent[i] && !s.garbage[i]
  }

  lemma RecentEnds<E>(s: State<E>)
    requires Shape(s)
    ensures |RecentBelow(s, 0)| == 0 && RecentBelow(s, |s.table|) == RecentLive(s)
  {
    assert RecentBelow(s, 0) == {};
  }

  lemma RecentNext<E>(s: State<E>, n: nat)
    requires Shape(s) && n < |s.table|
    ensures |RecentBelow(s, n + 1)| == |RecentBelow(s, n)| + if s.recent[n] && !s.garbage[n] then 1 else 0
  {
    assert RecentBelow(s, n + 1) == RecentBelow(s, n) + if s.recent[n] && !s.garbage[n] then {n} else {};
  }

  /** The first n slots of s have been aged into t. */
  ghost predicate AgedTo<E>(s: State<E>, t: State<E>, n: nat)
    requires Shape(s) && Shape(t)
  {
    && t == s.(garbage := t.garbage, recent := t.recent) && n <= |s.table|
    && (forall j :: 0 <= j < |s.table| ==> t.garbage[j] == (s.garbage[j] || (j < n && !s.recent[j])))
    && (forall j :: 0 <= j < |s.table| ==> t.recent[j] == (s.recent[j] && j >= n))
  }

  lemma LocIs<E>(s: State<E>, e: E, k: nat)
    requires Shape(s)
    ensures Loc(s, e, k) == s.hash(k, e) % |s.table|
  {
  }

  lemma DisplaceUnfold<E>(s: State<E>, e: E, recent: bool, last: int, depth: nat)
    requires Shape(s)
    ensures depth == 0 ==> Displace(s, e, recent, last, depth) == s
    ensures depth > 0 && FindGarbage(s, e, 0) < WAYS ==>
              Displace(s, e, recent, last, depth) == Put(s, Loc(s, e, FindGarbage(s, e, 0)), e, recent)
    ensures depth > 0 && FindGarbage(s, e, 0) == WAYS ==>
              var i := Loc(s, e, (1 + FindWay(s, e, last, 0)) % WAYS);
              Displace(s, e, recent, last, depth)
              == Displace(Swapped(s, i, e, recent), s.table[i], s.recent[i], i, depth - 1)
  {
  }
}
