/**
 How many keys the rolling filter can be asked to remember. Twice the number of elements is computed
 in 32 bits; once that wraps, the rounds become too short and recent keys are forgotten.
 */
module BloomLimit {
  import opened BloomModel

  const X: Key := [0]
  const Y: Key := [1]

  /** Sends X to the first bit of any filter and every other key to the second. */
  function TwoBits(): Hasher { (seed: nat, key: Key) => if key == X then 0 else 1 }

  // ---------------------------------------------------------------- a filter without X

  /** The first bit is clear, so X is not found. */
  ghost predicate Lacks(f: Filter) {
    f.funcs > 0 && |f.data| > 0 && !f.isFull && !BitSet(f.data, 0)
  }

  lemma LacksX(f: Filter)
    requires Lacks(f)
    ensures !Contains(TwoBits(), f, X)
  {
    assert HashBit(TwoBits(), f, 0, X) == 0;
  }

  lemma SecondBit(data: seq<bv8>)
    requires |data| > 0 && !BitSet(data, 0)
    ensures !BitSet(SetBit(data, 1), 0)
  {
  }

  lemma {:induction false} SetBitsLack(f: Filter, n: nat)
    requires Lacks(f)
    ensures Lacks(SetBits(TwoBits(), f, Y, n))
  {
    hide BitSet, SetBit;
    if n > 0 {
      SetBitsLack(f, n - 1);
      var g := SetBits(TwoBits(), f, Y, n - 1);
      HashOfY(f, n - 1);
      SecondBit(g.data);
      SameHash(TwoBits(), f, g, n - 1, Y);
    }
  }

  lemma HashOfY(f: Filter, n: nat)
    requires |f.data| > 0
    ensures HashBit(TwoBits(), f, n, Y) == 1
  {
    assert X[0] != Y[0];
  }

  lemma InsertLacks(f: Filter)
    requires Lacks(f)
    ensures Valid(f) && Lacks(Insert(TwoBits(), f, Y))
  {
    SetBitsLack(f, f.funcs);
  }

  lemma ClearLacks(f: Filter)
    requires Valid(f) && f.funcs > 0
    ensures Lacks(Clear(f))
  {
    var data := Clear(f).data;
    assert data[0] & Mask(0) == 0;
  }

  // ---------------------------------------------------------------- runs of one key

  /** Both filters hash. */
  predicate Hashing(r: Rolling) { RollingValid(r) && r.b1.funcs > 0 && r.b2.funcs > 0 }

  lemma InsertHashing(h: Hasher, r: Rolling, key: Key)
    requires Hashing(r)
    ensures Hashing(RollingInsert(h, r, key)) && RollingInsert(h, r, key).size == r.size
  {
    hide SetBits;
  }

  lemma ResetHashing(r: Rolling)
    requires Hashing(r)
    ensures Hashing(RollingReset(r, 0))
  {
  }

  lemma {:induction false} AllHashing(h: Hasher, r: Rolling, keys: seq<Key>)
    requires Hashing(r)
    ensures Hashing(InsertAll(h, r, keys)) && InsertAll(h, r, keys).size == r.size
  {
    hide RollingInsert, Hashing;
    HashingValid(r);
    if keys != [] {
      AllHashing(h, r, keys[..|keys| - 1]);
      InsertHashing(h, InsertAll(h, r, keys[..|keys| - 1]), keys[|keys| - 1]);
    }
  }

  lemma HashingValid(r: Rolling)
    requires Hashing(r)
    ensures RollingValid(r)
  {
  }

  /** One X, then m times Y. */
  function Buried(m: nat): (keys: seq<Key>)
    ensures |keys| == m + 1
  {
    [X] + seq(m, _ => Y)
  }

  ghost function After(r: Rolling, m: nat): Rolling
    requires RollingValid(r)
  {
    InsertAll(TwoBits(), RollingReset(r, 0), Buried(m))
  }

  lemma AfterNext(r: Rolling, m: nat)
    requires RollingValid(r)
    ensures After(r, m + 1) == RollingInsert(TwoBits(), After(r, m), Y)
  {
    hide RollingInsert;
    assert Buried(m + 1)[..m + 1] == Buried(m);
  }

  lemma AfterCount(r: Rolling, m: nat, k: nat)
    requires Hashing(r) && 0 < k < WORD / 2 && r.size == 2 * k
    ensures Hashing(After(r, m)) && After(r, m).size == 2 * k && After(r, m).insertions == (m + 1) % (2 * k)
  {
    hide HoldsLast, InsertAll;
    WindowAlways(TwoBits(), r, Buried(m), k, 0);
    AllHashing(TwoBits(), RollingReset(r, 0), Buried(m));
  }

  lemma WithinRound(m: nat, k: nat)
    requires 0 < k && m < 2 * k
    ensures m % (2 * k) == m && (2 * k) % (2 * k) == 0 && (2 * k + 1) % (2 * k) == 1
  {
    RemainderIs(m, 2 * k, 0, m);
    RemainderIs(2 * k, 2 * k, 1, 0);
    RemainderIs(2 * k + 1, 2 * k, 1, 1);
  }

  /** From the middle of the round on, the second filter has forgotten X. */
  lemma {:induction false} SecondForgets(r: Rolling, k: nat, m: nat)
    requires Hashing(r) && 0 < k < WORD / 2 && r.size == 2 * k && k <= m <= 2 * k
    ensures Lacks(After(r, m).b2)
    decreases m
  {
    hide After, Insert, Clear, Lacks;
    var s := After(r, m - 1);
    AfterNext(r, m - 1);
    AfterCount(r, m - 1, k);
    WithinRound(if m < 2 * k then m else 0, k);
    if m == k {
      ClearLacks(s.b2);
      InsertLacks(Clear(s.b2));
    } else {
      SecondForgets(r, k, m - 1);
      InsertLacks(s.b2);
    }
  }

  /** One key into the next round neither filter finds X. */
  lemma RoundForgets(r: Rolling, k: nat)
    requires Hashing(r) && 0 < k < WORD / 2 && r.size == 2 * k
    ensures !RollingContains(TwoBits(), After(r, 2 * k), X)
  {
    hide After, Insert, Clear, Lacks;
    var s := After(r, 2 * k - 1);
    AfterNext(r, 2 * k - 1);
    AfterCount(r, 2 * k - 1, k);
    AfterCount(r, 2 * k, k);
    WithinRound(0, k);
    ClearLacks(s.b1);
    InsertLacks(Clear(s.b1));
    SecondForgets(r, k, 2 * k);
    LacksX(After(r, 2 * k).b1);
    LacksX(After(r, 2 * k).b2);
  }

  // ---------------------------------------------------------------- a round of length zero

  /** With a size of zero the counter itself wraps. */
  lemma {:induction false} CounterWraps(h: Hasher, r: Rolling, keys: seq<Key>)
    requires RollingValid(r) && r.size == 0 && |keys| <= WORD
    ensures var s := InsertAll(h, RollingReset(r, 0), keys); s.size == 0 && s.insertions == |keys| % WORD
  {
    hide Insert, Clear;
    if keys != [] { CounterWraps(h, r, keys[..|keys| - 1]); }
  }

  /** X as the last key before the counter wraps, then one more. */
  function BeforeWrap(): (keys: seq<Key>)
    ensures |keys| == WORD
  {
    seq(WORD - 1, _ => Y) + [X]
  }

  lemma WrapForgets(r: Rolling)
    requires Hashing(r) && r.size == 0
    ensures !RollingContains(TwoBits(), InsertAll(TwoBits(), RollingReset(r, 0), BeforeWrap() + [Y]), X)
  {
    hide Insert, Clear, Lacks, BeforeWrap;
    var keys := BeforeWrap();
    var s := InsertAll(TwoBits(), RollingReset(r, 0), keys);
    CounterWraps(TwoBits(), r, keys);
    ResetHashing(r);
    AllHashing(TwoBits(), RollingReset(r, 0), keys);
    assert (keys + [Y])[..|keys|] == keys;
    ClearLacks(s.b1);
    InsertLacks(Clear(s.b1));
    LacksX(Insert(TwoBits(), Clear(s.b1), Y));
  }

  // ---------------------------------------------------------------- exactly when recent keys are found

  ghost predicate FindsRecent(h: Hasher, r: Rolling, keys: seq<Key>, n: nat, tweak: nat)
    requires RollingValid(r)
  {
    forall i: nat :: i < |keys| <= i + n ==> RollingContains(h, InsertAll(h, RollingReset(r, tweak), keys), keys[i])
  }

  /**
   A rolling filter built for n elements, n a 32-bit number, finds each of the last n keys after
   every run and for every hash if and only if n is below 2^31. At exactly 2^31 the source's
   constructor divides by zero, so there the run is one of a filter it never builds; above, it is real.
   */
  lemma LastKeysFoundIff(r: Rolling, n: nat)
    requires Hashing(r) && n < WORD && r.size == 2 * n % WORD
    ensures (forall h: Hasher, keys: seq<Key>, tweak: nat :: FindsRecent(h, r, keys, n, tweak)) <==> n < WORD / 2
  {
    hide RollingContains, InsertAll, RollingReset, Hashing;
    HashingValid(r);
    if n < WORD / 2 {
      forall h: Hasher, keys: seq<Key>, tweak: nat ensures FindsRecent(h, r, keys, n, tweak) {
        forall i: nat | i < |keys| <= i + n
          ensures RollingContains(h, InsertAll(h, RollingReset(r, tweak), keys), keys[i])
        {
          LastKeysFound(h, r, keys, n, tweak, i);
        }
      }
    } else if n == WORD / 2 {
      WrapForgets(r);
      var keys := BeforeWrap() + [Y];
      assert keys[WORD - 1] == X;
      assert !FindsRecent(TwoBits(), r, keys, n, 0);
    } else {
      var k := n - WORD / 2;
      RoundForgets(r, k);
      var keys := Buried(2 * k);
      assert keys[0] == X;
      assert !FindsRecent(TwoBits(), r, keys, n, 0);
    }
  }
}
