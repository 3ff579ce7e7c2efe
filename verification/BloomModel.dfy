/**
 Bloom filters as values. The hash of a seed and a key is an arbitrary function; the rolling filter
 is two filters cleared in turn.
 */
module BloomModel {
  import opened Basics

  type Key = seq<nat>

  type Hasher = (nat, Key) -> nat

  const WORD: nat := 0x1_0000_0000

  datatype Filter = Filter(data: seq<bv8>, isFull: bool, isEmpty: bool, funcs: nat, tweak: nat)

  /** A filter that hashes at all has bits to hash into. */
  predicate Valid(f: Filter) { f.funcs > 0 ==> |f.data| > 0 }

  // ---------------------------------------------------------------- bits

  /** One shifted left by j. */
  function Mask(j: nat): bv8
    requires j < 8
  {
    match j
    case 0 => 1 case 1 => 2 case 2 => 4 case 3 => 8
    case 4 => 16 case 5 => 32 case 6 => 64 case 7 => 128
  }

  predicate BitSet(data: seq<bv8>, i: nat)
    requires i < 8 * |data|
  {
    data[i / 8] & Mask(i % 8) != 0
  }

  function SetBit(data: seq<bv8>, i: nat): (r: seq<bv8>)
    requires i < 8 * |data|
    ensures |r| == |data|
  {
    data[i / 8 := data[i / 8] | Mask(i % 8)]
  }

  lemma MaskSets(b: bv8, j: nat)
    requires j < 8
    ensures (b | Mask(j)) & Mask(j) != 0
  {
  }

  lemma OrKeeps(b: bv8, m: bv8, k: bv8)
    requires b & k != 0
    ensures (b | m) & k != 0
  {
  }

  lemma FullByte(j: nat)
    requires j < 8
    ensures 0xff & Mask(j) != 0 && 0 & Mask(j) == 0
  {
  }

  lemma SetBitSets(data: seq<bv8>, i: nat)
    requires i < 8 * |data|
    ensures BitSet(SetBit(data, i), i)
  {
    hide Mask;
    MaskSets(data[i / 8], i % 8);
  }

  lemma SetBitKeeps(data: seq<bv8>, i: nat, k: nat)
    requires i < 8 * |data| && k < 8 * |data| && BitSet(data, k)
    ensures BitSet(SetBit(data, i), k)
  {
    hide Mask;
    OrKeeps(data[k / 8], Mask(i % 8), Mask(k % 8));
  }

  // ---------------------------------------------------------------- one filter

  /** The bit the n-th hash of a key selects. */
  function HashBit(h: Hasher, f: Filter, n: nat, key: Key): (i: nat)
    requires |f.data| > 0
    ensures i < 8 * |f.data|
  {
    h((n * 0xFBA4C795 + f.tweak) % WORD, key) % (|f.data| * 8)
  }

  /** Sets the bits of the first n hashes. */
  function SetBits(h: Hasher, f: Filter, key: Key, n: nat): (r: Filter)
    requires n > 0 ==> |f.data| > 0
    ensures r == f.(data := r.data) && |r.data| == |f.data|
  {
    if n == 0 then f
    else
      var g := SetBits(h, f, key, n - 1);
      g.(data := SetBit(g.data, HashBit(h, f, n - 1, key)))
  }

  function Insert(h: Hasher, f: Filter, key: Key): (r: Filter)
    requires Valid(f)
    ensures Valid(r)
  {
    if f.isFull then f else SetBits(h, f, key, f.funcs).(isEmpty := false)
  }

  /** Whether every bit of the key is set. */
  ghost predicate AllSet(h: Hasher, f: Filter, key: Key)
    requires Valid(f)
  {
    forall n :: 0 <= n < f.funcs ==> BitSet(f.data, HashBit(h, f, n, key))
  }

  ghost predicate Contains(h: Hasher, f: Filter, key: Key)
    requires Valid(f)
  {
    f.isFull || (!f.isEmpty && AllSet(h, f, key))
  }

  function Clear(f: Filter): (r: Filter)
    requires Valid(f)
    ensures Valid(r)
  {
    f.(data := seq(|f.data|, _ => 0), isFull := false, isEmpty := true)
  }

  function Reset(f: Filter, tweak: nat): (r: Filter)
    requires Valid(f)
    ensures Valid(r)
  {
    Clear(f).(tweak := tweak)
  }

  ghost function UpdateEmptyFull(f: Filter): (r: Filter)
    requires Valid(f)
    ensures Valid(r)
  {
    f.(isFull := forall i :: 0 <= i < |f.data| ==> f.data[i] == 0xff, isEmpty := forall i :: 0 <= i < |f.data| ==> f.data[i] == 0)
  }

  lemma {:induction false} SetBitsKeep(h: Hasher, f: Filter, key: Key, n: nat, k: nat)
    requires n > 0 ==> |f.data| > 0
    requires k < 8 * |f.data| && BitSet(f.data, k)
    ensures BitSet(SetBits(h, f, key, n).data, k)
  {
    hide BitSet, HashBit;
    if n > 0 {
      SetBitsKeep(h, f, key, n - 1, k);
      SetBitKeeps(SetBits(h, f, key, n - 1).data, HashBit(h, f, n - 1, key), k);
    }
  }

  lemma {:induction false} SetBitsSet(h: Hasher, f: Filter, key: Key, n: nat, m: nat)
    requires m < n && |f.data| > 0
    ensures BitSet(SetBits(h, f, key, n).data, HashBit(h, f, m, key))
  {
    hide BitSet, HashBit;
    var g := SetBits(h, f, key, n - 1);
    if m == n - 1 {
      SetBitSets(g.data, HashBit(h, f, m, key));
    } else {
      SetBitsSet(h, f, key, n - 1, m);
      SetBitKeeps(g.data, HashBit(h, f, n - 1, key), HashBit(h, f, m, key));
    }
  }

  lemma SameHash(h: Hasher, f: Filter, g: Filter, n: nat, key: Key)
    requires |f.data| > 0 && |g.data| == |f.data| && g.tweak == f.tweak
    ensures HashBit(h, f, n, key) == HashBit(h, g, n, key)
  {
  }

  /** An inserted key is found. */
  lemma InsertedIsFound(h: Hasher, f: Filter, key: Key)
    requires Valid(f)
    ensures Contains(h, Insert(h, f, key), key)
  {
    hide BitSet, HashBit, SetBits;
    var g := Insert(h, f, key);
    if !f.isFull {
      forall n | 0 <= n < f.funcs ensures BitSet(g.data, HashBit(h, g, n, key)) {
        SetBitsSet(h, f, key, f.funcs, n);
        SameHash(h, f, g, n, key);
      }
    }
  }

  /** Inserting loses nothing. */
  lemma InsertKeeps(h: Hasher, f: Filter, key: Key, other: Key)
    requires Valid(f) && Contains(h, f, other)
    ensures Contains(h, Insert(h, f, key), other)
  {
    hide BitSet, HashBit, SetBits;
    var g := Insert(h, f, key);
    if !f.isFull {
      forall n | 0 <= n < f.funcs ensures BitSet(g.data, HashBit(h, g, n, other)) {
        SameHash(h, f, g, n, other);
        SetBitsKeep(h, f, key, f.funcs, HashBit(h, f, n, other));
      }
    }
  }

  /** With the flags refreshed, the shortcuts answer exactly as the bits do. */
  lemma ShortcutsExact(h: Hasher, f: Filter, key: Key)
    requires Valid(f) && f.funcs > 0
    ensures Contains(h, UpdateEmptyFull(f), key) <==> AllSet(h, f, key)
  {
    hide HashBit, Mask;
    var g := UpdateEmptyFull(f);
    forall n | 0 <= n < f.funcs ensures HashBit(h, g, n, key) == HashBit(h, f, n, key) { SameHash(h, f, g, n, key); }
    if g.isFull {
      forall n | 0 <= n < f.funcs ensures BitSet(f.data, HashBit(h, f, n, key)) { FullByte(HashBit(h, f, n, key) % 8); }
    }
    if g.isEmpty {
      FullByte(HashBit(h, f, 0, key) % 8);
      assert !BitSet(f.data, HashBit(h, f, 0, key));
    }
  }

  // ---------------------------------------------------------------- no other bits

  /** Some hash of the key selects bit k. */
  ghost predicate Selects(h: Hasher, f: Filter, key: Key, k: nat)
    requires Valid(f)
  {
    exists n :: 0 <= n < f.funcs && HashBit(h, f, n, key) == k
  }

  /** Bit k belongs to one of the keys. */
  ghost predicate Selected(h: Hasher, f: Filter, keys: seq<Key>, k: nat)
    requires Valid(f)
  {
    exists i :: 0 <= i < |keys| && Selects(h, f, keys[i], k)
  }

  /** The bits set are those of the keys, and the flags are those of a filter with just these insertions. */
  ghost predicate Exactly(h: Hasher, f: Filter, keys: seq<Key>)
    requires Valid(f)
  {
    && !f.isFull && (f.isEmpty <==> keys == [])
    && forall k: nat :: k < 8 * |f.data| ==> (BitSet(f.data, k) <==> Selected(h, f, keys, k))
  }

  lemma OtherBit(b: bv8, i: nat, j: nat)
    requires i < 8 && j < 8 && i != j
    ensures (b | Mask(i)) & Mask(j) == b & Mask(j)
  {
    match i
    case 0 => case 1 => case 2 => case 3 => case 4 => case 5 => case 6 => case 7 =>
  }

  lemma SetBitExact(data: seq<bv8>, i: nat, k: nat)
    requires i < 8 * |data| && k < 8 * |data|
    ensures BitSet(SetBit(data, i), k) <==> BitSet(data, k) || k == i
  {
    hide Mask;
    if k == i {
      SetBitSets(data, i);
    } else if k / 8 == i / 8 {
      OtherBit(data[i / 8], i % 8, k % 8);
    }
  }

  lemma {:induction false} SetBitsExact(h: Hasher, f: Filter, key: Key, m: nat, k: nat)
    requires (m > 0 ==> |f.data| > 0) && k < 8 * |f.data|
    ensures BitSet(SetBits(h, f, key, m).data, k) <==>
            BitSet(f.data, k) || exists n :: 0 <= n < m && HashBit(h, f, n, key) == k
  {
    hide BitSet, HashBit, SetBit;
    if m > 0 {
      SetBitsExact(h, f, key, m - 1, k);
      SetBitExact(SetBits(h, f, key, m - 1).data, HashBit(h, f, m - 1, key), k);
    }
  }

  /** Inserting sets the bits that the hashes of the key select, and no other. A full filter stays as it is. */
  lemma InsertExact(h: Hasher, f: Filter, key: Key, k: nat)
    requires Valid(f) && k < 8 * |f.data|
    ensures var g := Insert(h, f, key);
            && g == f.(data := g.data, isEmpty := f.isFull && f.isEmpty) && |g.data| == |f.data|
            && (BitSet(g.data, k) <==> BitSet(f.data, k) || (!f.isFull && Selects(h, f, key, k)))
  {
    hide BitSet, HashBit, SetBits;
    if !f.isFull { SetBitsExact(h, f, key, f.funcs, k); }
  }

  lemma SelectsSame(h: Hasher, f: Filter, g: Filter, key: Key, k: nat)
    requires Valid(f) && |g.data| == |f.data| && g.tweak == f.tweak && g.funcs == f.funcs
    ensures Selects(h, g, key, k) <==> Selects(h, f, key, k)
  {
    hide HashBit;
    forall n | 0 <= n < f.funcs ensures HashBit(h, g, n, key) == HashBit(h, f, n, key) {
      SameHash(h, f, g, n, key);
    }
  }

  lemma ExactlyOneMore(h: Hasher, f: Filter, keys: seq<Key>, key: Key)
    requires Valid(f) && Exactly(h, f, keys)
    ensures Exactly(h, Insert(h, f, key), keys + [key])
  {
    hide BitSet, Selects, Insert, Valid;
    InsertShape(h, f, key);
    var g := Insert(h, f, key);
    var all := keys + [key];
    forall k: nat | k < 8 * |f.data| ensures BitSet(g.data, k) <==> Selected(h, g, all, k) {
      InsertExact(h, f, key, k);
      forall i | 0 <= i < |all| ensures Selects(h, g, all[i], k) <==> Selects(h, f, all[i], k) {
        SelectsSame(h, f, g, all[i], k);
      }
      SelectedOneMore(h, f, keys, key, k);
    }
  }

  lemma InsertShape(h: Hasher, f: Filter, key: Key)
    requires Valid(f) && !f.isFull
    ensures var g := Insert(h, f, key);
            Valid(g) && |g.data| == |f.data| && g.tweak == f.tweak && g.funcs == f.funcs && !g.isFull && !g.isEmpty
  {
  }

  lemma SelectedOneMore(h: Hasher, f: Filter, keys: seq<Key>, key: Key, k: nat)
    requires Valid(f)
    ensures Selected(h, f, keys + [key], k) <==> Selected(h, f, keys, k) || Selects(h, f, key, k)
  {
    hide Selects;
    var all := keys + [key];
    if Selected(h, f, keys, k) {
      var i :| 0 <= i < |keys| && Selects(h, f, keys[i], k);
      assert all[i] == keys[i];
    }
    if Selects(h, f, key, k) { assert all[|keys|] == key; }
  }

  /** A cleared filter has no bit set and finds nothing. */
  lemma ClearedExactly(h: Hasher, f: Filter)
    requires Valid(f)
    ensures Exactly(h, Clear(f), []) && forall key :: !Contains(h, Clear(f), key)
  {
    var g := Clear(f);
    forall k: nat | k < 8 * |g.data| ensures !BitSet(g.data, k) { FullByte(k % 8); }
  }

  lemma ResetExactly(h: Hasher, f: Filter, tweak: nat)
    requires Valid(f)
    ensures Exactly(h, Reset(f, tweak), [])
  {
    ClearedExactly(h, f);
    hide Mask;
  }

  /** A filter that holds just these keys finds a key if and only if its bits are covered by theirs. */
  lemma FoundIffCovered(h: Hasher, f: Filter, keys: seq<Key>, key: Key)
    requires Valid(f) && Exactly(h, f, keys)
    ensures Contains(h, f, key) <==> keys != [] && Covered(h, f, keys, key)
  {
    hide BitSet, HashBit;
  }

  ghost predicate Covered(h: Hasher, f: Filter, keys: seq<Key>, key: Key)
    requires Valid(f)
  {
    forall n :: 0 <= n < f.funcs ==> Selected(h, f, keys, HashBit(h, f, n, key))
  }

  // ---------------------------------------------------------------- the rolling filter

  datatype Rolling = Rolling(b1: Filter, b2: Filter, size: nat, insertions: nat)

  predicate RollingValid(r: Rolling) {
    Valid(r.b1) && Valid(r.b2)
  }

  function RollingInsert(h: Hasher, r: Rolling, key: Key): (s: Rolling)
    requires RollingValid(r)
    ensures RollingValid(s)
  {
    var b1 := if r.insertions == 0 then Clear(r.b1) else r.b1;
    var b2 := if r.insertions != 0 && r.insertions == r.size / 2 then Clear(r.b2) else r.b2;
    var n := (r.insertions + 1) % WORD;
    Rolling(Insert(h, b1, key), Insert(h, b2, key), r.size, if n == r.size then 0 else n)
  }

  ghost predicate RollingContains(h: Hasher, r: Rolling, key: Key)
    requires RollingValid(r)
  {
    if r.insertions < r.size / 2 then Contains(h, r.b2, key) else Contains(h, r.b1, key)
  }

  /** Starts both filters afresh with the same new tweak. */
  function RollingReset(r: Rolling, tweak: nat): (s: Rolling)
    requires RollingValid(r)
    ensures RollingValid(s)
  {
    Rolling(Reset(r.b1, tweak), Reset(r.b2, tweak), r.size, 0)
  }

  /** Inserts keys one after the other. */
  function InsertAll(h: Hasher, r: Rolling, keys: seq<Key>): (s: Rolling)
    requires RollingValid(r)
    ensures RollingValid(s)
  {
    if keys == [] then r else RollingInsert(h, InsertAll(h, r, keys[..|keys| - 1]), keys[|keys| - 1])
  }

  /** The filter finds each of the last n of the keys, and has no bit set but theirs. */
  ghost predicate HoldsLast(h: Hasher, f: Filter, keys: seq<Key>, n: nat) {
    && Valid(f) && n <= |keys| && Exactly(h, f, keys[|keys| - n..])
    && forall i :: |keys| - n <= i < |keys| ==> Contains(h, f, keys[i])
  }

  lemma HoldsNone(h: Hasher, f: Filter, keys: seq<Key>)
    requires Valid(f) && Exactly(h, f, [])
    ensures HoldsLast(h, f, keys, 0)
  {
    assert keys[|keys| - 0..] == [];
  }

  lemma HoldsOneMore(h: Hasher, f: Filter, keys: seq<Key>, n: nat, key: Key)
    requires HoldsLast(h, f, keys, n)
    ensures HoldsLast(h, Insert(h, f, key), keys + [key], n + 1)
  {
    hide Contains, Insert, Valid, Exactly;
    var all := keys + [key];
    ExactlyOneMore(h, f, keys[|keys| - n..], key);
    assert all[|all| - (n + 1)..] == keys[|keys| - n..] + [key];
    forall i | |all| - (n + 1) <= i < |all| ensures Contains(h, Insert(h, f, key), all[i]) {
      if i < |keys| {
        assert Contains(h, f, keys[i]);
        InsertKeeps(h, f, key, keys[i]);
      } else {
        InsertedIsFound(h, f, key);
      }
    }
  }

  /** How many of the latest keys each filter holds after total insertions, p of them in the current round. */
  function FirstHolds(total: nat, p: nat, n: nat): nat { if p == 0 then (if total < 2 * n then total else 2 * n) else p }
  function SecondHolds(total: nat, p: nat, n: nat): nat { if p > n then p - n else if total < p + n then total else p + n }

  /** Both filters hold what the stagger leaves them. */
  ghost predicate Window(h: Hasher, r: Rolling, keys: seq<Key>, n: nat) {
    && RollingValid(r) && r.size == 2 * n && r.insertions < 2 * n && |keys| % (2 * n) == r.insertions
    && FirstHolds(|keys|, r.insertions, n) <= |keys| && SecondHolds(|keys|, r.insertions, n) <= |keys|
    && HoldsLast(h, r.b1, keys, FirstHolds(|keys|, r.insertions, n))
    && HoldsLast(h, r.b2, keys, SecondHolds(|keys|, r.insertions, n))
  }

  lemma NextRound(m: nat, d: nat)
    requires d > 1
    ensures (m + 1) % d == if m % d + 1 == d then 0 else m % d + 1
    ensures m % d <= m
  {
    var q := m / d;
    assert m == q * d + m % d;
    RemainderIs(m + 1, d, if m % d + 1 == d then q + 1 else q, if m % d + 1 == d then 0 else m % d + 1);
  }

  lemma RemainderIs(m: nat, d: nat, q: nat, r: nat)
    requires r < d && m == q * d + r
    ensures m % d == r
  {
    var a, b := m / d, m % d;
    assert m == a * d + b;
    if a > q { MulMono(a, q + 1, d); }
    if a < q { MulMono(q, a + 1, d); }
  }

  lemma FirstStep(h: Hasher, f: Filter, keys: seq<Key>, p: nat, n: nat, key: Key)
    requires Valid(f) && n > 0 && p < 2 * n && p <= |keys| && FirstHolds(|keys|, p, n) <= |keys|
    requires HoldsLast(h, f, keys, FirstHolds(|keys|, p, n))
    ensures var g := Insert(h, if p == 0 then Clear(f) else f, key); HoldsLast(h, g, keys + [key], p + 1)
  {
    hide Contains, Insert, Valid, Clear, HoldsLast;
    if p == 0 {
      ClearedExactly(h, f);
      HoldsNone(h, Clear(f), keys);
      HoldsOneMore(h, Clear(f), keys, 0, key);
    } else {
      HoldsOneMore(h, f, keys, p, key);
    }
  }

  lemma SecondStep(h: Hasher, f: Filter, keys: seq<Key>, p: nat, n: nat, key: Key)
    requires Valid(f) && n > 0 && p < 2 * n && p <= |keys| && SecondHolds(|keys|, p, n) <= |keys|
    requires HoldsLast(h, f, keys, SecondHolds(|keys|, p, n))
    ensures var g := Insert(h, if p == n then Clear(f) else f, key);
            HoldsLast(h, g, keys + [key], if p == n then 1 else SecondHolds(|keys|, p, n) + 1)
  {
    hide Contains, Insert, Valid, Clear, HoldsLast;
    if p == n {
      ClearedExactly(h, f);
      HoldsNone(h, Clear(f), keys);
      HoldsOneMore(h, Clear(f), keys, 0, key);
    } else {
      HoldsOneMore(h, f, keys, SecondHolds(|keys|, p, n), key);
    }
  }

  lemma WindowStep(h: Hasher, r: Rolling, keys: seq<Key>, n: nat, key: Key)
    requires 0 < n < WORD / 2 && Window(h, r, keys, n)
    ensures Window(h, RollingInsert(h, r, key), keys + [key], n)
  {
    hide Contains, Insert, Valid, Clear, HoldsLast;
    var p := r.insertions;
    NextRound(|keys|, 2 * n);
    FirstStep(h, r.b1, keys, p, n, key);
    SecondStep(h, r.b2, keys, p, n, key);
    RoundCounts(|keys|, p, n);
  }

  /** At the end of a round the first filter holds a whole round and the second half of one. */
  lemma RoundCounts(m: nat, p: nat, n: nat)
    requires n > 0 && p < 2 * n && m % (2 * n) == p
    ensures p < m ==> m >= p + 2 * n
  {
    var d := 2 * n;
    var q := m / d;
    assert m == q * d + p;
    if q > 0 { MulMono(q, 1, d); }
  }

  lemma {:induction false} WindowAlways(h: Hasher, r: Rolling, keys: seq<Key>, n: nat, tweak: nat)
    requires 0 < n < WORD / 2 && RollingValid(r) && r.size == 2 * n
    ensures Window(h, InsertAll(h, RollingReset(r, tweak), keys), keys, n)
  {
    hide Contains, Insert, Valid, Clear, HoldsLast, RollingInsert;
    var s := RollingReset(r, tweak);
    if keys == [] {
      ResetExactly(h, r.b1, tweak);
      ResetExactly(h, r.b2, tweak);
      HoldsNone(h, s.b1, keys);
      HoldsNone(h, s.b2, keys);
    } else {
      var m := |keys| - 1;
      WindowAlways(h, r, keys[..m], n, tweak);
      WindowStep(h, InsertAll(h, s, keys[..m]), keys[..m], n, keys[m]);
      assert keys == keys[..m] + [keys[m]];
    }
  }

  /** After any insertions since a reset, each of the last n keys is found. */
  lemma LastKeysFound(h: Hasher, r: Rolling, keys: seq<Key>, n: nat, tweak: nat, i: nat)
    requires 0 < n < WORD / 2 && RollingValid(r) && r.size == 2 * n && i < |keys| <= i + n
    ensures RollingContains(h, InsertAll(h, RollingReset(r, tweak), keys), keys[i])
  {
    hide Contains, InsertAll, RollingReset, Valid;
    WindowAlways(h, r, keys, n, tweak);
  }

  /** How many of the latest keys count for the answer of a rolling filter of 2 * n after total insertions. */
  function Remembered(total: nat, n: nat): nat
    requires n > 0
  {
    var p := total % (2 * n);
    if p < n then SecondHolds(total, p, n) else FirstHolds(total, p, n)
  }

  /** At least the last n keys, or all, and at most twice as many. */
  lemma RememberedBounds(total: nat, n: nat)
    requires n > 0
    ensures Remembered(total, n) <= total && Remembered(total, n) < 2 * n
    ensures total <= Remembered(total, n) || n <= Remembered(total, n)
  {
    var p := total % (2 * n);
    RoundCounts(total, p, n);
    NextRound(total, 2 * n);
  }

  /**
   The rolling filter answers exactly as a fresh filter would that holds the last keys only: those before
   them are forgotten.
   */
  lemma RollingExact(h: Hasher, r: Rolling, keys: seq<Key>, n: nat, tweak: nat, key: Key)
    requires 0 < n < WORD / 2 && RollingValid(r) && r.size == 2 * n
    ensures var s := InsertAll(h, RollingReset(r, tweak), keys);
            var f := if s.insertions < n then s.b2 else s.b1;
            var m := Remembered(|keys|, n);
            && m <= |keys|
            && (RollingContains(h, s, key) <==> m > 0 && Covered(h, f, keys[|keys| - m..], key))
  {
    hide Contains, InsertAll, RollingReset, Valid, Covered, Exactly;
    WindowAlways(h, r, keys, n, tweak);
    RememberedBounds(|keys|, n);
    var s := InsertAll(h, RollingReset(r, tweak), keys);
    var m := Remembered(|keys|, n);
    FoundIffCovered(h, if s.insertions < n then s.b2 else s.b1, keys[|keys| - m..], key);
  }
}
