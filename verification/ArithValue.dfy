/**
 Little-endian 32-bit limbs and the number they stand for, with the arithmetic facts the limb
 operators of base_uint rely on.
 */
module ArithValue {
  import opened Basics

  const BASE: nat := 0x1_0000_0000

  /** BASE to the n. */
  function PowB(n: nat): (p: nat)
    ensures p >= 1
  {
    if n == 0 then 1 else BASE * PowB(n - 1)
  }

  ghost predicate Wide(q: seq<nat>) {
    forall i :: 0 <= i < |q| ==> q[i] < BASE
  }

  function Val(q: seq<nat>): nat {
    if q == [] then 0 else q[0] + BASE * Val(q[1..])
  }

  // ---------------------------------------------------------------- arithmetic

  lemma MulLess(a: nat, b: nat, c: nat)
    requires a < b && c > 0
    ensures a * c < b * c
  {
  }

  /** The remainder is determined by its range. */
  lemma ModIs(x: int, m: nat, v: int, k: int)
    requires m > 0 && x == v + k * m && 0 <= v < m
    ensures x % m == v && x / m == k
  {
    var q, r := x / m, x % m;
    assert x == q * m + r;
    assert (q - k) * m == v - r;
    assert (k - q) * m == r - v;
    if q - k >= 1 { MulAtLeast(q - k, m); }
    if q - k <= -1 { MulAtLeast(k - q, m); }
  }

  lemma MulAtLeast(k: int, m: nat)
    requires k >= 1
    ensures k * m >= m
  {
  }

  lemma MulStep(k: int, p: int)
    ensures (k + 1) * p == k * p + p && (k - 1) * p == k * p - p
  {
  }

  lemma ModAddMultiple(x: int, k: int, m: nat)
    requires m > 0
    ensures (x + k * m) % m == x % m
  {
    ModIs(x + k * m, m, x % m, x / m + k);
  }

  lemma {:induction false} Pow2Add(m: nat, n: nat)
    ensures Pow2(m + n) == Pow2(m) * Pow2(n)
  {
    if m > 0 {
      Pow2Add(m - 1, n);
      assert 2 * (Pow2(m - 1) * Pow2(n)) == (2 * Pow2(m - 1)) * Pow2(n);
    }
  }

  lemma {:induction false} Pow2Mono(m: nat, n: nat)
    requires m <= n
    ensures Pow2(m) <= Pow2(n)
    ensures m < n ==> Pow2(m) < Pow2(n)
  {
    if m < n {
      if m < n - 1 { Pow2Mono(m, n - 1); }
    }
  }

  lemma {:induction false} PowBAdd(m: nat, n: nat)
    ensures PowB(m + n) == PowB(m) * PowB(n)
  {
    if m > 0 {
      PowBAdd(m - 1, n);
      assert BASE * (PowB(m - 1) * PowB(n)) == (BASE * PowB(m - 1)) * PowB(n);
    }
  }

  lemma Pow2Next(n: nat)
    ensures Pow2(n + 1) == 2 * Pow2(n)
  {
  }

  lemma PowBNext(n: nat)
    ensures PowB(n + 1) == BASE * PowB(n)
  {
  }

  lemma Pow2At32()
    ensures Pow2(32) == BASE
  {
    assert Pow2(8) == 256;
    Pow2Add(8, 8);
    assert Pow2(16) == 0x1_0000;
    Pow2Add(16, 16);
  }

  lemma {:induction false} PowBIsPow2(n: nat)
    ensures PowB(n) == Pow2(32 * n)
  {
    if n > 0 {
      PowBIsPow2(n - 1);
      Pow2At32();
      Pow2Add(32, 32 * (n - 1));
    }
  }

  // ---------------------------------------------------------------- values

  lemma {:induction false} ValBound(q: seq<nat>)
    requires Wide(q)
    ensures Val(q) < PowB(|q|)
  {
    if q != [] {
      ValBound(q[1..]);
      assert Val(q[1..]) + 1 <= PowB(|q| - 1);
      assert BASE * (Val(q[1..]) + 1) <= BASE * PowB(|q| - 1);
    }
  }

  lemma {:induction false} ValConcat(p: seq<nat>, q: seq<nat>)
    ensures Val(p + q) == Val(p) + PowB(|p|) * Val(q)
  {
    if p == [] {
      assert p + q == q;
    } else {
      assert (p + q)[1..] == p[1..] + q;
      ValConcat(p[1..], q);
      assert BASE * (PowB(|p| - 1) * Val(q)) == (BASE * PowB(|p| - 1)) * Val(q);
    }
  }

  lemma ValSnoc(q: seq<nat>, i: nat)
    requires i < |q|
    ensures Val(q[..i + 1]) == Val(q[..i]) + q[i] * PowB(i)
  {
    assert q[..i + 1] == q[..i] + [q[i]];
    ValConcat(q[..i], [q[i]]);
    assert Val([q[i]]) == q[i] + BASE * Val([]);
  }

  lemma ValCons(q: seq<nat>, j: nat)
    requires j < |q|
    ensures Val(q[j..]) == q[j] + BASE * Val(q[j + 1..])
  {
    assert q[j..][1..] == q[j + 1..];
  }

  lemma {:induction false} ValZero(q: seq<nat>)
    requires forall i :: 0 <= i < |q| ==> q[i] == 0
    ensures Val(q) == 0
  {
    if q != [] { ValZero(q[1..]); }
  }
}
