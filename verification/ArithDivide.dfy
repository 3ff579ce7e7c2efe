/**
 Comparison, bit length, and the shift-subtract division of base_uint.
 */
module ArithDivide {
  import opened Basics
  import opened ArithValue
  import opened ArithUint
  import opened ArithShift

  // ---------------------------------------------------------------- comparison

  lemma TopLimbDecides(x: seq<nat>, y: seq<nat>, i: nat)
    requires Wide(x) && Wide(y) && |x| == |y| && i < |x| && x[i + 1..] == y[i + 1..] && x[i] < y[i]
    ensures Val(x) < Val(y)
  {
    hide Val, PowB;
    SameSuffix(y, x, i + 1);
    ValSnoc(x, i);
    ValSnoc(y, i);
    ValBound(x[..i]);
    MulStep(x[i], PowB(i));
    MulMono(y[i], x[i] + 1, PowB(i));
  }

  /** CompareTo: the sign of the difference. */
  method CompareTo(a: array<nat>, b: array<nat>) returns (c: int)
    requires a.Length == b.Length && Wide(a[..]) && Wide(b[..])
    ensures c < 0 <==> Val(a[..]) < Val(b[..])
    ensures c > 0 <==> Val(a[..]) > Val(b[..])
  {
    hide Val;
    var i := a.Length - 1;
    while i >= 0
      invariant -1 <= i < a.Length && a[i + 1..] == b[i + 1..]
    {
      if a[i] < b[i] {
        TopLimbDecides(a[..], b[..], i);
        return -1;
      }
      if a[i] > b[i] {
        TopLimbDecides(b[..], a[..], i);
        return 1;
      }
      i := i - 1;
    }
    assert a[..] == b[..];
    return 0;
  }

  // ---------------------------------------------------------------- bit length

  /** n is the number of bits of v. */
  ghost predicate HasBits(v: nat, n: nat) {
    if v == 0 then n == 0 else n > 0 && Pow2(n - 1) <= v < Pow2(n)
  }

  lemma BitsUnique(v: nat, m: nat, n: nat)
    requires HasBits(v, m) && HasBits(v, n)
    ensures m == n
  {
    if m < n { Pow2Mono(m, n - 1); }
    if n < m { Pow2Mono(n, m - 1); }
  }

  lemma TopLimbBits(x: seq<nat>, pos: nat, b: nat)
    requires Wide(x) && pos < |x| && (forall i :: pos < i < |x| ==> x[i] == 0) && Pow2(b) <= x[pos] < Pow2(b + 1)
    ensures HasBits(Val(x), 32 * pos + b + 1)
  {
    hide Val, PowB;
    ValSnoc(x, pos);
    assert x == x[..pos + 1] + x[pos + 1..];
    ValConcat(x[..pos + 1], x[pos + 1..]);
    ValZero(x[pos + 1..]);
    ValBound(x[..pos]);
    PowBIsPow2(pos);
    Pow2Add(b, 32 * pos);
    Pow2Add(b + 1, 32 * pos);
    MulMono(x[pos], Pow2(b), PowB(pos));
    MulStep(x[pos], PowB(pos));
    MulMono(Pow2(b + 1), x[pos] + 1, PowB(pos));
    assert Pow2(b) * PowB(pos) >= 1;
  }

  lemma BitTest(x: nat, b: nat)
    requires x < Pow2(b + 1)
    ensures x / Pow2(b) % 2 == 1 <==> Pow2(b) <= x
  {
    if Pow2(b) <= x { ModIs(x, Pow2(b), x - Pow2(b), 1); } else { ModIs(x, Pow2(b), x, 0); }
  }

  /** The position of the highest bit set plus one, or zero for zero. */
  method Bits(a: array<nat>) returns (n: nat)
    requires Wide(a[..])
    ensures HasBits(Val(a[..]), n)
  {
    hide Val, HasBits;
    var pos := a.Length - 1;
    while pos >= 0
      invariant -1 <= pos < a.Length && forall i :: pos < i < a.Length ==> a[i] == 0
    {
      if a[pos] != 0 {
        Pow2At32();
        hide Pow2;
        var bits := 31;
        while bits > 0
          invariant 0 <= bits <= 31 && a[pos] < Pow2(bits + 1)
        {
          BitTest(a[pos], bits);
          if a[pos] / Pow2(bits) % 2 == 1 {
            TopLimbBits(a[..], pos, bits);
            return 32 * pos + bits + 1;
          }
          bits := bits - 1;
        }
        OneBit();
        TopLimbBits(a[..], pos, 0);
        return 32 * pos + 1;
      }
      pos := pos - 1;
    }
    ValZero(a[..]);
    ZeroBits();
    return 0;
  }

  lemma ZeroBits()
    ensures HasBits(0, 0)
  {
  }

  lemma OneBit()
    ensures Pow2(0) == 1 && Pow2(1) == 2
  {
  }

  // ---------------------------------------------------------------- setting quotient bits

  /** No bit at position s or below is set. */
  ghost predicate FreeBelow(q: seq<nat>, s: int) {
    s >= 0 ==>
      && s / 32 < |q| && (forall j :: 0 <= j < s / 32 ==> q[j] == 0)
      && q[s / 32] % Pow2(s % 32 + 1) == 0
  }

  lemma FreeLimb(x: nat, b: nat)
    requires x < BASE && b < 32 && x % Pow2(b + 1) == 0
    ensures Or(x, Pow2(b)) == x + Pow2(b) < BASE
    ensures x % Pow2(b) == 0 && (x + Pow2(b)) % Pow2(b) == 0
  {
    hide Pow2, Or;
    Pow2Next(b);
    PositivePow(b);
    var p := Pow2(b + 1);
    var k := x / p;
    assert x == k * p;
    OrDisjoint(k, Pow2(b), b + 1);
    Pow2Split(b + 1);
    LimbRoom(k, p, Pow2(31 - b));
    HalfStep(k, Pow2(b));
    ModIs(x, Pow2(b), 0, 2 * k);
    ModIs(x + Pow2(b), Pow2(b), 0, 2 * k + 1);
  }

  lemma HalfStep(k: nat, p: nat)
    ensures k * (2 * p) == (2 * k) * p && k * (2 * p) + p == (2 * k + 1) * p
  {
  }

  lemma LimbRoom(k: nat, p: nat, t: nat)
    requires p * t == BASE && k * p < BASE && p > 0
    ensures k * p + p <= BASE
  {
    if k >= t { MulMono(k, t, p); }
    MulStep(k, p);
    MulMono(t, k + 1, p);
  }

  lemma ZeroMod(p: nat)
    requires p > 0
    ensures 0 % p == 0
  {
  }

  lemma SetBit(q: seq<nat>, s: nat)
    requires Wide(q) && FreeBelow(q, s)
    ensures s / 32 < |q|
    ensures var r := q[s / 32 := Or(q[s / 32], Pow2(s % 32))];
            Wide(r) && Val(r) == Val(q) + Pow2(s) && FreeBelow(r, s - 1)
    ensures FreeBelow(q, s - 1)
  {
    hide Val, PowB, Or, Pow2;
    var j, b := s / 32, s % 32;
    FreeLimb(q[j], b);
    var r := q[j := Or(q[j], Pow2(b))];
    ValSnoc(q, j);
    ValSnoc(r, j);
    assert r[..j] == q[..j];
    SameSuffix(q, r, j + 1);
    ShiftSplit(s);
    assert (q[j] + Pow2(b)) * PowB(j) == q[j] * PowB(j) + Pow2(b) * PowB(j);
    PositivePow(32);
    if s > 0 && b == 0 { assert q[j - 1] == 0; ZeroMod(Pow2(32)); }
  }

  // ---------------------------------------------------------------- division

  /** num + q * d is the dividend, div is d shifted left, and num is below twice div. */
  ghost predicate Dividing(num: nat, div: nat, q: nat, n: nat, d: nat, shift: int) {
    && num + q * d == n
    && (shift >= 0 ==> div == d * Pow2(shift) && num < 2 * div)
    && (shift < 0 ==> num < d)
  }

  lemma DivideStep(num: nat, div: nat, q: nat, n: nat, d: nat, shift: nat)
    requires Dividing(num, div, q, n, d, shift)
    ensures num >= div ==> Dividing(num - div, div / 2, q + Pow2(shift), n, d, shift - 1)
    ensures num < div ==> Dividing(num, div / 2, q, n, d, shift - 1)
  {
    assert (q + Pow2(shift)) * d == q * d + d * Pow2(shift);
    if shift > 0 {
      assert div == 2 * (d * Pow2(shift - 1));
    } else {
      assert div == d;
    }
  }

  lemma DivideStart(n: nat, d: nat, nb: nat, db: nat)
    requires HasBits(n, nb) && HasBits(d, db) && 0 < db <= nb
    ensures Dividing(n, d * Pow2(nb - db), 0, n, d, nb - db) && d * Pow2(nb - db) < Pow2(nb)
  {
    var shift := nb - db;
    Pow2Add(db, shift);
    Pow2Add(db - 1, shift);
    MulMono(d, Pow2(db - 1), Pow2(shift));
    MulLess(d, Pow2(db), Pow2(shift));
    assert Pow2(nb) == 2 * Pow2(nb - 1);
  }

  lemma BitsFit(q: seq<nat>, n: nat)
    requires Wide(q) && HasBits(Val(q), n)
    ensures n <= 32 * |q| && Pow2(n) <= PowB(|q|)
  {
    hide Val, PowB, Pow2, HasBits, Wide;
    var v := Val(q);
    ValBound(q);
    PowBIsPow2(|q|);
    BitsMean(v, n);
    if n > 32 * |q| {
      HasLow(v, n);
      Pow2Mono(32 * |q|, n - 1);
    } else {
      Pow2Mono(n, 32 * |q|);
    }
  }

  lemma HasLow(v: nat, b: nat)
    requires HasBits(v, b) && v > 0
    ensures b > 0 && Pow2(b - 1) <= v < Pow2(b)
  {
    hide Pow2;
  }

  method Copy(b: array<nat>) returns (c: array<nat>)
    ensures fresh(c) && c[..] == b[..]
  {
    c := new nat[b.Length];
    forall i | 0 <= i < b.Length { c[i] := b[i]; }
  }

  lemma InRange(v: nat, m: nat)
    requires v < m
    ensures v % m == v
  {
  }

  /** The loop of operator /=: one quotient bit per round, from the top. */
  method DivideLoop(a: array<nat>, num: array<nat>, div: array<nat>, start: nat, ghost n: nat, ghost d: nat)
    requires a.Length == num.Length == div.Length > 0 && a != num && a != div && num != div && d > 0
    requires Wide(a[..]) && Wide(num[..]) && Wide(div[..]) && FreeBelow(a[..], start)
    requires Dividing(Val(num[..]), Val(div[..]), Val(a[..]), n, d, start)
    modifies a, num, div
    ensures Wide(a[..]) && Wide(num[..])
    ensures Val(a[..]) == n / d && Val(num[..]) == n % d
  {
    hide Val, PowB, Pow2, Or, Dividing, FreeBelow;
    var shift: int := start;
    while shift >= 0
      invariant -1 <= shift <= start && Wide(a[..]) && Wide(num[..]) && Wide(div[..]) && FreeBelow(a[..], shift)
      invariant Dividing(Val(num[..]), Val(div[..]), Val(a[..]), n, d, shift)
    {
      var c := CompareTo(num, div);
      DivideStep(Val(num[..]), Val(div[..]), Val(a[..]), n, d, shift);
      SetBit(a[..], shift);
      if c >= 0 {
        ghost var before := a[..];
        ValBound(num[..]);
        InRange(Val(num[..]) - Val(div[..]), PowB(num.Length));
        SubAssign(num, div);
        a[shift / 32] := Or(a[shift / 32], Pow2(shift % 32));
        assert a[..] == before[shift / 32 := Or(before[shift / 32], Pow2(shift % 32))];
      }
      HalfIs();
      ShiftRight(div, 1);
      shift := shift - 1;
    }
    DivideEnd(Val(num[..]), Val(div[..]), Val(a[..]), n, d);
  }

  lemma HalfIs()
    ensures Pow2(1) == 2
  {
  }

  lemma DivideEnd(num: nat, div: nat, q: nat, n: nat, d: nat)
    requires Dividing(num, div, q, n, d, -1) && d > 0
    ensures q == n / d && num == n % d
  {
    ModIs(n, d, num, q);
  }

  /** Operator /=; false stands for the division-by-zero exception, and num keeps the remainder. */
  method DivAssign(a: array<nat>, b: array<nat>) returns (ok: bool, num: array<nat>)
    requires a.Length == b.Length > 0 && Wide(a[..]) && Wide(b[..])
    modifies a
    ensures ok <==> Val(old(b[..])) != 0
    ensures fresh(num) && num.Length == a.Length && Wide(a[..]) && Wide(num[..])
    ensures !ok ==> Val(a[..]) == 0
    ensures ok ==> Val(a[..]) == Val(old(a[..])) / Val(old(b[..])) && Val(num[..]) == Val(old(a[..])) % Val(old(b[..]))
  {
    hide Val, PowB, Pow2, HasBits, Dividing, FreeBelow;
    ghost var x, y := a[..], b[..];
    ghost var n, d := Val(x), Val(y);
    var div := Copy(b);
    num := Copy(a);
    forall i | 0 <= i < a.Length { a[i] := 0; }
    ValZero(a[..]);
    assert num[..] == x && div[..] == y;
    var numBits := Bits(num);
    var divBits := Bits(div);
    BitsMean(d, divBits);
    if divBits == 0 {
      return false, num;
    }
    if divBits > numBits {
      FewerBits(n, d, numBits, divBits);
      return true, num;
    }
    var shift := numBits - divBits;
    DivideStart(n, d, numBits, divBits);
    BitsFit(num[..], numBits);
    InRange(d * Pow2(shift), PowB(a.Length));
    ShiftLeft(div, shift);
    AllFree(a[..], shift, numBits);
    DivideLoop(a, num, div, shift, n, d);
    return true, num;
  }

  lemma BitsMean(v: nat, n: nat)
    requires HasBits(v, n)
    ensures n == 0 <==> v == 0
  {
  }

  lemma FewerBits(n: nat, d: nat, nb: nat, db: nat)
    requires HasBits(n, nb) && HasBits(d, db) && nb < db
    ensures d > 0 && n / d == 0 && n % d == n
  {
    if nb < db { Pow2Mono(nb, db - 1); }
    ModIs(n, d, n, 0);
  }

  lemma AllFree(q: seq<nat>, s: nat, n: nat)
    requires (forall i :: 0 <= i < |q| ==> q[i] == 0) && s < n <= 32 * |q|
    ensures FreeBelow(q, s)
  {
    ZeroMod(Pow2(s % 32 + 1));
  }
}
