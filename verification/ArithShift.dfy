/**
 Shifts, comparison and bit length of limb arrays. The bitwise-or by which the source assembles
 limbs is shown to add, because the combined parts never overlap.
 */
module ArithShift {
  import opened Basics
  import opened ArithValue

  // ---------------------------------------------------------------- bitwise or

  function Or(x: nat, y: nat): nat {
    if x == 0 && y == 0 then 0
    else (if x % 2 == 1 || y % 2 == 1 then 1 else 0) + 2 * Or(x / 2, y / 2)
  }

  lemma {:induction false} OrZero(x: nat)
    ensures Or(0, x) == x && Or(x, 0) == x
  {
    if x > 0 { OrZero(x / 2); }
  }

  /** Or of a multiple of 2^r and something below 2^r is their sum. */
  lemma {:induction false} OrDisjoint(k: nat, y: nat, r: nat)
    requires y < Pow2(r)
    ensures Or(k * Pow2(r), y) == k * Pow2(r) + y && Or(y, k * Pow2(r)) == k * Pow2(r) + y
  {
    if r == 0 {
      OrZero(k);
    } else {
      var x := k * Pow2(r);
      assert x == 2 * (k * Pow2(r - 1));
      OrDisjoint(k, y / 2, r - 1);
    }
  }

  // ---------------------------------------------------------------- the two halves of a shifted limb

  /** What stays in the limb when x is shifted left by r. */
  function Low(x: nat, r: nat): nat { x * Pow2(r) % BASE }

  /** What moves into the next limb. */
  function High(x: nat, r: nat): nat
    requires r <= 32
  { Quotient(x, Pow2(32 - r)) }

  function Quotient(x: nat, d: nat): nat
    requires d > 0
  { x / d }

  lemma Pow2Split(r: nat)
    requires r <= 32
    ensures Pow2(r) * Pow2(32 - r) == BASE
  {
    Pow2Add(r, 32 - r);
    Pow2At32();
  }

  lemma HalvesOf(x: nat, r: nat)
    requires x < BASE && r <= 32
    ensures Low(x, r) + BASE * High(x, r) == x * Pow2(r)
    ensures Low(x, r) == (x % Pow2(32 - r)) * Pow2(r)
    ensures High(x, r) < Pow2(r) || r == 0
    ensures r == 0 ==> High(x, r) == 0 && Low(x, r) == x
  {
    hide Pow2;
    Pow2Split(r);
    var p, q := Pow2(r), Pow2(32 - r);
    var h, l := x / q, x % q;
    assert x == h * q + l;
    HalvesAlgebra(x, h, l, p, q);
    ModIs(x * p, BASE, l * p, h);
    HighSmall(x, h, l, p, q);
    if r == 0 { ZeroShift(); }
  }

  lemma ZeroShift()
    ensures Pow2(0) == 1 && Pow2(32) == BASE
  {
    Pow2At32();
  }

  lemma HalvesAlgebra(x: nat, h: nat, l: nat, p: nat, q: nat)
    requires x == h * q + l && l < q && p * q == BASE && p > 0
    ensures x * p == l * p + h * BASE && l * p < BASE
  {
    assert x * p == (h * q) * p + l * p;
    assert (h * q) * p == h * (p * q);
    MulLess(l, q, p);
  }

  lemma HighSmall(x: nat, h: nat, l: nat, p: nat, q: nat)
    requires x == h * q + l && x < BASE && p * q == BASE
    ensures h < p
  {
    if h >= p { MulMono(h, p, q); }
  }

  // ---------------------------------------------------------------- shifting left

  /** Limb j after the first i limbs of x have been processed. */
  function LeftLimb(x: seq<nat>, i: nat, k: nat, r: nat, j: nat): nat
    requires i <= |x| && r <= 32
  {
    (if k <= j < k + i then Low(x[j - k], r) else 0) + (if k + 1 <= j < k + 1 + i then High(x[j - k - 1], r) else 0)
  }

  method ShiftLeft(a: array<nat>, shift: nat)
    requires Wide(a[..])
    modifies a
    ensures Wide(a[..]) && Val(a[..]) == (Val(old(a[..])) * Pow2(shift)) % PowB(a.Length)
  {
    hide Pow2, Low, High, Or, Val, PowB;
    ghost var x := a[..];
    var n := a.Length;
    var copy := new nat[n];
    forall i | 0 <= i < n { copy[i] := a[i]; }
    forall i | 0 <= i < n { a[i] := 0; }
    var k, r := shift / 32, shift % 32;
    for i := 0 to n
      invariant copy[..] == x
      invariant forall j :: 0 <= j < n ==> a[j] == LeftLimb(x, i, k, r, j)
    {
      LeftStep(x, i, k, r);
      if i + k + 1 < n && r != 0 {
        a[i + k + 1] := Or(a[i + k + 1], High(copy[i], r));
      }
      if i + k < n {
        a[i + k] := Or(a[i + k], Low(copy[i], r));
      }
    }
    LeftValue(x, a[..], k, r);
    ShiftSplit(shift);
  }

  lemma ShiftSplit(shift: nat)
    ensures Pow2(shift) == PowB(shift / 32) * Pow2(shift % 32)
  {
    hide Pow2, PowB;
    PowBIsPow2(shift / 32);
    Pow2Add(32 * (shift / 32), shift % 32);
  }

  /** The two or-assignments of one iteration. */
  lemma LeftStep(x: seq<nat>, i: nat, k: nat, r: nat)
    requires Wide(x) && i < |x| && r < 32
    ensures LeftLimb(x, i, k, r, i + k + 1) == 0
    ensures Or(0, High(x[i], r)) == LeftLimb(x, i + 1, k, r, i + k + 1)
    ensures r == 0 ==> LeftLimb(x, i + 1, k, r, i + k + 1) == 0
    ensures Or(LeftLimb(x, i, k, r, i + k), Low(x[i], r)) == LeftLimb(x, i + 1, k, r, i + k)
    ensures forall j :: j != i + k && j != i + k + 1 ==> LeftLimb(x, i + 1, k, r, j) == LeftLimb(x, i, k, r, j)
  {
    hide Pow2, Low, High, Or;
    OrZero(High(x[i], r));
    HalvesOf(x[i], r);
    if i > 0 { HalvesOf(x[i - 1], r); }
    var below := if i > 0 then High(x[i - 1], r) else 0;
    assert LeftLimb(x, i, k, r, i + k) == below;
    if r == 0 { OrZero(Low(x[i], r)); } else { PositivePow(r); OrDisjoint(x[i] % Pow2(32 - r), below, r); }
  }

  lemma PositivePow(r: nat)
    ensures Pow2(r) > 0
  {
  }

  /** The limbs above the k zeroes, and what the last of them pushes out. */
  lemma {:induction false} LeftPrefix(x: seq<nat>, q: seq<nat>, k: nat, r: nat, m: nat)
    requires Wide(x) && r < 32 && |q| == |x| && k + m <= |x|
    requires forall j :: 0 <= j < |q| ==> q[j] == LeftLimb(x, |x|, k, r, j)
    ensures Val(q[..k + m]) + (if m > 0 then High(x[m - 1], r) else 0) * PowB(k + m) == Pow2(r) * Val(x[..m]) * PowB(k)
  {
    hide Pow2, Low, High, Val, PowB;
    if m == 0 {
      ValZero(q[..k]);
      NoPrefix(x);
    } else {
      LeftPrefix(x, q, k, r, m - 1);
      HalvesOf(x[m - 1], r);
      ValSnoc(q, k + m - 1);
      ValSnoc(x, m - 1);
      PowBNext(k + m - 1);
      PowBAdd(m - 1, k);
      LeftAlgebra(Val(q[..k + m - 1]), if m > 1 then High(x[m - 2], r) else 0, PowB(k + m - 1), Pow2(r), Val(x[..m - 1]),
                  PowB(k), PowB(m - 1), Low(x[m - 1], r), High(x[m - 1], r), x[m - 1]);
    }
  }

  lemma NoPrefix(x: seq<nat>)
    ensures Val(x[..0]) == 0
  {
  }

  lemma LeftAlgebra(v: int, c: int, p: int, t: int, xs: int, pk: int, pm: int, lo: int, hi: int, x: int)
    requires v + c * p == t * xs * pk && lo + BASE * hi == x * t && p == pm * pk
    ensures v + (lo + c) * p + hi * (BASE * p) == t * (xs + x * pm) * pk
  {
    assert (lo + c) * p + hi * (BASE * p) == (lo + BASE * hi) * p + c * p;
    assert t * (xs + x * pm) * pk == t * xs * pk + (x * t) * (pm * pk);
  }

  lemma LeftValue(x: seq<nat>, q: seq<nat>, k: nat, r: nat)
    requires Wide(x) && r < 32 && |q| == |x|
    requires forall j :: 0 <= j < |q| ==> q[j] == LeftLimb(x, |x|, k, r, j)
    ensures Wide(q) && Val(q) == (Val(x) * (PowB(k) * Pow2(r))) % PowB(|x|)
  {
    hide Pow2, Low, High, Val, PowB, LeftLimb;
    LeftWide(x, q, k, r);
    ValBound(q);
    if k >= |x| { LeftAllOut(x, q, k, r); } else { LeftPartly(x, q, k, r); }
  }

  lemma LeftAllOut(x: seq<nat>, q: seq<nat>, k: nat, r: nat)
    requires r < 32 && |q| == |x| <= k && (forall j :: 0 <= j < |q| ==> q[j] == LeftLimb(x, |x|, k, r, j))
    ensures Val(q) == (Val(x) * (PowB(k) * Pow2(r))) % PowB(|x|)
  {
    hide Pow2, Low, High, Val, PowB;
    var n := |x|;
    ValZero(q);
    PowBAdd(n, k - n);
    MultipleOf(Val(x), PowB(k), Pow2(r), PowB(k - n), PowB(n));
    ModIs(Val(x) * (PowB(k) * Pow2(r)), PowB(n), 0, Val(x) * PowB(k - n) * Pow2(r));
  }

  lemma LeftPartly(x: seq<nat>, q: seq<nat>, k: nat, r: nat)
    requires Wide(x) && r < 32 && |q| == |x| > k && Val(q) < PowB(|x|)
    requires forall j :: 0 <= j < |q| ==> q[j] == LeftLimb(x, |x|, k, r, j)
    ensures Val(q) == (Val(x) * (PowB(k) * Pow2(r))) % PowB(|x|)
  {
    hide Pow2, Low, High, Val, PowB, LeftLimb;
    var n, m := |x|, |x| - k;
    LeftPrefix(x, q, k, r, m);
    assert q[..n] == q && x == x[..m] + x[m..];
    ValConcat(x[..m], x[m..]);
    PowBAdd(m, k);
    LeftFinish(Val(q), High(x[m - 1], r), PowB(n), Pow2(r), Val(x[..m]), Val(x[m..]), PowB(k), PowB(m));
    ModIs(Val(x) * (PowB(k) * Pow2(r)), PowB(n), Val(q), High(x[m - 1], r) + Pow2(r) * Val(x[m..]));
  }

  lemma MultipleOf(v: int, pk: int, t: int, d: int, w: int)
    requires pk == w * d
    ensures v * (pk * t) == 0 + (v * d * t) * w
  {
    assert v * (pk * t) == v * ((w * d) * t);
    assert v * ((w * d) * t) == (v * d * t) * w;
  }

  lemma LeftFinish(q: int, hi: int, w: int, t: int, lo: int, up: int, pk: int, pm: int)
    requires q + hi * w == t * lo * pk && w == pm * pk
    ensures (lo + pm * up) * (pk * t) == q + (hi + t * up) * w
  {
    assert (lo + pm * up) * (pk * t) == t * lo * pk + (t * up) * (pm * pk);
    assert (hi + t * up) * w == hi * w + (t * up) * w;
  }

  lemma LeftWide(x: seq<nat>, q: seq<nat>, k: nat, r: nat)
    requires Wide(x) && r < 32 && |q| == |x|
    requires forall j :: 0 <= j < |q| ==> q[j] == LeftLimb(x, |x|, k, r, j)
    ensures Wide(q)
  {
    hide Pow2, Low, High;
    forall j | 0 <= j < |q| ensures q[j] < BASE {
      if k <= j { HalvesOf(x[j - k], r); LowRoom(x[j - k], r); }
      if k + 1 <= j { HalvesOf(x[j - k - 1], r); }
    }
  }

  /** A shifted limb leaves room for r bits below. */
  lemma LowRoom(x: nat, r: nat)
    requires x < BASE && r <= 32
    ensures Low(x, r) + Pow2(r) <= BASE
  {
    hide Pow2;
    Pow2Split(r);
    HalvesOf(x, r);
    PositivePow(32 - r);
    var q := Pow2(32 - r);
    MulStep(x % q, Pow2(r));
    MulMono(q, x % q + 1, Pow2(r));
  }

  // ---------------------------------------------------------------- shifting right

  /** Limb j after the first i limbs of x have been processed; a right shift by r keeps High(_, 32 - r). */
  function RightLimb(x: seq<nat>, i: nat, k: nat, r: nat, j: nat): nat
    requires i <= |x| && r <= 32
  {
    (if j + k < i then High(x[j + k], 32 - r) else 0) + (if j + k + 1 < i then Low(x[j + k + 1], 32 - r) else 0)
  }

  method ShiftRight(a: array<nat>, shift: nat)
    requires Wide(a[..])
    modifies a
    ensures Wide(a[..]) && Val(a[..]) == Val(old(a[..])) / Pow2(shift)
  {
    hide Pow2, Low, High, Or, Val, PowB;
    ghost var x := a[..];
    var n := a.Length;
    var copy := new nat[n];
    forall i | 0 <= i < n { copy[i] := a[i]; }
    forall i | 0 <= i < n { a[i] := 0; }
    var k, r := shift / 32, shift % 32;
    for i := 0 to n
      invariant copy[..] == x
      invariant forall j :: 0 <= j < n ==> a[j] == RightLimb(x, i, k, r, j)
    {
      RightStep(x, i, k, r);
      if i - k - 1 >= 0 && r != 0 {
        a[i - k - 1] := Or(a[i - k - 1], Low(copy[i], 32 - r));
      }
      if i - k >= 0 {
        a[i - k] := Or(a[i - k], High(copy[i], 32 - r));
      }
    }
    RightValue(x, a[..], k, r);
    ShiftSplit(shift);
  }

  lemma RightStep(x: seq<nat>, i: nat, k: nat, r: nat)
    requires Wide(x) && i < |x| && r < 32
    ensures i >= k ==> RightLimb(x, i, k, r, i - k) == 0
                       && Or(0, High(x[i], 32 - r)) == RightLimb(x, i + 1, k, r, i - k)
    ensures i >= k + 1 ==> Or(RightLimb(x, i, k, r, i - k - 1), Low(x[i], 32 - r)) == RightLimb(x, i + 1, k, r, i - k - 1)
    ensures i >= k + 1 && r == 0 ==> RightLimb(x, i + 1, k, r, i - k - 1) == RightLimb(x, i, k, r, i - k - 1)
    ensures forall j: nat :: j != i - k && j != i - k - 1 ==> RightLimb(x, i + 1, k, r, j) == RightLimb(x, i, k, r, j)
  {
    hide Pow2, Low, High, Or;
    OrZero(High(x[i], 32 - r));
    HalvesOf(x[i], 32 - r);
    if i >= k + 1 {
      HalvesOf(x[i - 1], 32 - r);
      OrDisjoint(x[i] % Pow2(r), High(x[i - 1], 32 - r), 32 - r);
      assert RightLimb(x, i, k, r, i - k - 1) == High(x[i - 1], 32 - r);
      if r == 0 { FullLow(x[i]); }
    }
  }

  lemma FullLow(x: nat)
    ensures Low(x, 32) == 0
  {
    Pow2At32();
    ModAddMultiple(0, x, BASE);
  }

  /** From limb j on, the result times 2^r, plus the bits that fell out, is the operand. */
  lemma {:induction false} RightSuffix(x: seq<nat>, q: seq<nat>, k: nat, r: nat, j: nat)
    requires Wide(x) && r < 32 && k <= |x| && |q| == |x| - k && j <= |q|
    requires forall i :: 0 <= i < |q| ==> q[i] == RightLimb(x, |x|, k, r, i)
    ensures Pow2(r) * Val(q[j..]) + (if j < |q| then x[k + j] % Pow2(r) else 0) == Val(x[k + j..])
    decreases |q| - j
  {
    hide Pow2, Low, High, Val;
    if j == |q| {
      assert q[j..] == [] && x[k + j..] == [];
      ValNone();
    } else {
      RightSuffix(x, q, k, r, j + 1);
      ValCons(q, j);
      ValCons(x, k + j);
      assert q[j] == RightLimb(x, |x|, k, r, j);
      if j + 1 < |q| {
        FromNext(x[k + j + 1], r);
        RightOne(x[k + j], x[k + j + 1] % Pow2(r), r, q[j], Val(q[j + 1..]), Val(x[k + j + 1..]));
      } else {
        RightOne(x[k + j], 0, r, q[j], Val(q[j + 1..]), Val(x[k + j + 1..]));
      }
    }
  }

  lemma FromNext(next: nat, r: nat)
    requires next < BASE && r < 32
    ensures Pow2(r) > 0 && Low(next, 32 - r) == (next % Pow2(r)) * Pow2(32 - r)
  {
    hide Pow2, Low, High;
    HalvesOf(next, 32 - r);
    PositivePow(r);
  }

  /** One limb of a right shift: the part of y that stays, and what comes down from the next limb. */
  lemma RightOne(y: nat, down: nat, r: nat, limb: nat, vq: nat, vx: nat)
    requires r < 32 && limb == High(y, 32 - r) + down * Pow2(32 - r) && Pow2(r) * vq + down == vx
    ensures Pow2(r) > 0 && Pow2(r) * (limb + BASE * vq) + y % Pow2(r) == y + BASE * vx
  {
    hide Pow2, Low, High;
    PositivePow(r);
    HighIs(y, r);
    Pow2Split(r);
    DivMod(y, Pow2(r));
    RightAlgebra(Pow2(r), Pow2(32 - r), y, y / Pow2(r), y % Pow2(r), down, vq, vx);
  }

  lemma DivMod(y: nat, p: nat)
    requires p > 0
    ensures y == p * (y / p) + y % p
  {
  }

  lemma ValNone()
    ensures Val([]) == 0
  {
  }

  lemma HighIs(x: nat, r: nat)
    requires r <= 32
    ensures High(x, 32 - r) == x / Pow2(r)
  {
  }

  lemma RightAlgebra(p: nat, t: nat, y: int, h: int, l: int, next: int, vq: int, vx: int)
    requires p * t == BASE && y == p * h + l && p * vq + next == vx
    ensures p * (h + next * t + BASE * vq) + l == y + BASE * vx
  {
    assert p * (h + next * t + BASE * vq) == p * h + next * (p * t) + BASE * (p * vq);
  }

  lemma RightWide(x: seq<nat>, q: seq<nat>, k: nat, r: nat)
    requires Wide(x) && r < 32 && |q| == |x|
    requires forall j :: 0 <= j < |q| ==> q[j] == RightLimb(x, |x|, k, r, j)
    ensures Wide(q)
  {
    hide Pow2, Low, High;
    forall j | 0 <= j < |q| ensures q[j] < BASE {
      if j + k < |x| { HalvesOf(x[j + k], 32 - r); HighWide(x[j + k], r); }
      if j + k + 1 < |x| { HalvesOf(x[j + k + 1], 32 - r); LowRoom(x[j + k + 1], 32 - r); if r == 0 { FullLow(x[j + k + 1]); } }
    }
  }

  lemma HighWide(x: nat, r: nat)
    requires x < BASE && r <= 32
    ensures High(x, 32 - r) < BASE
  {
    hide Pow2;
    HighIs(x, r);
    PositivePow(r);
    DivSmaller(x, Pow2(r));
  }

  lemma DivSmaller(x: nat, d: nat)
    requires d > 0
    ensures x / d <= x
  {
    if x / d > x { MulMono(x / d, x + 1, d); MulAtLeast(d, x + 1); }
  }

  lemma RightValue(x: seq<nat>, q: seq<nat>, k: nat, r: nat)
    requires Wide(x) && r < 32 && |q| == |x|
    requires forall j :: 0 <= j < |q| ==> q[j] == RightLimb(x, |x|, k, r, j)
    ensures Wide(q) && Val(q) == Val(x) / (PowB(k) * Pow2(r))
  {
    hide Pow2, Low, High, Val, PowB, RightLimb;
    RightWide(x, q, k, r);
    if k >= |x| { RightAllOut(x, q, k, r); } else { RightPartly(x, q, k, r); }
  }

  lemma RightAllOut(x: seq<nat>, q: seq<nat>, k: nat, r: nat)
    requires Wide(x) && r < 32 && |q| == |x| <= k && (forall j :: 0 <= j < |q| ==> q[j] == RightLimb(x, |x|, k, r, j))
    ensures Val(q) == Val(x) / (PowB(k) * Pow2(r))
  {
    hide Pow2, Low, High, Val, PowB;
    var n := |x|;
    ValZero(q);
    ValBound(x);
    PowBAdd(n, k - n);
    MulMono(PowB(k - n) * Pow2(r), 1, PowB(n));
    RightZero(Val(x), PowB(n), PowB(k - n), Pow2(r), PowB(k));
  }

  lemma RightZero(v: nat, w: nat, d: nat, p: nat, pk: nat)
    requires v < w && pk == w * d && d >= 1 && p >= 1
    ensures pk * p > 0 && v / (pk * p) == 0
  {
    assert pk * p == w * (d * p);
    MulAtLeast(d, p);
    MulMono(d * p, 1, w);
    ModIs(v, pk * p, v, 0);
  }

  lemma RightPartly(x: seq<nat>, q: seq<nat>, k: nat, r: nat)
    requires Wide(x) && r < 32 && |q| == |x| > k && (forall j :: 0 <= j < |q| ==> q[j] == RightLimb(x, |x|, k, r, j))
    ensures Val(q) == Val(x) / (PowB(k) * Pow2(r))
  {
    hide Pow2, Low, High, Val, PowB, RightLimb;
    var m := |x| - k;
    var y := q[..m];
    RightTail(x, q, k, r);
    RightSuffix(x, y, k, r, 0);
    assert y[0..] == y && x == x[..k] + x[k..];
    ValConcat(x[..k], x[k..]);
    ValBound(x[..k]);
    PositivePow(r);
    RightFinish(Val(x), Val(x[..k]), PowB(k), Pow2(r), Val(y), x[k] % Pow2(r), Val(x[k..]));
  }

  lemma RightTail(x: seq<nat>, q: seq<nat>, k: nat, r: nat)
    requires r < 32 && |q| == |x| > k && (forall j :: 0 <= j < |q| ==> q[j] == RightLimb(x, |x|, k, r, j))
    ensures Val(q) == Val(q[..|x| - k])
  {
    hide Pow2, Low, High, Val, PowB;
    var m := |x| - k;
    assert q == q[..m] + q[m..];
    ValConcat(q[..m], q[m..]);
    ValZero(q[m..]);
  }

  lemma RightFinish(v: nat, lo: nat, pk: nat, p: nat, q: nat, rest: nat, up: nat)
    requires v == lo + pk * up && p * q + rest == up && lo < pk && rest < p
    ensures pk * p > 0 && v / (pk * p) == q
  {
    var rem := lo + pk * rest;
    assert pk * up == pk * rest + q * (pk * p);
    assert pk * (rest + 1) == pk * rest + pk;
    MulMono(p, rest + 1, pk);
    ModIs(v, pk * p, rem, q);
  }
}
