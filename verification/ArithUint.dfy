/**
 base_uint's in-place operators on limb arrays. Each is proved to compute on the numbers the limbs
 stand for, modulo BASE to the number of limbs, for every width.
 */
module ArithUint {
  import opened Basics
  import opened ArithValue

  // ---------------------------------------------------------------- one limb at a time

  /** Adding the limbs x and y and a carry below a prefix worth p. */
  lemma AddStep(done: int, carry: int, p: nat, before: int, x: int, y: int)
    requires done + carry * p == before
    ensures var n := carry + x + y;
            done + (n % BASE) * p + (n / BASE) * (BASE * p) == before + x * p + y * p
  {
    var n := carry + x + y;
    assert n == n % BASE + BASE * (n / BASE);
    assert (n % BASE) * p + (n / BASE) * (BASE * p) == (n % BASE + BASE * (n / BASE)) * p;
    assert (carry + x + y) * p == carry * p + x * p + y * p;
  }

  lemma PrefixKept(q: seq<nat>, r: seq<nat>, i: nat)
    requires i < |q| && |r| == |q| && (forall j :: 0 <= j < |q| && j != i ==> r[j] == q[j])
    ensures r[..i] == q[..i] && r[i + 1..] == q[i + 1..]
  {
  }

  method AddAssign(a: array<nat>, b: array<nat>)
    requires a.Length == b.Length && Wide(a[..]) && Wide(b[..])
    modifies a
    ensures Wide(a[..])
    ensures Val(a[..]) == (Val(old(a[..])) + Val(old(b[..]))) % PowB(a.Length)
  {
    hide Val, PowB;
    ghost var x, y := a[..], b[..];
    var carry := 0;
    ValEmpty(x, 1);
    ValEmpty(y, 1);
    for i := 0 to a.Length
      invariant carry <= 1
      invariant a[i..] == x[i..] && b[i..] == y[i..]
      invariant Wide(a[..i]) && Wide(x) && Wide(y)
      invariant Val(a[..i]) + carry * PowB(i) == Val(x[..i]) + Val(y[..i])
    {
      ghost var before := a[..];
      assert a[i] == x[i] && b[i] == y[i];
      var n := carry + a[i] + b[i];
      AddStep(Val(a[..i]), carry, PowB(i), Val(x[..i]) + Val(y[..i]), x[i], y[i]);
      a[i] := n % BASE;
      carry := n / BASE;
      PrefixKept(before, a[..], i);
      ValSnoc(a[..], i);
      ValSnoc(x, i);
      ValSnoc(y, i);
      PowBNext(i);
      assert a[..][..i] == a[..i] && a[..][..i + 1] == a[..i + 1];
    }
    assert a[..a.Length] == a[..] && x[..a.Length] == x && y[..a.Length] == y;
    ValBound(a[..]);
    ModIs(Val(x) + Val(y), PowB(a.Length), Val(a[..]), carry);
  }

  // ---------------------------------------------------------------- increment, negation, subtraction

  /** Prefix ++: carry past limbs that wrap to zero. */
  method Increment(a: array<nat>)
    requires a.Length > 0 && Wide(a[..])
    modifies a
    ensures Wide(a[..]) && Val(a[..]) == (Val(old(a[..])) + 1) % PowB(a.Length)
  {
    ghost var x := a[..];
    var i := 0;
    a[0] := (a[0] + 1) % BASE;
    StepUp(x, a[..], 0);
    while a[i] == 0 && i < a.Length - 1
      invariant 0 <= i < a.Length && Wide(a[..])
      invariant a[i + 1..] == x[i + 1..]
      invariant Val(a[..i + 1]) + (if a[i] == 0 then PowB(i + 1) else 0) == Val(x[..i + 1]) + 1
    {
      ghost var before := a[..];
      i := i + 1;
      assert before[i] == x[i];
      a[i] := (a[i] + 1) % BASE;
      NextUp(x, before, a[..], i);
    }
    FinishUp(x, a[..], i);
  }

  lemma SameSuffix(x: seq<nat>, r: seq<nat>, i: nat)
    requires |r| == |x| && i <= |x| && r[i..] == x[i..]
    ensures Val(r) - Val(r[..i]) == Val(x) - Val(x[..i])
  {
    hide Val, PowB;
    ValConcat(x[..i], x[i..]);
    ValConcat(r[..i], r[i..]);
    assert x == x[..i] + x[i..] && r == r[..i] + r[i..];
  }

  lemma StepUp(x: seq<nat>, r: seq<nat>, i: nat)
    requires Wide(x) && 0 < |x| == |r| && i == 0 && r == x[0 := (x[0] + 1) % BASE]
    ensures Wide(r) && r[1..] == x[1..]
    ensures Val(r[..1]) + (if r[0] == 0 then PowB(1) else 0) == Val(x[..1]) + 1
  {
    ValSnoc(x, 0);
    ValSnoc(r, 0);
  }

  lemma NextUp(x: seq<nat>, q: seq<nat>, r: seq<nat>, i: nat)
    requires Wide(x) && Wide(q) && |q| == |x| == |r| && 0 < i < |x| && q[i..] == x[i..] && q[i - 1] == 0
    requires Val(q[..i]) + PowB(i) == Val(x[..i]) + 1 && r == q[i := (q[i] + 1) % BASE]
    ensures Wide(r) && r[i + 1..] == x[i + 1..]
    ensures Val(r[..i + 1]) + (if r[i] == 0 then PowB(i + 1) else 0) == Val(x[..i + 1]) + 1
  {
    hide Val, PowB;
    assert q[i] == x[i];
    assert r[..i] == q[..i];
    ValSnoc(x, i);
    ValSnoc(r, i);
    PowBNext(i);
    MulStep(x[i], PowB(i));
    forall j | i + 1 <= j < |r| ensures r[j] == x[j] { assert q[i..][j - i] == x[i..][j - i]; }
  }

  lemma FinishUp(x: seq<nat>, r: seq<nat>, i: nat)
    requires Wide(x) && Wide(r) && |r| == |x| && i < |x| && r[i + 1..] == x[i + 1..]
    requires Val(r[..i + 1]) + (if r[i] == 0 then PowB(i + 1) else 0) == Val(x[..i + 1]) + 1
    requires r[i] != 0 || i == |x| - 1
    ensures Val(r) == (Val(x) + 1) % PowB(|x|)
  {
    hide Val, PowB;
    SameSuffix(x, r, i + 1);
    ValBound(r);
    if r[i] == 0 {
      assert r[..i + 1] == r && x[..i + 1] == x;
      ModIs(Val(x) + 1, PowB(|x|), Val(r), 1);
    } else {
      ModIs(Val(x) + 1, PowB(|x|), Val(r), 0);
    }
  }

  lemma {:induction false} ValComplement(q: seq<nat>, r: seq<nat>)
    requires |r| == |q| && forall i :: 0 <= i < |q| ==> q[i] < BASE && r[i] == BASE - 1 - q[i]
    ensures Val(r) + Val(q) == PowB(|q|) - 1
  {
    if q != [] {
      ValComplement(q[1..], r[1..]);
    }
  }

  /** Unary minus: complement every limb, then increment. */
  method Negate(b: array<nat>) returns (r: array<nat>)
    requires b.Length > 0 && Wide(b[..])
    ensures fresh(r) && r.Length == b.Length && Wide(r[..])
    ensures Val(r[..]) == (0 - Val(b[..])) % PowB(b.Length)
  {
    r := new nat[b.Length];
    for i := 0 to b.Length
      invariant forall j :: 0 <= j < i ==> r[j] == BASE - 1 - b[j]
    {
      r[i] := BASE - 1 - b[i];
    }
    ValComplement(b[..], r[..]);
    ghost var p := PowB(b.Length);
    assert Val(r[..]) + 1 == 0 - Val(b[..]) + 1 * p;
    ModAddMultiple(0 - Val(b[..]), 1, p);
    Increment(r);
  }

  /** Operator -=: add the negation. The arrays may be the same. */
  method SubAssign(a: array<nat>, b: array<nat>)
    requires a.Length == b.Length > 0 && Wide(a[..]) && Wide(b[..])
    modifies a
    ensures Wide(a[..])
    ensures Val(a[..]) == (Val(old(a[..])) - Val(old(b[..]))) % PowB(a.Length)
  {
    hide Val, PowB;
    var n := Negate(b);
    SubMod(Val(a[..]), Val(b[..]), PowB(a.Length));
    AddAssign(a, n);
  }

  lemma SubMod(x: int, y: int, m: nat)
    requires m > 0
    ensures (x + (0 - y) % m) % m == (x - y) % m
  {
    var k := (0 - y) / m;
    assert 0 - y == k * m + (0 - y) % m;
    ModAddMultiple(x - y, -k, m);
  }

  /** Prefix --: borrow past limbs that wrap to all ones. */
  method Decrement(a: array<nat>)
    requires a.Length > 0 && Wide(a[..])
    modifies a
    ensures Wide(a[..]) && Val(a[..]) == (Val(old(a[..])) - 1) % PowB(a.Length)
  {
    ghost var x := a[..];
    var i := 0;
    a[0] := (a[0] - 1) % BASE;
    ValSnoc(x, 0);
    ValSnoc(a[..], 0);
    assert a[1..] == x[1..];
    while a[i] == BASE - 1 && i < a.Length - 1
      invariant 0 <= i < a.Length && Wide(a[..])
      invariant a[i + 1..] == x[i + 1..]
      invariant Val(a[..][..i + 1]) - (if a[i] == BASE - 1 then PowB(i + 1) else 0) == Val(x[..i + 1]) - 1
    {
      ghost var before := a[..];
      i := i + 1;
      assert before[i] == x[i];
      a[i] := (a[i] - 1) % BASE;
      NextDown(x, before, a[..], i);
    }
    FinishDown(x, a[..], i);
  }

  lemma NextDown(x: seq<nat>, q: seq<nat>, r: seq<nat>, i: nat)
    requires Wide(x) && Wide(q) && |q| == |x| == |r| && 0 < i < |x| && q[i..] == x[i..]
    requires Val(q[..i]) - PowB(i) == Val(x[..i]) - 1 && r == q[i := (q[i] - 1) % BASE]
    ensures Wide(r) && r[i + 1..] == x[i + 1..]
    ensures Val(r[..i + 1]) - (if r[i] == BASE - 1 then PowB(i + 1) else 0) == Val(x[..i + 1]) - 1
  {
    hide Val, PowB;
    assert q[i] == x[i];
    assert r[..i] == q[..i];
    ValSnoc(x, i);
    ValSnoc(r, i);
    PowBNext(i);
    MulStep(x[i], PowB(i));
    forall j | i + 1 <= j < |r| ensures r[j] == x[j] { assert q[i..][j - i] == x[i..][j - i]; }
  }

  lemma FinishDown(x: seq<nat>, r: seq<nat>, i: nat)
    requires Wide(x) && Wide(r) && |r| == |x| && i < |x| && r[i + 1..] == x[i + 1..]
    requires Val(r[..i + 1]) - (if r[i] == BASE - 1 then PowB(i + 1) else 0) == Val(x[..i + 1]) - 1
    requires r[i] != BASE - 1 || i == |x| - 1
    ensures Val(r) == (Val(x) - 1) % PowB(|x|)
  {
    hide Val, PowB;
    SameSuffix(x, r, i + 1);
    ValBound(r);
    if r[i] == BASE - 1 {
      assert r[..i + 1] == r && x[..i + 1] == x;
      ModIs(Val(x) - 1, PowB(|x|), Val(r), -1);
    } else {
      ModIs(Val(x) - 1, PowB(|x|), Val(r), 0);
    }
  }

  // ---------------------------------------------------------------- multiplication

  /** Multiplying limb x by m with a carry below a prefix worth p. */
  lemma MulLimb(done: int, carry: int, p: nat, before: int, x: int, m: int)
    requires done + carry * p == before
    ensures var n := carry + m * x;
            done + (n % BASE) * p + (n / BASE) * (BASE * p) == before + m * (x * p)
  {
    AddStep(done, carry, p, before, m * x, 0);
    assert (m * x) * p == m * (x * p);
  }

  lemma MulBound(a: nat, b: nat, c: nat, d: nat)
    requires a <= c && b <= d
    ensures a * b <= c * d
  {
    assert a * b <= c * b;
    assert c * b <= c * d;
  }

  /** Two limbs and a product of limbs fit 64 bits. */
  lemma MulRange(m: nat, x: nat, c: nat, d: nat)
    requires m < BASE && x < BASE && c < BASE && d < BASE
    ensures c + d + m * x < BASE * BASE && (c + d + m * x) / BASE < BASE
  {
    MulBound(m, x, 0xffff_ffff, 0xffff_ffff);
  }

  /** One 64-bit intermediate of a multiplication. */
  function MulAdd(carry: nat, m: nat, x: nat): nat { carry + m * x }

  lemma MulAddRange(carry: nat, m: nat, x: nat)
    requires m < BASE && x < BASE && carry < BASE
    ensures MulAdd(carry, m, x) < BASE * BASE && MulAdd(carry, m, x) / BASE < BASE
  {
    MulRange(m, x, carry, 0);
  }

  /** Operator *= with a 32-bit factor. Every intermediate fits 64 bits. */
  method MulSmall(a: array<nat>, m: nat)
    requires m < BASE && Wide(a[..])
    modifies a
    ensures Wide(a[..]) && Val(a[..]) == (m * Val(old(a[..]))) % PowB(a.Length)
  {
    hide Val, PowB, MulAdd;
    ghost var x := a[..];
    var carry: nat := 0;
    ValEmpty(x, m);
    for i := 0 to a.Length
      invariant carry < BASE && Wide(a[..i]) && Wide(x)
      invariant a[i..] == x[i..]
      invariant Val(a[..][..i]) + carry * PowB(i) == m * Val(x[..i])
    {
      ghost var before := a[..];
      assert a[i] == x[i];
      var n := MulAdd(carry, m, a[i]);
      MulAddRange(carry, m, a[i]);
      a[i] := n % BASE;
      PrefixKept(before, a[..], i);
      MulSmallStep(x, before, a[..], i, m, carry);
      carry := n / BASE;
    }
    assert a[..][..a.Length] == a[..] && x[..a.Length] == x;
    ValBound(a[..]);
    ModIs(m * Val(x), PowB(a.Length), Val(a[..]), carry);
  }

  lemma ValEmpty(x: seq<nat>, m: int)
    ensures Val(x[..0]) == 0 && PowB(0) == 1 && m * Val(x[..0]) == 0
  {
  }

  lemma MulSmallStep(x: seq<nat>, q: seq<nat>, r: seq<nat>, i: nat, m: nat, carry: nat)
    requires i < |x| == |q| == |r| && r[..i] == q[..i]
    requires Val(q[..i]) + carry * PowB(i) == m * Val(x[..i]) && r[i] == MulAdd(carry, m, x[i]) % BASE
    ensures Val(r[..i + 1]) + (MulAdd(carry, m, x[i]) / BASE) * PowB(i + 1) == m * Val(x[..i + 1])
  {
    hide Val, PowB;
    MulLimb(Val(q[..i]), carry, PowB(i), m * Val(x[..i]), x[i], m);
    ValSnoc(r, i);
    ValSnoc(x, i);
    PowBNext(i);
    assert m * (Val(x[..i]) + x[i] * PowB(i)) == m * Val(x[..i]) + m * (x[i] * PowB(i));
  }

  /** After i steps of the inner loop, q holds x plus m times y[..i], shifted j limbs. */
  ghost predicate Row(x: seq<nat>, y: seq<nat>, q: seq<nat>, i: nat, j: nat, m: nat, carry: nat) {
    && |x| == |y| == |q| && i + j <= |x| && m < BASE && carry < BASE && Wide(x) && Wide(y) && Wide(q)
    && q[i + j..] == x[i + j..]
    && Val(q[..i + j]) + carry * PowB(i + j) == Val(x[..i + j]) + m * (Val(y[..i]) * PowB(j))
  }

  /** The inner loop of operator *=: add limb m times b, shifted j limbs, to a. */
  method AddProduct(a: array<nat>, m: nat, b: array<nat>, j: nat) returns (ghost carried: nat)
    requires a.Length == b.Length && j < a.Length && m < BASE && Wide(a[..]) && Wide(b[..]) && (a == b ==> AllZero(a[..]))
    modifies a
    ensures Wide(a[..])
    ensures a != b ==> Val(a[..]) + carried * PowB(a.Length) == Val(old(a[..])) + m * (Val(b[..a.Length - j]) * PowB(j))
    ensures a == b ==> AllZero(a[..])
  {
    hide Val, PowB, Row;
    ghost var x, y := a[..], b[..];
    var carry: nat := 0;
    RowStart(x, y, j, m);
    for i := 0 to a.Length - j
      invariant a != b ==> b[..] == y && Row(x, y, a[..], i, j, m, carry)
      invariant a == b ==> AllZero(a[..]) && carry == 0
    {
      ghost var before := a[..];
      var n: nat := Partial(carry, a[i + j], m, b[i]);
      if a != b { RowStep(x, y, before, i, j, m, carry); } else { NothingAdded(m); }
      assert n < BASE * BASE;
      a[i + j] := n % BASE;
      carry := n / BASE;
      assert a[..] == before[i + j := (n % BASE) as nat];
    }
    if a != b {
      RowEnd(x, y, a[..], j, m, carry);
      assert y[..a.Length - j] == b[..a.Length - j];
    }
    carried := carry;
  }

  ghost predicate AllZero(q: seq<nat>) { forall i :: 0 <= i < |q| ==> q[i] == 0 }

  /** One 64-bit intermediate of the inner loop. */
  function Partial(carry: nat, limb: nat, m: nat, x: nat): nat { carry + limb + m * x }

  lemma NothingAdded(m: nat)
    ensures Partial(0, 0, m, 0) == 0
  {
  }

  lemma RowStart(x: seq<nat>, y: seq<nat>, j: nat, m: nat)
    requires j <= |x| == |y| && m < BASE && Wide(x) && Wide(y)
    ensures Row(x, y, x, 0, j, m, 0)
  {
  }

  lemma RowEnd(x: seq<nat>, y: seq<nat>, q: seq<nat>, j: nat, m: nat, carry: nat)
    requires j <= |x| == |y| && Row(x, y, q, |x| - j, j, m, carry)
    ensures Wide(q) && Val(q) + carry * PowB(|x|) == Val(x) + m * (Val(y[..|x| - j]) * PowB(j))
  {
    hide Val, PowB;
    assert q[..|x|] == q && x[..|x|] == x;
  }

  lemma RowStep(x: seq<nat>, y: seq<nat>, q: seq<nat>, i: nat, j: nat, m: nat, carry: nat)
    requires i + j < |x| && Row(x, y, q, i, j, m, carry)
    ensures |q| == |x| == |y|
    ensures var n := Partial(carry, q[i + j], m, y[i]);
            n < BASE * BASE && Row(x, y, q[i + j := (n % BASE) as nat], i + 1, j, m, n / BASE)
  {
    hide Val, PowB;
    assert q[i + j] == x[i + j];
    MulRange(m, y[i], carry, q[i + j]);
    var n := Partial(carry, q[i + j], m, y[i]);
    var r := q[i + j := (n % BASE) as nat];
    PrefixKept(q, r, i + j);
    AddProductStep(x, y, q, r, i, j, m, carry);
  }

  lemma AddProductStep(x: seq<nat>, y: seq<nat>, q: seq<nat>, r: seq<nat>, i: nat, j: nat, m: nat, carry: nat)
    requires i + j < |x| == |q| == |r| == |y| && r[..i + j] == q[..i + j]
    requires Val(q[..i + j]) + carry * PowB(i + j) == Val(x[..i + j]) + m * (Val(y[..i]) * PowB(j))
    requires r[i + j] == (carry + x[i + j] + m * y[i]) % BASE
    ensures Val(r[..i + 1 + j]) + ((carry + x[i + j] + m * y[i]) / BASE) * PowB(i + 1 + j)
         == Val(x[..i + 1 + j]) + m * (Val(y[..i + 1]) * PowB(j))
  {
    hide Val, PowB;
    var p := PowB(i + j);
    AddStep(Val(q[..i + j]), carry, p, Val(x[..i + j]) + m * (Val(y[..i]) * PowB(j)), x[i + j], m * y[i]);
    ValSnoc(r, i + j);
    ValSnoc(x, i + j);
    ValSnoc(y, i);
    PowBNext(i + j);
    PowBAdd(i, j);
    assert i + j + 1 == i + 1 + j;
    ProductShift(m, Val(y[..i]), y[i], PowB(i), PowB(j), p);
  }

  lemma ProductShift(m: int, v: int, y: int, pi: int, pj: int, p: int)
    requires p == pi * pj
    ensures m * ((v + y * pi) * pj) == m * (v * pj) + (m * y) * p
  {
    assert (v + y * pi) * pj == v * pj + y * (pi * pj);
    assert m * (y * p) == (m * y) * p;
  }

  /** What one row contributes, modulo the width. */
  lemma RowMod(m: int, y: seq<nat>, j: nat)
    requires j <= |y|
    ensures m * (Val(y) * PowB(j)) == m * (Val(y[..|y| - j]) * PowB(j)) + m * Val(y[|y| - j..]) * PowB(|y|)
  {
    hide Val, PowB;
    var k := |y| - j;
    assert y == y[..k] + y[k..];
    ValConcat(y[..k], y[k..]);
    PowBAdd(k, j);
    RowAlgebra(m, Val(y[..k]), Val(y[k..]), PowB(k), PowB(j), PowB(|y|));
  }

  lemma RowAlgebra(m: int, lo: int, hi: int, pk: int, pj: int, w: int)
    requires w == pk * pj
    ensures m * ((lo + pk * hi) * pj) == m * (lo * pj) + m * hi * w
  {
    assert (lo + pk * hi) * pj == lo * pj + hi * w;
    assert m * (lo * pj + hi * w) == m * (lo * pj) + m * (hi * w);
    assert m * (hi * w) == m * hi * w;
  }

  /**
   Operator *=: the product of two different objects. A number multiplied by itself in place is zeroed
   before it is read, so the result is zero. That is the square exactly if the low half of the
   number's bits is zero.
   */
  method MulAssign(a: array<nat>, b: array<nat>)
    requires a.Length == b.Length && Wide(a[..]) && Wide(b[..])
    modifies a
    ensures Wide(a[..])
    ensures a == b ==> Val(a[..]) == 0
    ensures Val(a[..]) == (Val(old(a[..])) * Val(old(b[..]))) % PowB(a.Length)
        <==> a != b || Val(old(a[..])) % Pow2(16 * a.Length) == 0
  {
    hide Val, PowB;
    ghost var x, y := a[..], b[..];
    var copy := new nat[a.Length];
    forall i | 0 <= i < a.Length { copy[i] := a[i]; }
    forall i | 0 <= i < a.Length { a[i] := 0; }
    ValZero(a[..]);
    ValEmpty(x, Val(y));
    ghost var over := 0;
    for j := 0 to a.Length
      invariant Wide(a[..]) && copy[..] == x && (a == b ==> AllZero(a[..]))
      invariant a != b ==> b[..] == y && Val(a[..]) + over * PowB(a.Length) == Val(x[..j]) * Val(y)
    {
      ghost var before := Val(a[..]);
      ghost var carried := AddProduct(a, copy[j], b, j);
      if a != b {
        MulRow(x, y, j, before, Val(a[..]), over, carried, PowB(a.Length));
        over := over + carried + x[j] * Val(y[|y| - j..]);
      }
    }
    assert x[..a.Length] == x;
    ValBound(a[..]);
    if a != b {
      ModIs(Val(x) * Val(y), PowB(a.Length), Val(a[..]), over);
    } else {
      ValZero(a[..]);
      PowBIsPow2(a.Length);
      SquareVanishes(Val(x), 16 * a.Length);
    }
  }

  /** A square vanishes modulo 2^(2m) exactly if the number vanishes modulo 2^m. */
  lemma {:induction false} SquareVanishes(v: nat, m: nat)
    ensures (v * v) % Pow2(2 * m) == 0 <==> v % Pow2(m) == 0
  {
    hide Pow2;
    if m == 0 {
      PowOfNothing();
    } else {
      var u := v / 2;
      Pow2Next(m - 1);
      Pow2Next(2 * m - 1);
      Pow2Next(2 * m - 2);
      if v % 2 == 0 {
        SquareVanishes(u, m - 1);
        assert v == 2 * u;
        SquareOfDouble(u);
        ScaledZero(u * u, Pow2(2 * m - 2), 4);
        ScaledZero(u, Pow2(m - 1), 2);
      } else {
        SquareOfOdd(u);
        OddNotZero(v * v, Pow2(2 * m - 1));
        OddNotZero(v, Pow2(m - 1));
      }
    }
  }

  lemma PowOfNothing()
    ensures Pow2(0) == 1
  {
  }

  lemma SquareOfDouble(u: nat)
    ensures (2 * u) * (2 * u) == 4 * (u * u)
  {
  }

  lemma SquareOfOdd(u: nat)
    ensures ((2 * u + 1) * (2 * u + 1)) % 2 == 1
  {
    assert (2 * u + 1) * (2 * u + 1) == 2 * (2 * (u * u) + 2 * u) + 1;
  }

  lemma ScaledZero(x: nat, p: nat, k: nat)
    requires p > 0 && k > 0
    ensures k * p > 0 && ((k * x) % (k * p) == 0 <==> x % p == 0)
  {
    var q, r := x / p, x % p;
    MulMono(p, 1, k);
    MulMono(p, r + 1, k);
    assert k * x == k * r + q * (k * p);
    ModIs(k * x, k * p, k * r, q);
  }

  lemma OddNotZero(x: nat, p: nat)
    requires p > 0 && x % 2 == 1
    ensures x % (2 * p) != 0
  {
    var q := x / (2 * p);
    assert x == q * (2 * p) + x % (2 * p);
    assert q * (2 * p) == 2 * (q * p);
  }

  /** One round of the outer loop, with its overflow. */
  lemma MulRow(x: seq<nat>, y: seq<nat>, j: nat, before: int, after: int, over: int, carried: int, w: int)
    requires j < |x| == |y| && w == PowB(|y|) && before + over * w == Val(x[..j]) * Val(y)
    requires after + carried * w == before + x[j] * (Val(y[..|y| - j]) * PowB(j))
    ensures after + (over + carried + x[j] * Val(y[|y| - j..])) * w == Val(x[..j + 1]) * Val(y)
  {
    hide Val, PowB;
    RowMod(x[j], y, j);
    ValSnoc(x, j);
    RowSum(before, after, over, carried, w, Val(x[..j]), x[j], PowB(j), Val(y),
           x[j] * (Val(y[..|y| - j]) * PowB(j)), x[j] * Val(y[|y| - j..]));
  }

  lemma RowSum(before: int, after: int, over: int, carried: int, w: int, xs: int, x: int, p: int, y: int, low: int, high: int)
    requires before + over * w == xs * y && after + carried * w == before + low && x * (y * p) == low + high * w
    ensures after + (over + carried + high) * w == (xs + x * p) * y
  {
    assert (over + carried + high) * w == over * w + carried * w + high * w;
    assert (xs + x * p) * y == xs * y + x * (y * p);
  }
}
