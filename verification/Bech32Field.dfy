/**
 The field with 1024 elements as far as the checksum needs it. An element is ten bits; multiplying by
 a fixed one is a linear map, given by its values on the ten single bits. The element e has order
 1023: no nonzero element comes back sooner when multiplied by e again and again.
 */
module Bech32Field {
  import opened Basics
  import opened Bech32Checksum

  // ---------------------------------------------------------------- linear maps on ten bits

  datatype Table = Table(k0: bv32, k1: bv32, k2: bv32, k3: bv32, k4: bv32, k5: bv32, k6: bv32, k7: bv32, k8: bv32, k9: bv32)

  predicate Bit(v: bv32, mask: bv32) { v & mask != 0 }

  function AddBit(f: bv32, v: bv32, mask: bv32, k: bv32): bv32 { AddIf(f, Bit(v, mask), k) }

  /** The sum of the columns of t whose bits are set in v. */
  function Apply(t: Table, v: bv32): bv32 {
    var f0 := AddBit(0, v, 1, t.k0);
    var f1 := AddBit(f0, v, 2, t.k1);
    var f2 := AddBit(f1, v, 4, t.k2);
    var f3 := AddBit(f2, v, 8, t.k3);
    var f4 := AddBit(f3, v, 16, t.k4);
    var f5 := AddBit(f4, v, 32, t.k5);
    var f6 := AddBit(f5, v, 64, t.k6);
    var f7 := AddBit(f6, v, 128, t.k7);
    var f8 := AddBit(f7, v, 256, t.k8);
    AddBit(f8, v, 512, t.k9)
  }

  predicate IsMask(m: bv32) {
    m == 1 || m == 2 || m == 4 || m == 8 || m == 16 || m == 32 || m == 64 || m == 128 || m == 256 || m == 512
  }

  lemma MaskDistributes(u: bv32, v: bv32, m: bv32)
    ensures (u ^ v) & m == (u & m) ^ (v & m)
  {
  }

  lemma SingleBit(u: bv32, m: bv32)
    requires IsMask(m)
    ensures u & m == 0 || u & m == m
  {
  }

  lemma BitSums(m: bv32)
    ensures m ^ 0 == m && 0 ^ m == m && m ^ m == 0
  {
  }

  lemma BitLinear(u: bv32, v: bv32, mask: bv32)
    requires IsMask(mask)
    ensures Bit(Xor(u, v), mask) == (Bit(u, mask) != Bit(v, mask))
  {
    MaskDistributes(u, v, mask);
    SingleBit(u, mask);
    SingleBit(v, mask);
    BitSums(mask);
    BitSums(0);
  }

  lemma ZeroSum()
    ensures Xor(0, 0) == 0
  {
  }

  lemma AddBitLinear(f: bv32, g: bv32, u: bv32, v: bv32, mask: bv32, k: bv32)
    requires IsMask(mask)
    ensures AddBit(Xor(f, g), Xor(u, v), mask, k) == Xor(AddBit(f, u, mask, k), AddBit(g, v, mask, k))
  {
    hide AddIf, Bit, Xor;
    BitLinear(u, v, mask);
    AddIfLinear(f, g, Bit(u, mask), Bit(v, mask), k);
  }

  lemma ApplyLinear(t: Table, u: bv32, v: bv32)
    ensures Apply(t, Xor(u, v)) == Xor(Apply(t, u), Apply(t, v))
  {
    hide AddBit, Xor;
    ZeroSum();
    var f, g: bv32 := 0, 0;
    AddBitLinear(f, g, u, v, 1, t.k0);
    f, g := AddBit(f, u, 1, t.k0), AddBit(g, v, 1, t.k0);
    AddBitLinear(f, g, u, v, 2, t.k1);
    f, g := AddBit(f, u, 2, t.k1), AddBit(g, v, 2, t.k1);
    AddBitLinear(f, g, u, v, 4, t.k2);
    f, g := AddBit(f, u, 4, t.k2), AddBit(g, v, 4, t.k2);
    AddBitLinear(f, g, u, v, 8, t.k3);
    f, g := AddBit(f, u, 8, t.k3), AddBit(g, v, 8, t.k3);
    AddBitLinear(f, g, u, v, 16, t.k4);
    f, g := AddBit(f, u, 16, t.k4), AddBit(g, v, 16, t.k4);
    AddBitLinear(f, g, u, v, 32, t.k5);
    f, g := AddBit(f, u, 32, t.k5), AddBit(g, v, 32, t.k5);
    AddBitLinear(f, g, u, v, 64, t.k6);
    f, g := AddBit(f, u, 64, t.k6), AddBit(g, v, 64, t.k6);
    AddBitLinear(f, g, u, v, 128, t.k7);
    f, g := AddBit(f, u, 128, t.k7), AddBit(g, v, 128, t.k7);
    AddBitLinear(f, g, u, v, 256, t.k8);
    f, g := AddBit(f, u, 256, t.k8), AddBit(g, v, 256, t.k8);
    AddBitLinear(f, g, u, v, 512, t.k9);
  }

  lemma ApplyZero(t: Table)
    ensures Apply(t, 0) == 0
  {
  }

  lemma ApplyAddIf(t: Table, f: bv32, b: bool, k: bv32)
    ensures Apply(t, AddIf(f, b, k)) == AddIf(Apply(t, f), b, Apply(t, k))
  {
    hide Apply;
    ApplyLinear(t, f, k);
  }

  lemma ApplyAddBit(t: Table, f: bv32, v: bv32, mask: bv32, k: bv32)
    ensures Apply(t, AddBit(f, v, mask, k)) == AddBit(Apply(t, f), v, mask, Apply(t, k))
  {
    hide Apply, AddIf, Bit;
    ApplyAddIf(t, f, Bit(v, mask), k);
  }

  /** First b, then a. */
  function Composed(a: Table, b: Table): Table {
    Table(Apply(a, b.k0), Apply(a, b.k1), Apply(a, b.k2), Apply(a, b.k3), Apply(a, b.k4), Apply(a, b.k5), Apply(a, b.k6), Apply(a, b.k7), Apply(a, b.k8), Apply(a, b.k9))
  }

  lemma ComposedIs(a: Table, b: Table, v: bv32)
    ensures Apply(a, Apply(b, v)) == Apply(Composed(a, b), v)
  {
    hide AddBit, Apply;
    ApplyZero(a);
    var f: bv32 := 0;
    UnfoldApply(b, v);
    UnfoldApply(Composed(a, b), v);
    ApplyAddBit(a, f, v, 1, b.k0);
    f := AddBit(f, v, 1, b.k0);
    ApplyAddBit(a, f, v, 2, b.k1);
    f := AddBit(f, v, 2, b.k1);
    ApplyAddBit(a, f, v, 4, b.k2);
    f := AddBit(f, v, 4, b.k2);
    ApplyAddBit(a, f, v, 8, b.k3);
    f := AddBit(f, v, 8, b.k3);
    ApplyAddBit(a, f, v, 16, b.k4);
    f := AddBit(f, v, 16, b.k4);
    ApplyAddBit(a, f, v, 32, b.k5);
    f := AddBit(f, v, 32, b.k5);
    ApplyAddBit(a, f, v, 64, b.k6);
    f := AddBit(f, v, 64, b.k6);
    ApplyAddBit(a, f, v, 128, b.k7);
    f := AddBit(f, v, 128, b.k7);
    ApplyAddBit(a, f, v, 256, b.k8);
    f := AddBit(f, v, 256, b.k8);
    ApplyAddBit(a, f, v, 512, b.k9);
  }

  lemma UnfoldApply(t: Table, v: bv32)
    ensures Apply(t, v) == AddBit(AddBit(AddBit(AddBit(AddBit(AddBit(AddBit(AddBit(AddBit(AddBit(0, v, 1, t.k0), v, 2, t.k1), v, 4, t.k2), v, 8, t.k3), v, 16, t.k4), v, 32, t.k5), v, 64, t.k6), v, 128, t.k7), v, 256, t.k8), v, 512, t.k9)
  {
    hide AddBit;
  }

  ghost predicate Ten(v: bv32) { v < 1024 }

  const ONE := Table(0x1, 0x2, 0x4, 0x8, 0x10, 0x20, 0x40, 0x80, 0x100, 0x200)

  lemma ApplyOne(v: bv32)
    requires Ten(v)
    ensures Apply(ONE, v) == v
  {
  }

  predicate Narrow(t: Table) {
    && t.k0 < 1024 && t.k1 < 1024 && t.k2 < 1024 && t.k3 < 1024 && t.k4 < 1024
    && t.k5 < 1024 && t.k6 < 1024 && t.k7 < 1024 && t.k8 < 1024 && t.k9 < 1024
  }

  lemma AddBitTen(f: bv32, v: bv32, mask: bv32, k: bv32)
    requires Ten(f) && k < 1024
    ensures Ten(AddBit(f, v, mask, k))
  {
  }

  lemma ApplyTen(t: Table, v: bv32)
    requires Narrow(t)
    ensures Ten(Apply(t, v))
  {
    hide AddBit;
    var f: bv32 := 0;
    AddBitTen(f, v, 1, t.k0);
    f := AddBit(f, v, 1, t.k0);
    AddBitTen(f, v, 2, t.k1);
    f := AddBit(f, v, 2, t.k1);
    AddBitTen(f, v, 4, t.k2);
    f := AddBit(f, v, 4, t.k2);
    AddBitTen(f, v, 8, t.k3);
    f := AddBit(f, v, 8, t.k3);
    AddBitTen(f, v, 16, t.k4);
    f := AddBit(f, v, 16, t.k4);
    AddBitTen(f, v, 32, t.k5);
    f := AddBit(f, v, 32, t.k5);
    AddBitTen(f, v, 64, t.k6);
    f := AddBit(f, v, 64, t.k6);
    AddBitTen(f, v, 128, t.k7);
    f := AddBit(f, v, 128, t.k7);
    AddBitTen(f, v, 256, t.k8);
    f := AddBit(f, v, 256, t.k8);
    AddBitTen(f, v, 512, t.k9);
    f := AddBit(f, v, 512, t.k9);
  }

  /** An inverse table shows that a map loses nothing. */
  lemma Injective(t: Table, inverse: Table, u: bv32, v: bv32)
    requires Composed(inverse, t) == ONE && Ten(u) && Ten(v) && Apply(t, u) == Apply(t, v)
    ensures u == v
  {
    hide Apply;
    ComposedIs(inverse, t, u);
    ComposedIs(inverse, t, v);
    ApplyOne(u);
    ApplyOne(v);
  }

  // ---------------------------------------------------------------- repeated maps

  function Iterate(t: Table, n: nat, v: bv32): bv32
    decreases n
  {
    if n == 0 then v else Apply(t, Iterate(t, n - 1, v))
  }

  lemma {:induction false} IterateAdd(t: Table, m: nat, n: nat, v: bv32)
    ensures Iterate(t, m + n, v) == Iterate(t, m, Iterate(t, n, v))
    decreases m
  {
    hide Apply;
    if m > 0 { IterateAdd(t, m - 1, n, v); }
  }

  lemma {:induction false} IterateLinear(t: Table, n: nat, u: bv32, v: bv32)
    ensures Iterate(t, n, Xor(u, v)) == Xor(Iterate(t, n, u), Iterate(t, n, v))
    decreases n
  {
    hide Apply, Xor;
    if n > 0 {
      IterateLinear(t, n - 1, u, v);
      ApplyLinear(t, Iterate(t, n - 1, u), Iterate(t, n - 1, v));
    }
  }

  lemma {:induction false} IterateTen(t: Table, n: nat, v: bv32)
    requires Narrow(t) && Ten(v)
    ensures Ten(Iterate(t, n, v))
    decreases n
  {
    hide Apply, Narrow, Ten;
    if n > 0 { ApplyTen(t, Iterate(t, n - 1, v)); }
  }

  lemma {:induction false} IterateInjective(t: Table, inverse: Table, n: nat, u: bv32, v: bv32)
    requires Narrow(t) && Composed(inverse, t) == ONE && Ten(u) && Ten(v) && Iterate(t, n, u) == Iterate(t, n, v)
    ensures u == v
    decreases n
  {
    hide Apply, Narrow, Ten, Composed;
    if n > 0 {
      IterateTen(t, n - 1, u);
      IterateTen(t, n - 1, v);
      Injective(t, inverse, Iterate(t, n - 1, u), Iterate(t, n - 1, v));
      IterateInjective(t, inverse, n - 1, u, v);
    }
  }

  lemma {:induction false} IterateZero(t: Table, n: nat)
    ensures Iterate(t, n, 0) == 0
    decreases n
  {
    hide Apply;
    if n > 0 {
      IterateZero(t, n - 1);
      ApplyZero(t);
    }
  }

  // ---------------------------------------------------------------- the order of e

  // Multiplication by powers of e.
  const E1 := Table(0x20, 0x40, 0x80, 0x100, 0x200, 0x137, 0x247, 0x1ae, 0x35c, 0x3b1)
  const E2 := Table(0x137, 0x247, 0x1ae, 0x35c, 0x3b1, 0x8b, 0x116, 0x205, 0x12a, 0x254)
  const E4 := Table(0xce, 0x19c, 0x311, 0x32b, 0x376, 0x229, 0x172, 0x2cd, 0xba, 0x15d)
  const E8 := Table(0x219, 0x13b, 0x25f, 0x1b7, 0x347, 0x91, 0x10b, 0x216, 0x125, 0x24a)
  const E16 := Table(0x2a3, 0x66, 0xcc, 0x198, 0x319, 0x348, 0x3b0, 0x269, 0x1f2, 0x3cd)
  const E32 := Table(0x29, 0x52, 0x8d, 0x11a, 0x21d, 0x17, 0x7, 0xe, 0x1c, 0x11)
  const E64 := Table(0x124, 0x248, 0x1b0, 0x349, 0x3b2, 0x2eb, 0xf6, 0x1c5, 0x38a, 0x234)
  const E128 := Table(0xd1, 0x18b, 0x316, 0x325, 0x36a, 0x1c9, 0x392, 0x22d, 0x17a, 0x2dd)
  const E256 := Table(0x204, 0x128, 0x250, 0x1a9, 0x352, 0x331, 0x36b, 0x3f6, 0x2e5, 0xea)
  const E5 := Table(0x229, 0x172, 0x2cd, 0xba, 0x15d, 0x3a6, 0x26c, 0x1f8, 0x3d9, 0x2bb)
  const E13 := Table(0x175, 0x2c3, 0xa6, 0x14c, 0x298, 0x28c, 0x38, 0x59, 0x9b, 0x11f)
  const E21 := Table(0x3be, 0x275, 0x1e3, 0x3c6, 0x2ac, 0x3b4, 0x261, 0x1e2, 0x3c4, 0x2a8)
  const E29 := Table(0x7c, 0xd1, 0x18b, 0x316, 0x325, 0xf0, 0x1c9, 0x392, 0x22d, 0x17a)
  const E33 := Table(0x17, 0x7, 0xe, 0x1c, 0x11, 0x2e0, 0xe0, 0x1c0, 0x380, 0x220)
  const E85 := Table(0x193, 0x30f, 0x33e, 0x375, 0x3e3, 0x92, 0x10d, 0x21a, 0x13d, 0x253)
  const E93 := Table(0x356, 0x3a5, 0x26a, 0x1f4, 0x3c1, 0x6a, 0xd4, 0x181, 0x302, 0x324)
  const E341 := Table(0x16d, 0x2da, 0xbd, 0x153, 0x28f, 0x18c, 0x318, 0x339, 0x37b, 0x3ff)
  const E682 := Table(0x16c, 0x2d8, 0xb9, 0x15b, 0x29f, 0x1ac, 0x358, 0x3b9, 0x27b, 0x1ff)
  const E_INVERSE := Table(0x266, 0x1ec, 0x3d8, 0x2b9, 0x7b, 0x1, 0x2, 0x4, 0x8, 0x10)

  ghost predicate IsPower(n: nat, t: Table) { forall v: bv32 :: Iterate(E1, n, v) == Apply(t, v) }

  lemma PowerSum(m: nat, n: nat, a: Table, b: Table)
    requires IsPower(m, a) && IsPower(n, b)
    ensures IsPower(m + n, Composed(a, b))
  {
    hide Apply, Iterate, Composed;
    forall v: bv32 ensures Iterate(E1, m + n, v) == Apply(Composed(a, b), v) {
      IterateAdd(E1, m, n, v);
      ComposedIs(a, b, v);
    }
  }

  lemma FirstPower()
    ensures IsPower(1, E1)
  {
    hide Apply;
    forall v: bv32 ensures Iterate(E1, 1, v) == Apply(E1, v) {
      assert Iterate(E1, 0, v) == v;
    }
  }

  lemma Product2()
    ensures Composed(E1, E1) == E2
  {
  }

  lemma Product4()
    ensures Composed(E2, E2) == E4
  {
  }

  lemma Product8()
    ensures Composed(E4, E4) == E8
  {
  }

  lemma Product16()
    ensures Composed(E8, E8) == E16
  {
  }

  lemma Product32()
    ensures Composed(E16, E16) == E32
  {
  }

  lemma Product64()
    ensures Composed(E32, E32) == E64
  {
  }

  lemma Product128()
    ensures Composed(E64, E64) == E128
  {
  }

  lemma Product256()
    ensures Composed(E128, E128) == E256
  {
  }

  lemma Product5()
    ensures Composed(E4, E1) == E5
  {
  }

  lemma Product13()
    ensures Composed(E8, E5) == E13
  {
  }

  lemma Product21()
    ensures Composed(E16, E5) == E21
  {
  }

  lemma Product29()
    ensures Composed(E16, E13) == E29
  {
  }

  lemma Product33()
    ensures Composed(E32, E1) == E33
  {
  }

  lemma Product85()
    ensures Composed(E64, E21) == E85
  {
  }

  lemma Product93()
    ensures Composed(E64, E29) == E93
  {
  }

  lemma Product341()
    ensures Composed(E256, E85) == E341
  {
  }

  lemma Product682()
    ensures Composed(E341, E341) == E682
  {
  }

  lemma Product1023()
    ensures Composed(E682, E341) == ONE
  {
  }

  lemma InverseOfE()
    ensures Composed(E_INVERSE, E1) == ONE && Narrow(E1)
  {
  }

  lemma SmallPowers()
    ensures IsPower(1, E1) && IsPower(2, E2) && IsPower(4, E4) && IsPower(8, E8) && IsPower(16, E16)
  {
    hide *;
    FirstPower();
    Product2();
    PowerSum(1, 1, E1, E1);
    Product4();
    PowerSum(2, 2, E2, E2);
    Product8();
    PowerSum(4, 4, E4, E4);
    Product16();
    PowerSum(8, 8, E8, E8);
  }

  lemma LargePowers()
    ensures IsPower(32, E32) && IsPower(64, E64) && IsPower(128, E128) && IsPower(256, E256)
  {
    hide *;
    SmallPowers();
    Product32();
    PowerSum(16, 16, E16, E16);
    Product64();
    PowerSum(32, 32, E32, E32);
    Product128();
    PowerSum(64, 64, E64, E64);
    Product256();
    PowerSum(128, 128, E128, E128);
  }

  lemma OddPowers()
    ensures IsPower(33, E33) && IsPower(93, E93) && IsPower(341, E341)
  {
    hide *;
    SmallPowers();
    LargePowers();
    Product5();
    PowerSum(4, 1, E4, E1);
    Product13();
    PowerSum(8, 5, E8, E5);
    Product21();
    PowerSum(16, 5, E16, E5);
    Product29();
    PowerSum(16, 13, E16, E13);
    Product33();
    PowerSum(32, 1, E32, E1);
    Product85();
    PowerSum(64, 21, E64, E21);
    Product93();
    PowerSum(64, 29, E64, E29);
    Product341();
    PowerSum(256, 85, E256, E85);
  }

  lemma FullPower()
    ensures IsPower(1023, ONE)
  {
    hide *;
    OddPowers();
    Product682();
    PowerSum(341, 341, E341, E341);
    Product1023();
    PowerSum(682, 341, E682, E341);
  }

  // ---------------------------------------------------------------- sums of maps

  function Plus(a: Table, b: Table): Table {
    Table(Xor(a.k0, b.k0), Xor(a.k1, b.k1), Xor(a.k2, b.k2), Xor(a.k3, b.k3), Xor(a.k4, b.k4), Xor(a.k5, b.k5), Xor(a.k6, b.k6), Xor(a.k7, b.k7), Xor(a.k8, b.k8), Xor(a.k9, b.k9))
  }

  lemma XorComm(a: bv32, b: bv32)
    ensures Xor(a, b) == Xor(b, a)
  {
  }

  lemma XorAssoc(a: bv32, b: bv32, c: bv32)
    ensures Xor(Xor(a, b), c) == Xor(a, Xor(b, c))
  {
  }

  lemma XorSwap(a: bv32, b: bv32, c: bv32, d: bv32)
    ensures Xor(Xor(a, b), Xor(c, d)) == Xor(Xor(a, c), Xor(b, d))
  {
    hide Xor;
    XorAssoc(a, b, Xor(c, d));
    XorAssoc(b, c, d);
    XorComm(b, c);
    XorAssoc(c, b, d);
    XorAssoc(a, c, Xor(b, d));
  }

  lemma AddIfIs(f: bv32, b: bool, k: bv32)
    ensures AddIf(f, b, k) == if b then Xor(f, k) else f
  {
  }

  lemma AddBitPlus(f: bv32, g: bv32, v: bv32, mask: bv32, k: bv32, l: bv32)
    ensures AddBit(Xor(f, g), v, mask, Xor(k, l)) == Xor(AddBit(f, v, mask, k), AddBit(g, v, mask, l))
  {
    hide AddIf, Bit, Xor;
    AddIfIs(Xor(f, g), Bit(v, mask), Xor(k, l));
    AddIfIs(f, Bit(v, mask), k);
    AddIfIs(g, Bit(v, mask), l);
    XorSwap(f, g, k, l);
  }

  lemma PlusIs(a: Table, b: Table, v: bv32)
    ensures Apply(Plus(a, b), v) == Xor(Apply(a, v), Apply(b, v))
  {
    hide AddBit, Xor;
    ZeroSum();
    var f, g: bv32 := 0, 0;
    AddBitPlus(f, g, v, 1, a.k0, b.k0);
    f, g := AddBit(f, v, 1, a.k0), AddBit(g, v, 1, b.k0);
    AddBitPlus(f, g, v, 2, a.k1, b.k1);
    f, g := AddBit(f, v, 2, a.k1), AddBit(g, v, 2, b.k1);
    AddBitPlus(f, g, v, 4, a.k2, b.k2);
    f, g := AddBit(f, v, 4, a.k2), AddBit(g, v, 4, b.k2);
    AddBitPlus(f, g, v, 8, a.k3, b.k3);
    f, g := AddBit(f, v, 8, a.k3), AddBit(g, v, 8, b.k3);
    AddBitPlus(f, g, v, 16, a.k4, b.k4);
    f, g := AddBit(f, v, 16, a.k4), AddBit(g, v, 16, b.k4);
    AddBitPlus(f, g, v, 32, a.k5, b.k5);
    f, g := AddBit(f, v, 32, a.k5), AddBit(g, v, 32, b.k5);
    AddBitPlus(f, g, v, 64, a.k6, b.k6);
    f, g := AddBit(f, v, 64, a.k6), AddBit(g, v, 64, b.k6);
    AddBitPlus(f, g, v, 128, a.k7, b.k7);
    f, g := AddBit(f, v, 128, a.k7), AddBit(g, v, 128, b.k7);
    AddBitPlus(f, g, v, 256, a.k8, b.k8);
    f, g := AddBit(f, v, 256, a.k8), AddBit(g, v, 256, b.k8);
    AddBitPlus(f, g, v, 512, a.k9, b.k9);
  }

  /** If t plus the identity has an inverse, t fixes nothing but zero. */
  lemma NothingFixed(t: Table, inverse: Table, v: bv32)
    requires Composed(inverse, Plus(t, ONE)) == ONE && Ten(v) && Apply(t, v) == v
    ensures v == 0
  {
    hide Apply, Composed, Plus, Xor;
    PlusIs(t, ONE, v);
    ApplyOne(v);
    XorOfEqual(v);
    ComposedIs(inverse, Plus(t, ONE), v);
    ApplyZero(inverse);
  }

  // Inverses of one plus a power of e.
  const D33_INVERSE := Table(0x10, 0x9, 0x12, 0xd, 0x1a, 0x200, 0x120, 0x240, 0x1a0, 0x340)
  const D93_INVERSE := Table(0x17b, 0x2df, 0xb7, 0x147, 0x28e, 0x34c, 0x3b8, 0x279, 0x1fb, 0x3df)
  const D341_INVERSE := Table(0x16d, 0x2da, 0xbd, 0x153, 0x28f, 0x18c, 0x318, 0x339, 0x37b, 0x3ff)

  lemma Difference33()
    ensures Composed(D33_INVERSE, Plus(E33, ONE)) == ONE
  {
    assert Plus(E33, ONE) == Table(0x16, 0x5, 0xa, 0x14, 0x1, 0x2c0, 0xa0, 0x140, 0x280, 0x20);
  }

  lemma Difference93()
    ensures Composed(D93_INVERSE, Plus(E93, ONE)) == ONE
  {
    assert Plus(E93, ONE) == Table(0x357, 0x3a7, 0x26e, 0x1fc, 0x3d1, 0x4a, 0x94, 0x101, 0x202, 0x124);
  }

  lemma Difference341()
    ensures Composed(D341_INVERSE, Plus(E341, ONE)) == ONE
  {
    assert Plus(E341, ONE) == Table(0x16c, 0x2d8, 0xb9, 0x15b, 0x29f, 0x1ac, 0x358, 0x3b9, 0x27b, 0x1ff);
  }

  // ---------------------------------------------------------------- nothing returns before 1023 steps

  ghost predicate Fixed(n: nat, v: bv32) { Iterate(E1, n, v) == v }

  lemma FixedDifference(a: nat, b: nat, v: bv32)
    requires Ten(v) && b <= a && Fixed(a, v) && Fixed(b, v)
    ensures Fixed(a - b, v)
  {
    hide Iterate, Apply, Composed, Narrow, Ten;
    IterateAdd(E1, b, a - b, v);
    InverseOfE();
    IterateTen(E1, a - b, v);
    IterateInjective(E1, E_INVERSE, b, Iterate(E1, a - b, v), v);
  }

  lemma {:induction false} FixedMultiple(g: nat, z: nat, v: bv32)
    requires Fixed(g, v)
    ensures Fixed(g * z, v)
    decreases z
  {
    hide Apply;
    if z == 0 {
      assert g * z == 0;
    } else {
      FixedMultiple(g, z - 1, v);
      IterateAdd(E1, g, g * (z - 1), v);
      assert g + g * (z - 1) == g * z;
    }
  }

  /** What is fixed by two powers is fixed by a power that divides both. */
  lemma {:induction false} FixedDivisor(a: nat, b: nat, v: bv32) returns (g: nat, x: nat, y: nat)
    requires a > 0 && b > 0 && Ten(v) && Fixed(a, v) && Fixed(b, v)
    ensures g > 0 && a == g * x && b == g * y && Fixed(g, v)
    decreases a + b
  {
    hide Fixed, Ten;
    if a == b {
      g, x, y := a, 1, 1;
    } else if a > b {
      FixedDifference(a, b, v);
      g, x, y := FixedDivisor(a - b, b, v);
      assert g * (x + y) == g * x + g * y;
      x := x + y;
    } else {
      FixedDifference(b, a, v);
      g, x, y := FixedDivisor(a, b - a, v);
      assert g * (x + y) == g * x + g * y;
      y := x + y;
    }
  }

  /** A proper divisor of 1023 divides 341, 93 or 33. */
  lemma ProperDivisor(g: nat, y: nat) returns (z: nat)
    requires g * y == 1023 && y >= 2
    ensures g * z == 341 || g * z == 93 || g * z == 33
  {
    if y <= 31 {
      SmallCofactor(g, y);
      z := 1;
    } else {
      if g >= 32 { MulMono(g, 32, y); }
      z := SmallDivisor(g, y);
    }
  }

  lemma SmallCofactor(g: nat, y: nat)
    requires g * y == 1023 && 2 <= y <= 31
    ensures g == 341 || g == 93 || g == 33
  {
    match y { case 2 => case 3 => case 4 => case 5 => case 6 => case 7 => case 8 => case 9 => case 10 => case 11 => case 12 => case 13 => case 14 => case 15 => case 16 => case 17 => case 18 => case 19 => case 20 => case 21 => case 22 => case 23 => case 24 => case 25 => case 26 => case 27 => case 28 => case 29 => case 30 => case _ => }
  }

  lemma SmallDivisor(g: nat, y: nat) returns (z: nat)
    requires g * y == 1023 && g <= 31
    ensures g * z == 341 || g * z == 93 || g * z == 33
  {
    match g { case 0 => case 2 => case 4 => case 5 => case 6 => case 7 => case 8 => case 9 => case 10 => case 12 => case 13 => case 14 => case 15 => case 16 => case 17 => case 18 => case 19 => case 20 => case 21 => case 22 => case 23 => case 24 => case 25 => case 26 => case 27 => case 28 => case 29 => case 30 => case _ => }
    z := if g == 1 then 341 else if g == 3 then 31 else if g == 11 then 31 else 11;
  }

  /** Every nonzero element comes back only after 1023 multiplications by e. */
  lemma OrderOfE(k: nat, v: bv32)
    requires Ten(v) && v != 0 && 0 < k < 1023
    ensures Iterate(E1, k, v) != v
  {
    hide Iterate, Apply, Composed, IsPower, Plus;
    if Fixed(k, v) {
      FullPower();
      PowerIs(1023, ONE, v);
      ApplyOne(v);
      var g, x, y := FixedDivisor(k, 1023, v);
      AtLeastTwo(g, x, y, k);
      var z := ProperDivisor(g, y);
      FixedMultiple(g, z, v);
      OddPowers();
      Difference33();
      Difference93();
      Difference341();
      if g * z == 341 {
        PowerIs(341, E341, v);
        NothingFixed(E341, D341_INVERSE, v);
      } else if g * z == 93 {
        PowerIs(93, E93, v);
        NothingFixed(E93, D93_INVERSE, v);
      } else {
        PowerIs(33, E33, v);
        NothingFixed(E33, D33_INVERSE, v);
      }
    }
  }

  lemma PowerIs(n: nat, t: Table, v: bv32)
    requires IsPower(n, t)
    ensures Iterate(E1, n, v) == Apply(t, v)
  {
    hide Iterate, Apply;
  }

  lemma AtLeastTwo(g: nat, x: nat, y: nat, k: nat)
    requires g > 0 && k == g * x && 1023 == g * y && 0 < k < 1023
    ensures y >= 2
  {
    if y == 1 { if x >= 1 { MulMono(x, 1, g); } }
  }
}
