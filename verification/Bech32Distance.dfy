/**
 Any three wrong symbols within 1023 are detected. The generator polynomial of the checksum has three
 roots r, r*e, r*e^2 in the field with 1024 elements; a vanishing remainder vanishes at all three,
 and three equations in three unknowns with distinct powers of e have only the zero solution.
 */
module Bech32Distance {
  import opened Bech32Checksum
  import opened Bech32Field

  // ---------------------------------------------------------------- evaluation at the roots

  // Multiplication by the three roots.
  const R0 := Table(0x1bd, 0x353, 0x3af, 0x27e, 0x1f5, 0x65, 0xca, 0x194, 0x301, 0x322)
  const R1 := Table(0x65, 0xca, 0x194, 0x301, 0x322, 0x3d0, 0x2a9, 0x72, 0xcd, 0x19a)
  const R2 := Table(0x3d0, 0x2a9, 0x72, 0xcd, 0x19a, 0x104, 0x208, 0x130, 0x249, 0x1b2)
  const R_INVERSE := Table(0x164, 0x2c8, 0xb0, 0x149, 0x292, 0xac, 0x158, 0x299, 0x3b, 0x5f)

  lemma RootRatios()
    ensures Composed(R0, E1) == R1 && Composed(E1, R0) == R1
  {
  }

  lemma NextRatios()
    ensures Composed(R1, E1) == R2 && Composed(E1, R1) == R2
  {
  }

  lemma InverseOfRoot()
    ensures Composed(R_INVERSE, R0) == ONE && Narrow(R0)
  {
  }

  function Horner(t: Table, f: bv32, d: bv32): bv32 { Xor(Apply(t, f), d) }

  /** The value of the remainder, as a polynomial with six coefficients, at the root of t. */
  function Eval(t: Table, c: bv32): bv32 {
    var f1 := Horner(t, Digit(c, 0), Digit(c, 1));
    var f2 := Horner(t, f1, Digit(c, 2));
    var f3 := Horner(t, f2, Digit(c, 3));
    var f4 := Horner(t, f3, Digit(c, 4));
    Horner(t, f4, Digit(c, 5))
  }

  lemma DigitsLinear(a: bv32, b: bv32)
    ensures forall i :: 0 <= i < 6 ==> Digit(a ^ b, i) == Digit(a, i) ^ Digit(b, i)
  {
  }

  lemma DigitLinear(a: bv32, b: bv32, i: nat)
    requires i < 6
    ensures Digit(Xor(a, b), i) == Xor(Digit(a, i), Digit(b, i))
  {
    hide Digit;
    DigitsLinear(a, b);
  }

  lemma HornerLinear(t: Table, f: bv32, g: bv32, d: bv32, e: bv32)
    ensures Horner(t, Xor(f, g), Xor(d, e)) == Xor(Horner(t, f, d), Horner(t, g, e))
  {
    hide Apply, Xor;
    ApplyLinear(t, f, g);
    XorSwap(Apply(t, f), Apply(t, g), d, e);
  }

  lemma EvalLinear(t: Table, a: bv32, b: bv32)
    ensures Eval(t, Xor(a, b)) == Xor(Eval(t, a), Eval(t, b))
  {
    hide Horner, Digit, Xor;
    var f, g := Digit(a, 0), Digit(b, 0);
    DigitLinear(a, b, 0);
    DigitLinear(a, b, 1);
    HornerLinear(t, f, g, Digit(a, 1), Digit(b, 1));
    f, g := Horner(t, f, Digit(a, 1)), Horner(t, g, Digit(b, 1));
    DigitLinear(a, b, 2);
    HornerLinear(t, f, g, Digit(a, 2), Digit(b, 2));
    f, g := Horner(t, f, Digit(a, 2)), Horner(t, g, Digit(b, 2));
    DigitLinear(a, b, 3);
    HornerLinear(t, f, g, Digit(a, 3), Digit(b, 3));
    f, g := Horner(t, f, Digit(a, 3)), Horner(t, g, Digit(b, 3));
    DigitLinear(a, b, 4);
    HornerLinear(t, f, g, Digit(a, 4), Digit(b, 4));
    f, g := Horner(t, f, Digit(a, 4)), Horner(t, g, Digit(b, 4));
    DigitLinear(a, b, 5);
    HornerLinear(t, f, g, Digit(a, 5), Digit(b, 5));
  }

  lemma EvalAddIf(t: Table, f: bv32, b: bool, k: bv32)
    ensures Eval(t, AddIf(f, b, k)) == AddIf(Eval(t, f), b, Eval(t, k))
  {
    hide Eval, AddIf, Xor;
    AddIfIs(f, b, k);
    AddIfIs(Eval(t, f), b, Eval(t, k));
    EvalLinear(t, f, k);
  }

  lemma HornerFromZero(t: Table, d: bv32)
    ensures Horner(t, 0, d) == d
  {
    hide Apply, Xor;
    ApplyZero(t);
    XorWithZero(d);
  }

  lemma HornerWithZero(t: Table, f: bv32)
    ensures Horner(t, f, 0) == Apply(t, f)
  {
    hide Apply, Xor;
    XorWithZero(Apply(t, f));
  }

  /** A single symbol evaluates to itself. */
  lemma EvalSymbol(t: Table, a: bv32)
    requires a < 32
    ensures Eval(t, a) == a
  {
    hide Horner, Digit;
    SymbolDigits(a);
    HornerFromZero(t, 0);
    HornerFromZero(t, a);
  }

  lemma SymbolDigits(a: bv32)
    requires a < 32
    ensures Digit(a, 0) == 0 && Digit(a, 1) == 0 && Digit(a, 2) == 0 && Digit(a, 3) == 0 && Digit(a, 4) == 0 && Digit(a, 5) == a
  {
  }

  /** Without a leading coefficient, a round multiplies by the root. */
  lemma EvalShifted(t: Table, low: bv32)
    requires low < 0x200_0000
    ensures Eval(t, Feed(low, 0)) == Apply(t, Eval(t, low))
  {
    hide Horner, Digit, Apply;
    FeedDigits(low);
    HornerFromZero(t, Digit(low, 1));
    HornerWithZero(t, Eval(t, low));
  }

  lemma FeedDigits(low: bv32)
    requires low < 0x200_0000
    ensures Digit(low, 0) == 0 && Digit(Feed(low, 0), 5) == 0
    ensures Digit(Feed(low, 0), 0) == Digit(low, 1) && Digit(Feed(low, 0), 1) == Digit(low, 2) && Digit(Feed(low, 0), 2) == Digit(low, 3)
    ensures Digit(Feed(low, 0), 3) == Digit(low, 4) && Digit(Feed(low, 0), 4) == Digit(low, 5)
  {
  }

  function Low(c: bv32): bv32 { c & 0x1ffffff }

  /** The leading coefficient put back bit by bit. */
  function WithLead(f: bv32, c: bv32, k: bv32, l: bv32, m: bv32, n: bv32, o: bv32): bv32 {
    AddIf(AddIf(AddIf(AddIf(AddIf(f, LeadBit(c, 1), k), LeadBit(c, 2), l), LeadBit(c, 4), m), LeadBit(c, 8), n), LeadBit(c, 16), o)
  }

  lemma LeadAndLow(c: bv32)
    requires c < 0x4000_0000
    ensures c == WithLead(Low(c), c, 0x200_0000, 0x400_0000, 0x800_0000, 0x1000_0000, 0x2000_0000)
    ensures Low(c) < 0x200_0000 && Feed(c, 0) == Feed(Low(c), 0)
  {
    LowFacts(c);
    hide Low, AddIf, LeadBit, Feed;
    LeadBits(c);
  }

  lemma LowFacts(c: bv32)
    ensures Low(c) < 0x200_0000 && Feed(c, 0) == Feed(Low(c), 0)
  {
  }

  lemma LeadBit1(c: bv32)
    ensures LeadBit(c, 1) ==> c & 0x3ffffff == (c & 0x1ffffff) ^ 0x2000000
    ensures !LeadBit(c, 1) ==> c & 0x3ffffff == c & 0x1ffffff
  {
  }

  lemma LeadBit2(c: bv32)
    ensures LeadBit(c, 2) ==> c & 0x7ffffff == (c & 0x3ffffff) ^ 0x4000000
    ensures !LeadBit(c, 2) ==> c & 0x7ffffff == c & 0x3ffffff
  {
  }

  lemma LeadBit4(c: bv32)
    ensures LeadBit(c, 4) ==> c & 0xfffffff == (c & 0x7ffffff) ^ 0x8000000
    ensures !LeadBit(c, 4) ==> c & 0xfffffff == c & 0x7ffffff
  {
  }

  lemma LeadBit8(c: bv32)
    ensures LeadBit(c, 8) ==> c & 0x1fffffff == (c & 0xfffffff) ^ 0x10000000
    ensures !LeadBit(c, 8) ==> c & 0x1fffffff == c & 0xfffffff
  {
  }

  lemma LeadBit16(c: bv32)
    requires c < 0x4000_0000
    ensures LeadBit(c, 16) ==> c == (c & 0x1fffffff) ^ 0x20000000
    ensures !LeadBit(c, 16) ==> c == c & 0x1fffffff
  {
  }

  lemma AddIfMeans(f: bv32, b: bool, k: bv32, g: bv32)
    requires b ==> g == f ^ k
    requires !b ==> g == f
    ensures AddIf(f, b, k) == g
  {
  }

  lemma LeadBits(c: bv32)
    requires c < 0x4000_0000
    ensures AddIf(Low(c), LeadBit(c, 1), 0x200_0000) == c & 0x3ffffff
    ensures AddIf(c & 0x3ffffff, LeadBit(c, 2), 0x400_0000) == c & 0x7ffffff
    ensures AddIf(c & 0x7ffffff, LeadBit(c, 4), 0x800_0000) == c & 0xfffffff
    ensures AddIf(c & 0xfffffff, LeadBit(c, 8), 0x1000_0000) == c & 0x1fffffff
    ensures AddIf(c & 0x1fffffff, LeadBit(c, 16), 0x2000_0000) == c
  {
    hide AddIf, LeadBit, Low;
    PutBit1(c);
    PutBit2(c);
    PutBit4(c);
    PutBit8(c);
    PutBit16(c);
  }

  lemma PutBit1(c: bv32)
    ensures AddIf(Low(c), LeadBit(c, 1), 0x2000000) == c & 0x3ffffff
  {
    hide AddIf, LeadBit;
    LeadBit1(c);
    AddIfMeans(c & 0x1ffffff, LeadBit(c, 1), 0x2000000, c & 0x3ffffff);
  }

  lemma PutBit2(c: bv32)
    ensures AddIf(c & 0x3ffffff, LeadBit(c, 2), 0x4000000) == c & 0x7ffffff
  {
    hide AddIf, LeadBit;
    LeadBit2(c);
    AddIfMeans(c & 0x3ffffff, LeadBit(c, 2), 0x4000000, c & 0x7ffffff);
  }

  lemma PutBit4(c: bv32)
    ensures AddIf(c & 0x7ffffff, LeadBit(c, 4), 0x8000000) == c & 0xfffffff
  {
    hide AddIf, LeadBit;
    LeadBit4(c);
    AddIfMeans(c & 0x7ffffff, LeadBit(c, 4), 0x8000000, c & 0xfffffff);
  }

  lemma PutBit8(c: bv32)
    ensures AddIf(c & 0xfffffff, LeadBit(c, 8), 0x10000000) == c & 0x1fffffff
  {
    hide AddIf, LeadBit;
    LeadBit8(c);
    AddIfMeans(c & 0xfffffff, LeadBit(c, 8), 0x10000000, c & 0x1fffffff);
  }

  lemma PutBit16(c: bv32)
    requires c < 0x4000_0000
    ensures AddIf(c & 0x1fffffff, LeadBit(c, 16), 0x20000000) == c
  {
    hide AddIf, LeadBit;
    LeadBit16(c);
    AddIfMeans(c & 0x1fffffff, LeadBit(c, 16), 0x20000000, c);
  }

  lemma StepIs(c: bv32)
    ensures Step(c, 0) == WithLead(Feed(c, 0), c, 0x3b6a57b2, 0x26508e6d, 0x1ea119fa, 0x3d4233dd, 0x2a1462b3)
  {
    hide AddIf, LeadBit, Feed;
  }

  lemma EvalWithLead(t: Table, f: bv32, c: bv32, k: bv32, l: bv32, m: bv32, n: bv32, o: bv32)
    ensures Eval(t, WithLead(f, c, k, l, m, n, o)) == WithLead(Eval(t, f), c, Eval(t, k), Eval(t, l), Eval(t, m), Eval(t, n), Eval(t, o))
  {
    hide Eval, AddIf, LeadBit;
    var g := f;
    EvalAddIf(t, g, LeadBit(c, 1), k);
    g := AddIf(g, LeadBit(c, 1), k);
    EvalAddIf(t, g, LeadBit(c, 2), l);
    g := AddIf(g, LeadBit(c, 2), l);
    EvalAddIf(t, g, LeadBit(c, 4), m);
    g := AddIf(g, LeadBit(c, 4), m);
    EvalAddIf(t, g, LeadBit(c, 8), n);
    g := AddIf(g, LeadBit(c, 8), n);
    EvalAddIf(t, g, LeadBit(c, 16), o);
  }

  lemma ApplyWithLead(t: Table, f: bv32, c: bv32, k: bv32, l: bv32, m: bv32, n: bv32, o: bv32)
    ensures Apply(t, WithLead(f, c, k, l, m, n, o)) == WithLead(Apply(t, f), c, Apply(t, k), Apply(t, l), Apply(t, m), Apply(t, n), Apply(t, o))
  {
    hide Apply, AddIf, LeadBit;
    var g := f;
    ApplyAddIf(t, g, LeadBit(c, 1), k);
    g := AddIf(g, LeadBit(c, 1), k);
    ApplyAddIf(t, g, LeadBit(c, 2), l);
    g := AddIf(g, LeadBit(c, 2), l);
    ApplyAddIf(t, g, LeadBit(c, 4), m);
    g := AddIf(g, LeadBit(c, 4), m);
    ApplyAddIf(t, g, LeadBit(c, 8), n);
    g := AddIf(g, LeadBit(c, 8), n);
    ApplyAddIf(t, g, LeadBit(c, 16), o);
  }

  /** t belongs to a root of the generator: reducing a leading coefficient does not change the value. */
  ghost predicate IsRoot(t: Table) {
    && Apply(t, Eval(t, 0x200_0000)) == Eval(t, 0x3b6a57b2)
    && Apply(t, Eval(t, 0x400_0000)) == Eval(t, 0x26508e6d)
    && Apply(t, Eval(t, 0x800_0000)) == Eval(t, 0x1ea119fa)
    && Apply(t, Eval(t, 0x1000_0000)) == Eval(t, 0x3d4233dd)
    && Apply(t, Eval(t, 0x2000_0000)) == Eval(t, 0x2a1462b3)
  }

  lemma EvalStep(t: Table, c: bv32)
    requires IsRoot(t) && c < 0x4000_0000
    ensures Eval(t, Step(c, 0)) == Apply(t, Eval(t, c))
  {
    hide Eval, Apply, Step, Feed, Low, WithLead;
    var low := Low(c);
    LeadAndLow(c);
    StepIs(c);
    EvalShifted(t, low);
    EvalWithLead(t, low, c, 0x200_0000, 0x400_0000, 0x800_0000, 0x1000_0000, 0x2000_0000);
    ApplyWithLead(t, Eval(t, low), c, Eval(t, 0x200_0000), Eval(t, 0x400_0000), Eval(t, 0x800_0000), Eval(t, 0x1000_0000), Eval(t, 0x2000_0000));
    EvalWithLead(t, Feed(c, 0), c, 0x3b6a57b2, 0x26508e6d, 0x1ea119fa, 0x3d4233dd, 0x2a1462b3);
  }

  lemma EvalUnfold(t: Table, c: bv32)
    ensures Eval(t, c) == Horner(t, Horner(t, Horner(t, Horner(t, Horner(t, Digit(c, 0), Digit(c, 1)), Digit(c, 2)), Digit(c, 3)), Digit(c, 4)), Digit(c, 5))
  {
    hide Horner, Digit;
  }

  lemma Digits0()
    ensures Digit(0x2000000, 0) == 1 && Digit(0x2000000, 1) == 0 && Digit(0x2000000, 2) == 0 && Digit(0x2000000, 3) == 0 && Digit(0x2000000, 4) == 0 && Digit(0x2000000, 5) == 0
    ensures Digit(0x3b6a57b2, 0) == 29 && Digit(0x3b6a57b2, 1) == 22 && Digit(0x3b6a57b2, 2) == 20 && Digit(0x3b6a57b2, 3) == 21 && Digit(0x3b6a57b2, 4) == 29 && Digit(0x3b6a57b2, 5) == 18
  {
  }

  lemma Digits1()
    ensures Digit(0x4000000, 0) == 2 && Digit(0x4000000, 1) == 0 && Digit(0x4000000, 2) == 0 && Digit(0x4000000, 3) == 0 && Digit(0x4000000, 4) == 0 && Digit(0x4000000, 5) == 0
    ensures Digit(0x26508e6d, 0) == 19 && Digit(0x26508e6d, 1) == 5 && Digit(0x26508e6d, 2) == 1 && Digit(0x26508e6d, 3) == 3 && Digit(0x26508e6d, 4) == 19 && Digit(0x26508e6d, 5) == 13
  {
  }

  lemma Digits2()
    ensures Digit(0x8000000, 0) == 4 && Digit(0x8000000, 1) == 0 && Digit(0x8000000, 2) == 0 && Digit(0x8000000, 3) == 0 && Digit(0x8000000, 4) == 0 && Digit(0x8000000, 5) == 0
    ensures Digit(0x1ea119fa, 0) == 15 && Digit(0x1ea119fa, 1) == 10 && Digit(0x1ea119fa, 2) == 2 && Digit(0x1ea119fa, 3) == 6 && Digit(0x1ea119fa, 4) == 15 && Digit(0x1ea119fa, 5) == 26
  {
  }

  lemma Digits3()
    ensures Digit(0x10000000, 0) == 8 && Digit(0x10000000, 1) == 0 && Digit(0x10000000, 2) == 0 && Digit(0x10000000, 3) == 0 && Digit(0x10000000, 4) == 0 && Digit(0x10000000, 5) == 0
    ensures Digit(0x3d4233dd, 0) == 30 && Digit(0x3d4233dd, 1) == 20 && Digit(0x3d4233dd, 2) == 4 && Digit(0x3d4233dd, 3) == 12 && Digit(0x3d4233dd, 4) == 30 && Digit(0x3d4233dd, 5) == 29
  {
  }

  lemma Digits4()
    ensures Digit(0x20000000, 0) == 16 && Digit(0x20000000, 1) == 0 && Digit(0x20000000, 2) == 0 && Digit(0x20000000, 3) == 0 && Digit(0x20000000, 4) == 0 && Digit(0x20000000, 5) == 0
    ensures Digit(0x2a1462b3, 0) == 21 && Digit(0x2a1462b3, 1) == 1 && Digit(0x2a1462b3, 2) == 8 && Digit(0x2a1462b3, 3) == 24 && Digit(0x2a1462b3, 4) == 21 && Digit(0x2a1462b3, 5) == 19
  {
  }

  lemma Root0()
    ensures IsRoot(R0)
  {
    hide Eval, Apply, Digit;
    Root0Bit0();
    Root0Bit1();
    Root0Bit2();
    Root0Bit3();
    Root0Bit4();
  }

  lemma Root0Bit0()
    ensures Apply(R0, Eval(R0, 0x2000000)) == Eval(R0, 0x3b6a57b2)
  {
    hide Eval, Digit;
    assert Horner(R0, 0x1, 0x0) == 0x1bd;
    assert Horner(R0, 0x1bd, 0x0) == 0x369;
    assert Horner(R0, 0x369, 0x0) == 0x34f;
    assert Horner(R0, 0x34f, 0x0) == 0x3d6;
    assert Horner(R0, 0x3d6, 0x0) == 0x74;
    assert Apply(R0, 0x74) == 0x2f5;
    assert Horner(R0, 0x1d, 0x16) == 0x18f;
    assert Horner(R0, 0x18f, 0x14) == 0x1be;
    assert Horner(R0, 0x1be, 0x15) == 0x192;
    assert Horner(R0, 0x192, 0x1d) == 0x2e;
    assert Horner(R0, 0x2e, 0x12) == 0x2f5;
    hide Horner, Apply;
    Digits0();
    EvalUnfold(R0, 0x2000000);
    EvalUnfold(R0, 0x3b6a57b2);
  }

  lemma Root0Bit1()
    ensures Apply(R0, Eval(R0, 0x4000000)) == Eval(R0, 0x26508e6d)
  {
    hide Eval, Digit;
    assert Horner(R0, 0x2, 0x0) == 0x353;
    assert Horner(R0, 0x353, 0x0) == 0x3f2;
    assert Horner(R0, 0x3f2, 0x0) == 0x3be;
    assert Horner(R0, 0x3be, 0x0) == 0x2a5;
    assert Horner(R0, 0x2a5, 0x0) == 0xc1;
    assert Apply(R0, 0xc1) == 0xe3;
    assert Horner(R0, 0x13, 0x5) == 0x31e;
    assert Horner(R0, 0x31e, 0x1) == 0x355;
    assert Horner(R0, 0x355, 0x3) == 0x30d;
    assert Horner(R0, 0x30d, 0x13) == 0x5c;
    assert Horner(R0, 0x5c, 0xd) == 0xe3;
    hide Horner, Apply;
    Digits1();
    EvalUnfold(R0, 0x4000000);
    EvalUnfold(R0, 0x26508e6d);
  }

  lemma Root0Bit2()
    ensures Apply(R0, Eval(R0, 0x8000000)) == Eval(R0, 0x1ea119fa)
  {
    hide Eval, Digit;
    assert Horner(R0, 0x4, 0x0) == 0x3af;
    assert Horner(R0, 0x3af, 0x0) == 0x2ed;
    assert Horner(R0, 0x2ed, 0x0) == 0x275;
    assert Horner(R0, 0x275, 0x0) == 0x6a;
    assert Horner(R0, 0x6a, 0x0) == 0x182;
    assert Apply(R0, 0x182) == 0x1c6;
    assert Horner(R0, 0xf, 0xa) == 0x335;
    assert Horner(R0, 0x335, 0x2) == 0x3a3;
    assert Horner(R0, 0x3a3, 0x6) == 0x33a;
    assert Horner(R0, 0x33a, 0xf) == 0x91;
    assert Horner(R0, 0x91, 0x1a) == 0x1c6;
    hide Horner, Apply;
    Digits2();
    EvalUnfold(R0, 0x8000000);
    EvalUnfold(R0, 0x1ea119fa);
  }

  lemma Root0Bit3()
    ensures Apply(R0, Eval(R0, 0x10000000)) == Eval(R0, 0x3d4233dd)
  {
    hide Eval, Digit;
    assert Horner(R0, 0x8, 0x0) == 0x27e;
    assert Horner(R0, 0x27e, 0x0) == 0xfa;
    assert Horner(R0, 0xfa, 0x0) == 0x1e3;
    assert Horner(R0, 0x1e3, 0x0) == 0xd4;
    assert Horner(R0, 0xd4, 0x0) == 0x304;
    assert Apply(R0, 0x304) == 0x38c;
    assert Horner(R0, 0x1e, 0x14) == 0x363;
    assert Horner(R0, 0x363, 0x4) == 0x266;
    assert Horner(R0, 0x266, 0xc) == 0x37d;
    assert Horner(R0, 0x37d, 0x1e) == 0x10b;
    assert Horner(R0, 0x10b, 0x1d) == 0x38c;
    hide Horner, Apply;
    Digits3();
    EvalUnfold(R0, 0x10000000);
    EvalUnfold(R0, 0x3d4233dd);
  }

  lemma Root0Bit4()
    ensures Apply(R0, Eval(R0, 0x20000000)) == Eval(R0, 0x2a1462b3)
  {
    hide Eval, Digit;
    assert Horner(R0, 0x10, 0x0) == 0x1f5;
    assert Horner(R0, 0x1f5, 0x0) == 0x1dd;
    assert Horner(R0, 0x1dd, 0x0) == 0x3c6;
    assert Horner(R0, 0x3c6, 0x0) == 0x181;
    assert Horner(R0, 0x181, 0x0) == 0x328;
    assert Apply(R0, 0x328) == 0x238;
    assert Horner(R0, 0x15, 0x1) == 0x3e6;
    assert Horner(R0, 0x3e6, 0x8) == 0x1ec;
    assert Horner(R0, 0x1ec, 0x18) == 0x3f3;
    assert Horner(R0, 0x3f3, 0x15) == 0x216;
    assert Horner(R0, 0x216, 0x13) == 0x238;
    hide Horner, Apply;
    Digits4();
    EvalUnfold(R0, 0x20000000);
    EvalUnfold(R0, 0x2a1462b3);
  }

  lemma Root1()
    ensures IsRoot(R1)
  {
    hide Eval, Apply, Digit;
    Root1Bit0();
    Root1Bit1();
    Root1Bit2();
    Root1Bit3();
    Root1Bit4();
  }

  lemma Root1Bit0()
    ensures Apply(R1, Eval(R1, 0x2000000)) == Eval(R1, 0x3b6a57b2)
  {
    hide Eval, Digit;
    assert Horner(R1, 0x1, 0x0) == 0x65;
    assert Horner(R1, 0x65, 0x0) == 0x88;
    assert Horner(R1, 0x88, 0x0) == 0x373;
    assert Horner(R1, 0x373, 0x0) == 0x3a3;
    assert Horner(R1, 0x3a3, 0x0) == 0x25a;
    assert Apply(R1, 0x25a) == 0x3da;
    assert Horner(R1, 0x1d, 0x16) == 0x1c4;
    assert Horner(R1, 0x1c4, 0x14) == 0x396;
    assert Horner(R1, 0x396, 0x15) == 0x34c;
    assert Horner(R1, 0x34c, 0x1d) == 0x176;
    assert Horner(R1, 0x176, 0x12) == 0x3da;
    hide Horner, Apply;
    Digits0();
    EvalUnfold(R1, 0x2000000);
    EvalUnfold(R1, 0x3b6a57b2);
  }

  lemma Root1Bit1()
    ensures Apply(R1, Eval(R1, 0x4000000)) == Eval(R1, 0x26508e6d)
  {
    hide Eval, Digit;
    assert Horner(R1, 0x2, 0x0) == 0xca;
    assert Horner(R1, 0xca, 0x0) == 0x110;
    assert Horner(R1, 0x110, 0x0) == 0x3ef;
    assert Horner(R1, 0x3ef, 0x0) == 0x266;
    assert Horner(R1, 0x266, 0x0) == 0x1bd;
    assert Apply(R1, 0x1bd) == 0x2bd;
    assert Horner(R1, 0x13, 0x5) == 0x388;
    assert Horner(R1, 0x388, 0x1) == 0x225;
    assert Horner(R1, 0x225, 0x3) == 0x3b8;
    assert Horner(R1, 0x3b8, 0x13) == 0x2c5;
    assert Horner(R1, 0x2c5, 0xd) == 0x2bd;
    hide Horner, Apply;
    Digits1();
    EvalUnfold(R1, 0x4000000);
    EvalUnfold(R1, 0x26508e6d);
  }

  lemma Root1Bit2()
    ensures Apply(R1, Eval(R1, 0x8000000)) == Eval(R1, 0x1ea119fa)
  {
    hide Eval, Digit;
    assert Horner(R1, 0x4, 0x0) == 0x194;
    assert Horner(R1, 0x194, 0x0) == 0x209;
    assert Horner(R1, 0x209, 0x0) == 0x2fe;
    assert Horner(R1, 0x2fe, 0x0) == 0x1ec;
    assert Horner(R1, 0x1ec, 0x0) == 0x353;
    assert Apply(R1, 0x353) == 0x73;
    assert Horner(R1, 0xf, 0xa) == 0x230;
    assert Horner(R1, 0x230, 0x2) == 0x16a;
    assert Horner(R1, 0x16a, 0x6) == 0x279;
    assert Horner(R1, 0x279, 0xf) == 0xaa;
    assert Horner(R1, 0xaa, 0x1a) == 0x73;
    hide Horner, Apply;
    Digits2();
    EvalUnfold(R1, 0x8000000);
    EvalUnfold(R1, 0x1ea119fa);
  }

  lemma Root1Bit3()
    ensures Apply(R1, Eval(R1, 0x10000000)) == Eval(R1, 0x3d4233dd)
  {
    hide Eval, Digit;
    assert Horner(R1, 0x8, 0x0) == 0x301;
    assert Horner(R1, 0x301, 0x0) == 0x132;
    assert Horner(R1, 0x132, 0x0) == 0xf5;
    assert Horner(R1, 0xf5, 0x0) == 0x3d8;
    assert Horner(R1, 0x3d8, 0x0) == 0x3af;
    assert Apply(R1, 0x3af) == 0xcf;
    assert Horner(R1, 0x1e, 0x14) == 0x169;
    assert Horner(R1, 0x169, 0x4) == 0x2d4;
    assert Horner(R1, 0x2d4, 0xc) == 0x1fb;
    assert Horner(R1, 0x1fb, 0x1e) == 0x154;
    assert Horner(R1, 0x154, 0x1d) == 0xcf;
    hide Horner, Apply;
    Digits3();
    EvalUnfold(R1, 0x10000000);
    EvalUnfold(R1, 0x3d4233dd);
  }

  lemma Root1Bit4()
    ensures Apply(R1, Eval(R1, 0x20000000)) == Eval(R1, 0x2a1462b3)
  {
    hide Eval, Digit;
    assert Horner(R1, 0x10, 0x0) == 0x322;
    assert Horner(R1, 0x322, 0x0) == 0x24d;
    assert Horner(R1, 0x24d, 0x0) == 0x1c3;
    assert Horner(R1, 0x1c3, 0x0) == 0x2b9;
    assert Horner(R1, 0x2b9, 0x0) == 0x27e;
    assert Apply(R1, 0x27e) == 0x19e;
    assert Horner(R1, 0x15, 0x1) == 0x2d2;
    assert Horner(R1, 0x2d2, 0x8) == 0xa1;
    assert Horner(R1, 0xa1, 0x18) == 0x3df;
    assert Horner(R1, 0x3df, 0x15) == 0x281;
    assert Horner(R1, 0x281, 0x13) == 0x19e;
    hide Horner, Apply;
    Digits4();
    EvalUnfold(R1, 0x20000000);
    EvalUnfold(R1, 0x2a1462b3);
  }

  lemma Root2()
    ensures IsRoot(R2)
  {
    hide Eval, Apply, Digit;
    Root2Bit0();
    Root2Bit1();
    Root2Bit2();
    Root2Bit3();
    Root2Bit4();
  }

  lemma Root2Bit0()
    ensures Apply(R2, Eval(R2, 0x2000000)) == Eval(R2, 0x3b6a57b2)
  {
    hide Eval, Digit;
    assert Horner(R2, 0x1, 0x0) == 0x3d0;
    assert Horner(R2, 0x3d0, 0x0) == 0x159;
    assert Horner(R2, 0x159, 0x0) == 0x2c6;
    assert Horner(R2, 0x2c6, 0x0) == 0x51;
    assert Horner(R2, 0x51, 0x0) == 0x42;
    assert Apply(R2, 0x42) == 0xa1;
    assert Horner(R2, 0x1d, 0x16) == 0x2e3;
    assert Horner(R2, 0x2e3, 0x14) == 0x2e3;
    assert Horner(R2, 0x2e3, 0x15) == 0x2e2;
    assert Horner(R2, 0x2e2, 0x1d) == 0x13a;
    assert Horner(R2, 0x13a, 0x12) == 0xa1;
    hide Horner, Apply;
    Digits0();
    EvalUnfold(R2, 0x2000000);
    EvalUnfold(R2, 0x3b6a57b2);
  }

  lemma Root2Bit1()
    ensures Apply(R2, Eval(R2, 0x4000000)) == Eval(R2, 0x26508e6d)
  {
    hide Eval, Digit;
    assert Horner(R2, 0x2, 0x0) == 0x2a9;
    assert Horner(R2, 0x2a9, 0x0) == 0x29b;
    assert Horner(R2, 0x29b, 0x0) == 0xac;
    assert Horner(R2, 0xac, 0x0) == 0x8b;
    assert Horner(R2, 0x8b, 0x0) == 0x84;
    assert Apply(R2, 0x84) == 0x142;
    assert Horner(R2, 0x13, 0x5) == 0xe6;
    assert Horner(R2, 0xe6, 0x1) == 0xe6;
    assert Horner(R2, 0xe6, 0x3) == 0xe4;
    assert Horner(R2, 0xe4, 0x13) == 0x25d;
    assert Horner(R2, 0x25d, 0xd) == 0x142;
    hide Horner, Apply;
    Digits1();
    EvalUnfold(R2, 0x4000000);
    EvalUnfold(R2, 0x26508e6d);
  }

  lemma Root2Bit2()
    ensures Apply(R2, Eval(R2, 0x8000000)) == Eval(R2, 0x1ea119fa)
  {
    hide Eval, Digit;
    assert Horner(R2, 0x4, 0x0) == 0x72;
    assert Horner(R2, 0x72, 0x0) == 0x3f;
    assert Horner(R2, 0x3f, 0x0) == 0x158;
    assert Horner(R2, 0x158, 0x0) == 0x116;
    assert Horner(R2, 0x116, 0x0) == 0x108;
    assert Apply(R2, 0x108) == 0x284;
    assert Horner(R2, 0xf, 0xa) == 0x1cc;
    assert Horner(R2, 0x1cc, 0x2) == 0x1cc;
    assert Horner(R2, 0x1cc, 0x6) == 0x1c8;
    assert Horner(R2, 0x1c8, 0xf) == 0x1b3;
    assert Horner(R2, 0x1b3, 0x1a) == 0x284;
    hide Horner, Apply;
    Digits2();
    EvalUnfold(R2, 0x8000000);
    EvalUnfold(R2, 0x1ea119fa);
  }

  lemma Root2Bit3()
    ensures Apply(R2, Eval(R2, 0x10000000)) == Eval(R2, 0x3d4233dd)
  {
    hide Eval, Digit;
    assert Horner(R2, 0x8, 0x0) == 0xcd;
    assert Horner(R2, 0xcd, 0x0) == 0x57;
    assert Horner(R2, 0x57, 0x0) == 0x299;
    assert Horner(R2, 0x299, 0x0) == 0x205;
    assert Horner(R2, 0x205, 0x0) == 0x210;
    assert Apply(R2, 0x210) == 0x28;
    assert Horner(R2, 0x1e, 0x14) == 0x398;
    assert Horner(R2, 0x398, 0x4) == 0x398;
    assert Horner(R2, 0x398, 0xc) == 0x390;
    assert Horner(R2, 0x390, 0x1e) == 0x34f;
    assert Horner(R2, 0x34f, 0x1d) == 0x28;
    hide Horner, Apply;
    Digits3();
    EvalUnfold(R2, 0x10000000);
    EvalUnfold(R2, 0x3d4233dd);
  }

  lemma Root2Bit4()
    ensures Apply(R2, Eval(R2, 0x20000000)) == Eval(R2, 0x2a1462b3)
  {
    hide Eval, Digit;
    assert Horner(R2, 0x10, 0x0) == 0x19a;
    assert Horner(R2, 0x19a, 0x0) == 0x87;
    assert Horner(R2, 0x87, 0x0) == 0x3b;
    assert Horner(R2, 0x3b, 0x0) == 0x12a;
    assert Horner(R2, 0x12a, 0x0) == 0x129;
    assert Apply(R2, 0x129) == 0x50;
    assert Horner(R2, 0x15, 0x1) == 0x239;
    assert Horner(R2, 0x239, 0x8) == 0x239;
    assert Horner(R2, 0x239, 0x18) == 0x229;
    assert Horner(R2, 0x229, 0x15) == 0x3be;
    assert Horner(R2, 0x3be, 0x13) == 0x50;
    hide Horner, Apply;
    Digits4();
    EvalUnfold(R2, 0x20000000);
    EvalUnfold(R2, 0x2a1462b3);
  }

  // ---------------------------------------------------------------- syndromes

  lemma {:induction false} EvalRun(t: Table, c: bv32, n: nat)
    requires IsRoot(t) && c < 0x4000_0000
    ensures Eval(t, Run(c, Zeros(n))) == Iterate(t, n, Eval(t, c))
    decreases n
  {
    hide Eval, Apply, Step, IsRoot;
    if n > 0 {
      assert Zeros(n)[1..] == Zeros(n - 1);
      StepRange(c, 0);
      EvalStep(t, c);
      EvalRun(t, Step(c, 0), n - 1);
      IterateAdd(t, n - 1, 1, Eval(t, c));
      assert Iterate(t, 0, Eval(t, c)) == Eval(t, c);
    }
  }

  lemma {:induction false} Commute(a: Table, b: Table, n: nat, v: bv32)
    requires Composed(a, b) == Composed(b, a)
    ensures Apply(a, Iterate(b, n, v)) == Iterate(b, n, Apply(a, v))
    decreases n
  {
    hide Apply, Composed;
    if n > 0 {
      Commute(a, b, n - 1, v);
      ComposedIs(a, b, Iterate(b, n - 1, v));
      ComposedIs(b, a, Iterate(b, n - 1, v));
    }
  }

  lemma {:induction false} IterateProduct(a: Table, b: Table, ab: Table, n: nat, v: bv32)
    requires Composed(a, b) == ab && Composed(b, a) == ab
    ensures Iterate(ab, n, v) == Iterate(b, n, Iterate(a, n, v))
    decreases n
  {
    hide Apply, Composed;
    if n > 0 {
      var x := Iterate(a, n - 1, v);
      IterateProduct(a, b, ab, n - 1, v);
      ComposedIs(b, a, Iterate(b, n - 1, x));
      Commute(a, b, n - 1, x);
    }
  }

  /** A vanishing sum of three shifted symbols vanishes at each root. */
  lemma Syndrome(t: Table, i: nat, j: nat, a: bv32, b: bv32, c: bv32)
    requires IsRoot(t) && a < 32 && b < 32 && c < 32 && Xor(Xor(Run(a, Zeros(i)), Run(b, Zeros(j))), c) == 0
    ensures Xor(Xor(Iterate(t, i, a), Iterate(t, j, b)), c) == 0
  {
    hide Eval, Iterate, Run, Xor, IsRoot;
    EvalSymbol(t, a);
    EvalSymbol(t, b);
    EvalSymbol(t, c);
    EvalSymbol(t, 0);
    EvalRun(t, a, i);
    EvalRun(t, b, j);
    EvalLinear(t, Run(a, Zeros(i)), Run(b, Zeros(j)));
    EvalLinear(t, Xor(Run(a, Zeros(i)), Run(b, Zeros(j))), c);
  }

  lemma FromTwo(a: bv32, b: bv32, c: bv32, x: bv32, y: bv32)
    requires Xor(Xor(a, b), c) == 0 && Xor(Xor(x, y), c) == 0
    ensures Xor(a, x) == Xor(b, y)
  {
    hide Xor;
    XorSame(Xor(a, b), c);
    XorSame(Xor(x, y), c);
    XorOfEqual(c);
    XorSwap(a, b, x, y);
    XorSame(Xor(a, x), Xor(b, y));
  }

  /** Three equations in the powers of e leave only zero. */
  lemma Vandermonde(a: bv32, b: bv32, c: bv32, i: nat, j: nat)
    requires Ten(a) && Ten(b) && 0 < j < i < 1023
    requires Xor(Xor(a, b), c) == 0
    requires Xor(Xor(Iterate(E1, i, a), Iterate(E1, j, b)), c) == 0
    requires Xor(Xor(Iterate(E1, i, Iterate(E1, i, a)), Iterate(E1, j, Iterate(E1, j, b))), c) == 0
    ensures a == 0 && b == 0 && c == 0
  {
    hide Xor, Iterate, Ten;
    var a1, b1 := Iterate(E1, i, a), Iterate(E1, j, b);
    var d := Xor(a, a1);
    FromTwo(a, b, c, a1, b1);
    FromTwo(a1, b1, c, Iterate(E1, i, a1), Iterate(E1, j, b1));
    IterateLinear(E1, i, a, a1);
    IterateLinear(E1, j, b, b1);
    InverseOfE();
    IterateTen(E1, i, a);
    TenSum(a, a1);
    SameOrbit(d, i, j);
    XorSame(a, a1);
    XorSame(b, b1);
    if a != 0 { OrderOfE(i, a); }
    if b != 0 { OrderOfE(j, b); }
    XorWithZero(0);
    XorWithZero(c);
  }

  lemma TenSum(a: bv32, b: bv32)
    requires Ten(a) && Ten(b)
    ensures Ten(Xor(a, b))
  {
  }

  lemma SameOrbit(d: bv32, i: nat, j: nat)
    requires Ten(d) && 0 < j < i < 1023 && Iterate(E1, i, d) == Iterate(E1, j, d)
    ensures d == 0
  {
    hide Iterate, Ten, Composed, Narrow;
    IterateAdd(E1, j, i - j, d);
    InverseOfE();
    IterateTen(E1, i - j, d);
    IterateInjective(E1, E_INVERSE, j, Iterate(E1, i - j, d), d);
    if d != 0 { OrderOfE(i - j, d); }
  }

  lemma SymbolIsTen(a: bv32)
    requires a < 32
    ensures Ten(a)
  {
  }

  /** Three symbols less than 1023 places apart leave no zero remainder unless all are zero. */
  lemma NoThree(i: nat, j: nat, a: bv32, b: bv32, c: bv32)
    requires 0 < j < i < 1023 && a < 32 && b < 32 && c < 32
    requires Xor(Xor(Run(a, Zeros(i)), Run(b, Zeros(j))), c) == 0
    ensures a == 0 && b == 0 && c == 0
  {
    hide Xor, Run, Iterate, IsRoot, Ten, Composed, Narrow;
    Root0();
    Root1();
    Root2();
    Syndrome(R0, i, j, a, b, c);
    Syndrome(R1, i, j, a, b, c);
    Syndrome(R2, i, j, a, b, c);
    RootRatios();
    NextRatios();
    IterateProduct(R0, E1, R1, i, a);
    IterateProduct(R0, E1, R1, j, b);
    IterateProduct(R1, E1, R2, i, a);
    IterateProduct(R1, E1, R2, j, b);
    InverseOfRoot();
    SymbolIsTen(a);
    SymbolIsTen(b);
    SymbolIsTen(0);
    IterateTen(R0, i, a);
    IterateTen(R0, j, b);
    Vandermonde(Iterate(R0, i, a), Iterate(R0, j, b), c, i, j);
    IterateZero(R0, i);
    IterateZero(R0, j);
    IterateInjective(R0, R_INVERSE, i, a, 0);
    IterateInjective(R0, R_INVERSE, j, b, 0);
  }

  // ---------------------------------------------------------------- three errors

  lemma RunLast(c: bv32, w: seq<bv32>, v: bv32)
    requires v < 32
    ensures Run(c, w + [v]) == Xor(Run(c, w + [0]), v)
  {
    hide Step, Run, Xor;
    RunConcat(c, w, [v]);
    RunConcat(c, w, [0]);
    RunOne(Run(c, w), v);
    RunOne(Run(c, w), 0);
    StepLinear(Run(c, w), 0, 0, v);
    XorWithZero(Run(c, w));
    XorWithZero(v);
    FirstStep(v);
  }

  lemma ZerosAdd(m: nat, n: nat)
    ensures Zeros(m) + Zeros(n) == Zeros(m + n)
  {
  }

  /** The remainder of three symbols with zeros between them. */
  lemma RunThree(a: bv32, m: nat, b: bv32, n: nat, c: bv32)
    requires a < 32 && b < 32 && c < 32
    ensures Run(0, [a] + Zeros(m) + [b] + Zeros(n) + [c]) == Xor(Xor(Run(a, Zeros(m + n + 2)), Run(b, Zeros(n + 1))), c)
  {
    hide Step, Run, Xor;
    var w := [a] + Zeros(m) + [b];
    RunLast(0, w + Zeros(n), c);
    assert w + Zeros(n) + [c] == [a] + Zeros(m) + [b] + Zeros(n) + [c];
    assert w + Zeros(n) + [0] == w + Zeros(n + 1);
    RunConcat(0, w, Zeros(n + 1));
    RunLast(0, [a] + Zeros(m), b);
    var x := Run(0, [a] + Zeros(m) + [0]);
    assert [a] + Zeros(m) + [0] == [a] + Zeros(m + 1);
    RunConcat(0, [a], Zeros(m + 1));
    RunOne(0, a);
    FirstStep(a);
    RunLinear(x, b, Zeros(n + 1), Zeros(n + 1));
    ZeroSum();
    assert XorSeq(Zeros(n + 1), Zeros(n + 1)) == Zeros(n + 1);
    RunConcat(a, Zeros(m + 1), Zeros(n + 1));
    ZerosAdd(m + 1, n + 1);
  }

  /** Sequences that differ only at three positions less than 1023 apart have different remainders. */
  lemma ThreeErrors(start: bv32, s: seq<bv32>, t: seq<bv32>, p1: nat, p2: nat, p3: nat)
    requires |s| == |t| && p1 < p2 < p3 < |s| && p3 - p1 < 1023 && s != t
    requires forall k :: 0 <= k < |s| && k != p1 && k != p2 && k != p3 ==> s[k] == t[k]
    requires forall k :: 0 <= k < |s| && (k == p1 || k == p2 || k == p3) ==> s[k] < 32 && t[k] < 32
    ensures Run(start, s) != Run(start, t)
  {
    hide Step, Run, Xor;
    var a, b, c := Xor(s[p1], t[p1]), Xor(s[p2], t[p2]), Xor(s[p3], t[p3]);
    XorSame(s[p1], t[p1]);
    XorSame(s[p2], t[p2]);
    XorSame(s[p3], t[p3]);
    var m, n := p2 - p1 - 1, p3 - p2 - 1;
    SomeDifference(s, t, p1, p2, p3);
    DifferenceIs(s, t, p1, p2, p3);
    RunLinear(start, start, s, t);
    XorOfEqual(start);
    PatternNonzero(a, m, b, n, c);
    PaddedNonzero(p1, [a] + Zeros(m) + [b] + Zeros(n) + [c], |s| - p3 - 1);
    XorSame(Run(start, s), Run(start, t));
  }

  lemma PatternNonzero(a: bv32, m: nat, b: bv32, n: nat, c: bv32)
    requires a < 32 && b < 32 && c < 32 && m + n + 2 < 1023 && (a != 0 || b != 0 || c != 0)
    ensures Run(0, [a] + Zeros(m) + [b] + Zeros(n) + [c]) != 0
  {
    hide Run, Xor;
    RunThree(a, m, b, n, c);
    if Xor(Xor(Run(a, Zeros(m + n + 2)), Run(b, Zeros(n + 1))), c) == 0 { NoThree(m + n + 2, n + 1, a, b, c); }
  }

  lemma PaddedNonzero(p: nat, w: seq<bv32>, q: nat)
    requires w != [] && Run(0, w) != 0
    ensures Run(0, Zeros(p) + w + Zeros(q)) != 0
  {
    hide Run, Step;
    RunConcat(0, Zeros(p) + w, Zeros(q));
    RunConcat(0, Zeros(p), w);
    ZerosFromZero(p);
    RunRange(0, w);
    RunZeros(Run(0, w), q);
  }

  lemma SomeDifference(s: seq<bv32>, t: seq<bv32>, p1: nat, p2: nat, p3: nat)
    requires |s| == |t| && p1 < p2 < p3 < |s| && s != t
    requires forall k :: 0 <= k < |s| && k != p1 && k != p2 && k != p3 ==> s[k] == t[k]
    ensures s[p1] != t[p1] || s[p2] != t[p2] || s[p3] != t[p3]
  {
  }

  lemma DifferenceIs(s: seq<bv32>, t: seq<bv32>, p1: nat, p2: nat, p3: nat)
    requires |s| == |t| && p1 < p2 < p3 < |s|
    requires forall k :: 0 <= k < |s| && k != p1 && k != p2 && k != p3 ==> s[k] == t[k]
    ensures XorSeq(s, t) == Zeros(p1) + ([Xor(s[p1], t[p1])] + Zeros(p2 - p1 - 1) + [Xor(s[p2], t[p2])] + Zeros(p3 - p2 - 1) + [Xor(s[p3], t[p3])]) + Zeros(|s| - p3 - 1)
  {
    hide Xor;
    var r := Zeros(p1) + ([Xor(s[p1], t[p1])] + Zeros(p2 - p1 - 1) + [Xor(s[p2], t[p2])] + Zeros(p3 - p2 - 1) + [Xor(s[p3], t[p3])]) + Zeros(|s| - p3 - 1);
    assert |r| == |s|;
    forall k | 0 <= k < |s| ensures XorSeq(s, t)[k] == r[k] {
      if k != p1 && k != p2 && k != p3 { XorOfEqual(s[k]); }
    }
  }
}
