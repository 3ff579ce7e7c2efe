/**
 The Bech32 checksum. The remainder computation is linear over exclusive or, so the six checksum
 symbols are determined by the data, and any change confined to six neighbouring symbols shows.
 */
module Bech32Checksum {

  type byte = x: int | 0 <= x < 256

  function Xor(a: bv32, b: bv32): bv32 { a ^ b }

  // ---------------------------------------------------------------- one step of the remainder

  /** Shifts the next symbol, a byte, in without the leading coefficient. */
  function Feed(c: bv32, v: bv32): bv32 { ((c & 0x1ffffff) << 5) ^ (v & 0xff) }

  /** The given bit of the leading coefficient. */
  function LeadBit(c: bv32, bit: bv32): bool { (c >> 25) & bit != 0 }

  function AddIf(f: bv32, b: bool, k: bv32): bv32 { if b then f ^ k else f }

  function Reduce(f: bv32, c: bv32, bit: bv32, k: bv32): bv32 { AddIf(f, LeadBit(c, bit), k) }

  /** One round of PolyMod. */
  function Step(c: bv32, v: bv32): bv32 {
    var c1 := Reduce(Feed(c, v), c, 1, 0x3b6a57b2);
    var c2 := Reduce(c1, c, 2, 0x26508e6d);
    var c3 := Reduce(c2, c, 4, 0x1ea119fa);
    var c4 := Reduce(c3, c, 8, 0x3d4233dd);
    Reduce(c4, c, 16, 0x2a1462b3)
  }

  lemma FeedLinear(a: bv32, b: bv32, u: bv32, v: bv32)
    ensures Feed(Xor(a, b), Xor(u, v)) == Xor(Feed(a, u), Feed(b, v))
  {
  }

  lemma LeadBitsLinear(a: bv32, b: bv32)
    ensures LeadBit(a ^ b, 1) == (LeadBit(a, 1) != LeadBit(b, 1))
    ensures LeadBit(a ^ b, 2) == (LeadBit(a, 2) != LeadBit(b, 2))
    ensures LeadBit(a ^ b, 4) == (LeadBit(a, 4) != LeadBit(b, 4))
    ensures LeadBit(a ^ b, 8) == (LeadBit(a, 8) != LeadBit(b, 8))
    ensures LeadBit(a ^ b, 16) == (LeadBit(a, 16) != LeadBit(b, 16))
  {
  }

  predicate IsLeadMask(bit: bv32) { bit == 1 || bit == 2 || bit == 4 || bit == 8 || bit == 16 }

  lemma LeadBitLinear(a: bv32, b: bv32, bit: bv32)
    requires IsLeadMask(bit)
    ensures LeadBit(Xor(a, b), bit) == (LeadBit(a, bit) != LeadBit(b, bit))
  {
    hide LeadBit;
    LeadBitsLinear(a, b);
  }

  lemma AddBoth(f: bv32, g: bv32, k: bv32)
    ensures (f ^ k) ^ (g ^ k) == f ^ g
  {
  }

  lemma AddLeft(f: bv32, g: bv32, k: bv32)
    ensures (f ^ k) ^ g == (f ^ g) ^ k
  {
  }

  lemma AddRight(f: bv32, g: bv32, k: bv32)
    ensures f ^ (g ^ k) == (f ^ g) ^ k
  {
  }

  lemma AddIfCases(f: bv32, g: bv32, p: bool, q: bool, k: bv32)
    ensures AddIf(f ^ g, p != q, k) == AddIf(f, p, k) ^ AddIf(g, q, k)
  {
    if p && q { AddBoth(f, g, k); }
    else if p { AddLeft(f, g, k); }
    else if q { AddRight(f, g, k); }
  }

  lemma AddIfLinear(f: bv32, g: bv32, p: bool, q: bool, k: bv32)
    ensures AddIf(Xor(f, g), p != q, k) == Xor(AddIf(f, p, k), AddIf(g, q, k))
  {
    hide AddIf;
    AddIfCases(f, g, p, q, k);
  }

  lemma ReduceLinear(f: bv32, g: bv32, a: bv32, b: bv32, bit: bv32, k: bv32)
    requires IsLeadMask(bit)
    ensures Reduce(Xor(f, g), Xor(a, b), bit, k) == Xor(Reduce(f, a, bit, k), Reduce(g, b, bit, k))
  {
    hide LeadBit, AddIf, Xor;
    LeadBitLinear(a, b, bit);
    AddIfLinear(f, g, LeadBit(a, bit), LeadBit(b, bit), k);
  }

  /** A round is linear over exclusive or. */
  lemma StepLinear(a: bv32, b: bv32, u: bv32, v: bv32)
    ensures Step(Xor(a, b), Xor(u, v)) == Xor(Step(a, u), Step(b, v))
  {
    hide Feed, Reduce, Xor;
    FeedLinear(a, b, u, v);
    var f, g := Feed(a, u), Feed(b, v);
    ReduceLinear(f, g, a, b, 1, 0x3b6a57b2);
    f, g := Reduce(f, a, 1, 0x3b6a57b2), Reduce(g, b, 1, 0x3b6a57b2);
    ReduceLinear(f, g, a, b, 2, 0x26508e6d);
    f, g := Reduce(f, a, 2, 0x26508e6d), Reduce(g, b, 2, 0x26508e6d);
    ReduceLinear(f, g, a, b, 4, 0x1ea119fa);
    f, g := Reduce(f, a, 4, 0x1ea119fa), Reduce(g, b, 4, 0x1ea119fa);
    ReduceLinear(f, g, a, b, 8, 0x3d4233dd);
    f, g := Reduce(f, a, 8, 0x3d4233dd), Reduce(g, b, 8, 0x3d4233dd);
    ReduceLinear(f, g, a, b, 16, 0x2a1462b3);
  }

  /** A round keeps 30 bits, and a round on a zero symbol never forgets a nonzero remainder. */
  lemma StepRange(c: bv32, v: bv32)
    ensures Step(c, v) < 0x4000_0000
  {
  }

  lemma StepNonzero(c: bv32)
    requires 0 < c < 0x4000_0000
    ensures Step(c, 0) != 0
  {
  }

  lemma StepZero()
    ensures Step(0, 0) == 0
  {
  }

  /** While the leading coefficient is zero a round only shifts. */
  lemma StepShifts(c: bv32, v: bv32)
    requires c < 0x200_0000 && v < 32
    ensures Step(c, v) == (c << 5) ^ v
  {
  }

  // ---------------------------------------------------------------- runs of rounds

  function Run(c: bv32, w: seq<bv32>): bv32
    decreases |w|
  {
    if w == [] then c else Run(Step(c, w[0]), w[1..])
  }

  function XorSeq(s: seq<bv32>, t: seq<bv32>): (r: seq<bv32>)
    requires |s| == |t|
  {
    seq(|s|, i requires 0 <= i < |s| => Xor(s[i], t[i]))
  }

  function Zeros(n: nat): seq<bv32> { seq(n, _ => 0) }

  lemma {:induction false} RunConcat(c: bv32, s: seq<bv32>, t: seq<bv32>)
    ensures Run(c, s + t) == Run(Run(c, s), t)
    decreases |s|
  {
    hide Step;
    if s == [] {
      assert s + t == t;
    } else {
      assert (s + t)[1..] == s[1..] + t;
      RunConcat(Step(c, s[0]), s[1..], t);
    }
  }

  lemma {:induction false} RunLinear(a: bv32, b: bv32, s: seq<bv32>, t: seq<bv32>)
    requires |s| == |t|
    ensures Run(Xor(a, b), XorSeq(s, t)) == Xor(Run(a, s), Run(b, t))
    decreases |s|
  {
    hide Step, Xor;
    if s != [] {
      assert XorSeq(s, t)[1..] == XorSeq(s[1..], t[1..]);
      StepLinear(a, b, s[0], t[0]);
      RunLinear(Step(a, s[0]), Step(b, t[0]), s[1..], t[1..]);
    }
  }

  lemma {:induction false} RunZeros(c: bv32, n: nat)
    requires 0 < c < 0x4000_0000
    ensures 0 < Run(c, Zeros(n)) < 0x4000_0000
    decreases n
  {
    hide Step;
    if n > 0 {
      StepNonzero(c);
      StepRange(c, 0);
      assert Zeros(n)[1..] == Zeros(n - 1);
      RunZeros(Step(c, 0), n - 1);
    }
  }

  lemma {:induction false} ZerosFromZero(n: nat)
    ensures Run(0, Zeros(n)) == 0
  {
    hide Step;
    if n > 0 {
      StepZero();
      assert Zeros(n)[1..] == Zeros(n - 1);
      ZerosFromZero(n - 1);
    }
  }

  ghost predicate Symbols(w: seq<bv32>) { forall i :: 0 <= i < |w| ==> w[i] < 32 }

  // ---------------------------------------------------------------- six symbols

  /** Shifts one symbol into a remainder that has room for it. */
  function Append(c: bv32, v: bv32): bv32 { (c << 5) ^ v }

  /** Six symbols packed into 30 bits, the first on top. */
  function Pack(p: bv32, q: bv32, r: bv32, s: bv32, t: bv32, u: bv32): bv32 {
    Append(Append(Append(Append(Append(p, q), r), s), t), u)
  }

  lemma AppendRange(c: bv32, v: bv32)
    requires v < 32
    ensures c < 0x20 ==> Append(c, v) < 0x400
    ensures c < 0x400 ==> Append(c, v) < 0x8000
    ensures c < 0x8000 ==> Append(c, v) < 0x10_0000
    ensures c < 0x10_0000 ==> Append(c, v) < 0x200_0000
  {
  }

  lemma AppendIsStep(c: bv32, v: bv32)
    requires c < 0x200_0000 && v < 32
    ensures Step(c, v) == Append(c, v)
  {
    StepShifts(c, v);
  }

  /** From zero, six rounds pack their symbols. */
  lemma RunPacks(w: seq<bv32>)
    requires |w| == 6 && Symbols(w)
    ensures Run(0, w) == Pack(w[0], w[1], w[2], w[3], w[4], w[5])
  {
    hide Step, Append;
    var c1 := Append(w[0], w[1]);
    AppendRange(w[0], w[1]);
    var c2 := Append(c1, w[2]);
    AppendRange(c1, w[2]);
    var c3 := Append(c2, w[3]);
    AppendRange(c2, w[3]);
    var c4 := Append(c3, w[4]);
    AppendRange(c3, w[4]);
    FirstStep(w[0]);
    AppendIsStep(w[0], w[1]);
    AppendIsStep(c1, w[2]);
    AppendIsStep(c2, w[3]);
    AppendIsStep(c3, w[4]);
    AppendIsStep(c4, w[5]);
    RunSix(0, w);
  }

  lemma FirstStep(v: bv32)
    requires v < 32
    ensures Step(0, v) == v
  {
  }

  lemma RunSix(c: bv32, w: seq<bv32>)
    requires |w| == 6
    ensures Run(c, w) == Step(Step(Step(Step(Step(Step(c, w[0]), w[1]), w[2]), w[3]), w[4]), w[5])
  {
    hide Step;
    assert w[1..][1..] == w[2..] && w[2..][1..] == w[3..] && w[3..][1..] == w[4..] && w[4..][1..] == w[5..] && w[5..][1..] == [];
    RunFirst(c, w);
    RunFirst(Step(c, w[0]), w[1..]);
    RunFirst(Step(Step(c, w[0]), w[1]), w[2..]);
    RunFirst(Step(Step(Step(c, w[0]), w[1]), w[2]), w[3..]);
    RunFirst(Step(Step(Step(Step(c, w[0]), w[1]), w[2]), w[3]), w[4..]);
    RunFirst(Step(Step(Step(Step(Step(c, w[0]), w[1]), w[2]), w[3]), w[4]), w[5..]);
  }

  lemma RunOne(c: bv32, v: bv32)
    ensures Run(c, [v]) == Step(c, v)
  {
    hide Step;
    assert Run(Step(c, v), [v][1..]) == Step(c, v);
  }

  lemma RunFirst(c: bv32, w: seq<bv32>)
    requires w != []
    ensures Run(c, w) == Run(Step(c, w[0]), w[1..])
  {
  }

  /** The symbol at position i of six packed ones: m shifted right by 5 * (5 - i). */
  function Digit(m: bv32, i: nat): bv32
    requires i < 6
  {
    match i
    case 0 => (m >> 25) & 31
    case 1 => (m >> 20) & 31
    case 2 => (m >> 15) & 31
    case 3 => (m >> 10) & 31
    case 4 => (m >> 5) & 31
    case 5 => m & 31
  }

  lemma DigitLiterals(m: bv32)
    ensures Digit(m, 0) == (m >> 25) & 31 && Digit(m, 1) == (m >> 20) & 31 && Digit(m, 2) == (m >> 15) & 31
    ensures Digit(m, 3) == (m >> 10) & 31 && Digit(m, 4) == (m >> 5) & 31 && Digit(m, 5) == m & 31
  {
  }

  lemma PackLiterals(p: bv32, q: bv32, r: bv32, s: bv32, t: bv32, u: bv32)
    requires p < 32 && q < 32 && r < 32 && s < 32 && t < 32 && u < 32
    ensures var m := Pack(p, q, r, s, t, u);
            && (m >> 25) & 31 == p && (m >> 20) & 31 == q && (m >> 15) & 31 == r
            && (m >> 10) & 31 == s && (m >> 5) & 31 == t && m & 31 == u
  {
  }

  lemma LiteralsPack(m: bv32)
    requires m < 0x4000_0000
    ensures Pack((m >> 25) & 31, (m >> 20) & 31, (m >> 15) & 31, (m >> 10) & 31, (m >> 5) & 31, m & 31) == m
  {
  }

  lemma DigitsOfPack(p: bv32, q: bv32, r: bv32, s: bv32, t: bv32, u: bv32)
    requires p < 32 && q < 32 && r < 32 && s < 32 && t < 32 && u < 32
    ensures var m := Pack(p, q, r, s, t, u);
            Digit(m, 0) == p && Digit(m, 1) == q && Digit(m, 2) == r && Digit(m, 3) == s && Digit(m, 4) == t && Digit(m, 5) == u
  {
    hide Digit, Pack;
    DigitLiterals(Pack(p, q, r, s, t, u));
    PackLiterals(p, q, r, s, t, u);
  }

  lemma PackOfDigits(m: bv32)
    requires m < 0x4000_0000
    ensures Pack(Digit(m, 0), Digit(m, 1), Digit(m, 2), Digit(m, 3), Digit(m, 4), Digit(m, 5)) == m
  {
    hide Digit, Pack;
    DigitLiterals(m);
    LiteralsPack(m);
  }

  lemma DigitIsSymbol(m: bv32, i: nat)
    requires i < 6
    ensures Digit(m, i) < 32
  {
  }

  // ---------------------------------------------------------------- the checksum of a remainder

  lemma XorWithZero(a: bv32)
    ensures Xor(a, 0) == a && Xor(0, a) == a
  {
  }

  /** The checksum constant is one, not zero. */
  function Flip(m: bv32): bv32 { m ^ 1 }

  lemma XorSolve(m: bv32, x: bv32)
    ensures Xor(m, x) == 1 <==> x == Flip(m)
  {
    if Xor(m, x) == 1 { XorIsOne(m, x); } else if x == Flip(m) { XorMakesOne(m); }
  }

  lemma XorIsOne(m: bv32, x: bv32)
    requires m ^ x == 1
    ensures x == m ^ 1
  {
  }

  lemma XorMakesOne(m: bv32)
    ensures m ^ (m ^ 1) == 1
  {
  }

  lemma FlipLow(m: bv32)
    requires m < 0x4000_0000
    ensures Flip(m) < 0x4000_0000
  {
  }

  lemma {:induction false} RunRange(c: bv32, w: seq<bv32>)
    requires w != []
    ensures Run(c, w) < 0x4000_0000
    decreases |w|
  {
    hide Step;
    StepRange(c, w[0]);
    if |w| > 1 { RunRange(Step(c, w[0]), w[1..]); }
  }

  /** Symbols after a remainder act independently of it. */
  lemma RunSplits(c: bv32, w: seq<bv32>)
    ensures Run(c, w) == Xor(Run(c, Zeros(|w|)), Run(0, w))
  {
    hide Step, Xor, Run;
    XorWithZero(c);
    forall i | 0 <= i < |w| ensures Xor(0, w[i]) == w[i] { XorWithZero(w[i]); }
    assert XorSeq(Zeros(|w|), w) == w;
    RunLinear(c, 0, Zeros(|w|), w);
  }

  /** Exactly one choice of six symbols brings the remainder to one. */
  lemma ChecksumUnique(c: bv32, w: seq<bv32>)
    requires |w| == 6 && Symbols(w)
    ensures Run(c, w) == 1 <==> forall i :: 0 <= i < 6 ==> w[i] == Digit(Flip(Run(c, Zeros(6))), i)
  {
    hide Step, Xor, Run, Pack, Digit, Flip;
    var m := Run(c, Zeros(6));
    RunSplits(c, w);
    RunPacks(w);
    RunRange(c, Zeros(6));
    FlipLow(m);
    XorSolve(m, Run(0, w));
    PackIs(w, Flip(m));
  }

  lemma PackIs(w: seq<bv32>, m: bv32)
    requires |w| == 6 && Symbols(w) && m < 0x4000_0000
    ensures Pack(w[0], w[1], w[2], w[3], w[4], w[5]) == m <==> forall i :: 0 <= i < 6 ==> w[i] == Digit(m, i)
  {
    hide Pack, Digit;
    DigitsOfPack(w[0], w[1], w[2], w[3], w[4], w[5]);
    PackOfDigits(m);
  }

  // ---------------------------------------------------------------- error detection

  /** A difference of at most six symbols, not all zero, has a nonzero remainder. */
  lemma BurstNonzero(w: seq<bv32>)
    requires |w| <= 6 && Symbols(w) && exists i :: 0 <= i < |w| && w[i] != 0
    ensures Run(0, w) != 0
  {
    hide Step, Run, Pack, Digit;
    var z := Zeros(6 - |w|);
    var full := z + w;
    RunConcat(0, z, w);
    ZerosFromZero(6 - |w|);
    RunPacks(full);
    var i :| 0 <= i < |w| && w[i] != 0;
    assert full[6 - |w| + i] != 0;
    DigitsOfPack(full[0], full[1], full[2], full[3], full[4], full[5]);
    ZeroDigits();
  }

  lemma ZeroDigits()
    ensures forall i :: 0 <= i < 6 ==> Digit(0, i) == 0
  {
  }

  lemma XorSame(a: bv32, b: bv32)
    ensures Xor(a, b) == 0 <==> a == b
    ensures a < 32 && b < 32 ==> Xor(a, b) < 32
  {
    hide Xor;
    XorVanishes(a, b);
    XorSmall(a, b);
  }

  lemma XorVanishes(a: bv32, b: bv32)
    ensures Xor(a, b) == 0 <==> a == b
  {
    if a == b { XorOfEqual(a); } else { XorDiffers(a, b); }
  }

  lemma XorDiffers(a: bv32, b: bv32)
    requires a != b
    ensures a ^ b != 0
  {
  }

  lemma XorSmall(a: bv32, b: bv32)
    ensures a < 32 && b < 32 ==> Xor(a, b) < 32
  {
  }

  lemma XorOfEqual(a: bv32)
    ensures Xor(a, a) == 0
  {
  }

  /** Two sequences that differ only inside a window of at most six symbols have different remainders. */
  lemma BurstDetected(c: bv32, s: seq<bv32>, t: seq<bv32>, i: nat, j: nat)
    requires |s| == |t| && i <= j <= |s| && j <= i + 6 && s != t
    requires s[..i] == t[..i] && s[j..] == t[j..] && Symbols(s[i..j]) && Symbols(t[i..j])
    ensures Run(c, s) != Run(c, t)
  {
    hide Step, Run, Xor;
    var d := XorSeq(s, t);
    RunLinear(c, c, s, t);
    XorOfEqual(c);
    var w := XorSeq(s[i..j], t[i..j]);
    BurstShape(s, t, i, j);
    RunConcat(0, Zeros(i) + w, Zeros(|s| - j));
    RunConcat(0, Zeros(i), w);
    ZerosFromZero(i);
    WindowDiffers(s, t, i, j);
    BurstNonzero(w);
    RunRange(0, w);
    RunZeros(Run(0, w), |s| - j);
    XorSame(Run(c, s), Run(c, t));
  }

  lemma BurstShape(s: seq<bv32>, t: seq<bv32>, i: nat, j: nat)
    requires |s| == |t| && i <= j <= |s| && s[..i] == t[..i] && s[j..] == t[j..]
    ensures XorSeq(s, t) == Zeros(i) + XorSeq(s[i..j], t[i..j]) + Zeros(|s| - j)
  {
    hide Xor;
    forall k | 0 <= k < |s|
      ensures XorSeq(s, t)[k] == (Zeros(i) + XorSeq(s[i..j], t[i..j]) + Zeros(|s| - j))[k]
    {
      XorOfEqual(s[k]);
      if k < i { assert s[..i][k] == t[..i][k]; }
      if k >= j { assert s[j..][k - j] == t[j..][k - j]; }
    }
  }

  lemma WindowDiffers(s: seq<bv32>, t: seq<bv32>, i: nat, j: nat)
    requires |s| == |t| && i <= j <= |s| && s != t && s[..i] == t[..i] && s[j..] == t[j..]
    requires Symbols(s[i..j]) && Symbols(t[i..j])
    ensures var w := XorSeq(s[i..j], t[i..j]); Symbols(w) && exists k :: 0 <= k < |w| && w[k] != 0
  {
    hide Xor;
    var x, y := s[i..j], t[i..j];
    var w := XorSeq(x, y);
    assert s == s[..i] + x + s[j..] && t == t[..i] + y + t[j..];
    var k :| 0 <= k < |x| && x[k] != y[k];
    XorSame(x[k], y[k]);
    assert w[k] != 0;
    forall l | 0 <= l < |w| ensures w[l] < 32 { XorSame(x[l], y[l]); }
  }

  // ---------------------------------------------------------------- bytes

  function ByteBits(x: byte): bv32 { x as bv32 }

  function Bits(v: seq<byte>): (w: seq<bv32>)
    ensures |w| == |v|
  {
    seq(|v|, i requires 0 <= i < |v| => ByteBits(v[i]))
  }

  /** The bit vector reached from zero by counting to x. */
  function CountBits(x: nat): (b: bv32)
    requires x < 256
    ensures b as nat == x
  {
    if x == 0 then 0 else CountBits(x - 1) + 1
  }

  /** Turning a byte into bits loses nothing. */
  lemma ByteBitsInverse(x: byte)
    ensures ByteBits(x) as nat == x
    ensures x < 32 <==> ByteBits(x) < 32
  {
    var b := CountBits(x);
    assert (b as nat) as bv32 == b;
  }

  lemma BitsBack(b: bv32)
    requires b < 32
    ensures (b as nat) < 32 && ByteBits(b as nat) == b
  {
  }
}
