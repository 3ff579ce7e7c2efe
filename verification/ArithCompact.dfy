/**
 The compact target format: a size byte, a sign bit and a 23-bit mantissa. A compact word with size
 s and mantissa m stands for m * 256^(s - 3), rounded down when s < 3.
 */
module ArithCompact {
  import opened Basics
  import opened ArithValue
  import opened ArithShift
  import opened ArithDivide

  const SIGN: nat := 0x80_0000
  const SIZE_UNIT: nat := 0x100_0000
  const LEAST: nat := 0x8000

  /** 256 to the n. */
  function Bytes(n: nat): (p: nat)
    ensures p >= 1
  { Pow2(8 * n) }

  function Scaled(x: nat, p: nat, d: nat): nat
    requires d > 0
  { x * p / d }

  /** The number a size and a mantissa stand for. */
  function Target(size: nat, word: nat): nat { Scaled(word, Bytes(size), Bytes(3)) }

  function SizeField(c: nat): nat { c / SIZE_UNIT }
  function WordField(c: nat): nat { c % SIGN }
  function SignField(c: nat): bool { c / SIGN % 2 == 1 }

  /** The number of bits of v. */
  function BitLength(v: nat): (n: nat)
    ensures HasBits(v, n)
  {
    if v == 0 then 0
    else
      var h := BitLength(v / 2);
      assert v / 2 > 0 ==> Pow2(h) == 2 * Pow2(h - 1) && Pow2(h + 1) == 2 * Pow2(h);
      assert v / 2 == 0 ==> Pow2(h) == 1 && Pow2(h + 1) == 2;
      1 + h
  }

  /** The size byte of v: enough bytes to leave the top bit clear. */
  function CompactSize(v: nat): nat { if v == 0 then 0 else BitLength(v) / 8 + 1 }

  function Mantissa(v: nat): nat { Scaled(v, Bytes(3), Bytes(CompactSize(v))) }

  /** The compact form of v. */
  function Compact(v: nat, negative: bool): nat {
    CompactSize(v) * SIZE_UNIT + (if negative && Mantissa(v) != 0 then SIGN else 0) + Mantissa(v)
  }

  // ---------------------------------------------------------------- powers of 256

  lemma SmallPowers()
    ensures Pow2(8) == 0x100 && Pow2(15) == LEAST && Pow2(16) == 0x1_0000 && Pow2(23) == SIGN && Pow2(24) == SIZE_UNIT
    ensures Bytes(0) == 1 && Bytes(1) == 0x100 && Bytes(2) == 0x1_0000 && Bytes(3) == SIZE_UNIT
  {
    assert Pow2(8) == 0x100;
    Pow2Add(8, 7);
    assert Pow2(7) == 128;
    Pow2Add(8, 8);
    Pow2Add(8, 15);
    Pow2Add(8, 16);
  }

  lemma BytesAdd(m: nat, n: nat)
    ensures Bytes(m + n) == Bytes(m) * Bytes(n)
  {
    Pow2Add(8 * m, 8 * n);
    assert 8 * (m + n) == 8 * m + 8 * n;
  }

  lemma BytesNext(n: nat)
    ensures Bytes(n + 1) == 0x100 * Bytes(n)
  {
    hide Bytes;
    SmallPowers();
    BytesAdd(n, 1);
  }

  lemma BytesMono(m: nat, n: nat)
    requires m <= n
    ensures Bytes(m) <= Bytes(n)
  {
    Pow2Mono(8 * m, 8 * n);
  }

  lemma FloorIs(x: nat, d: nat, q: nat)
    requires q * d <= x < (q + 1) * d
    ensures d > 0 && x / d == q
  {
    MulStep(q, d);
    if d == 0 { assert false; }
    ModIs(x, d, x - q * d, q);
  }

  lemma Floor(x: nat, d: nat)
    requires d > 0
    ensures (x / d) * d <= x < (x / d + 1) * d
  {
    MulStep(x / d, d);
  }

  lemma FloorMono(x: nat, y: nat, d: nat)
    requires x <= y && d > 0
    ensures x / d <= y / d
  {
    Floor(x, d);
    Floor(y, d);
    if y / d + 1 <= x / d { MulMono(x / d, y / d + 1, d); }
  }

  lemma FloorBounds(x: nat, d: nat, lo: nat, hi: nat)
    requires d > 0 && lo * d <= x < hi * d
    ensures lo <= x / d < hi
  {
    Floor(x, d);
    if x / d + 1 <= lo { MulMono(lo, x / d + 1, d); }
    if hi <= x / d { MulMono(x / d, hi, d); }
  }

  lemma FloorExact(w: nat, d: nat)
    requires d > 0
    ensures w * d / d == w
  {
    ModIs(w * d, d, 0, w);
  }

  // ---------------------------------------------------------------- the two ranges of sizes

  lemma TargetSmall(size: nat, word: nat)
    requires size <= 3
    ensures Target(size, word) == word / Bytes(3 - size)
  {
    hide Bytes;
    BytesAdd(size, 3 - size);
    var p, t := Bytes(size), Bytes(3 - size);
    Floor(word, t);
    Rescale(word, p, t);
  }

  lemma Rescale(w: nat, p: nat, t: nat)
    requires p > 0 && t > 0
    ensures p * t > 0 && w * p / (p * t) == w / t
  {
    var q := FloorOf(w, t);
    RescaleBy(w, p, t, q, w * p, p * t);
  }

  lemma FloorOf(w: nat, t: nat) returns (q: nat)
    requires t > 0
    ensures q == w / t && q * t <= w < (q + 1) * t
  {
    q := w / t;
    Floor(w, t);
  }

  lemma RescaleBy(w: nat, p: nat, t: nat, q: nat, x: nat, d: nat)
    requires q * t <= w < (q + 1) * t && p > 0 && x == w * p && d == p * t
    ensures d > 0 && x / d == q
  {
    ScaleBounds(w, q, p, t);
    FloorIs(x, d, q);
  }

  lemma ScaleBounds(w: nat, q: nat, p: nat, t: nat)
    requires q * t <= w < (q + 1) * t && p > 0
    ensures q * (p * t) <= w * p < (q + 1) * (p * t)
  {
    MulMono(w, q * t, p);
    MulLess(w, (q + 1) * t, p);
    Reassociate(q, t, p);
    Reassociate(q + 1, t, p);
  }

  lemma Reassociate(q: int, t: int, p: int)
    ensures (q * t) * p == q * (p * t)
  {
  }

  lemma TargetLarge(size: nat, word: nat)
    requires size >= 3
    ensures Target(size, word) == word * Bytes(size - 3)
  {
    hide Bytes;
    BytesAdd(3, size - 3);
    var p, t := Bytes(3), Bytes(size - 3);
    assert word * (p * t) == (word * t) * p;
    FloorExact(word * t, p);
  }

  lemma ShiftedMantissa(v: nat, size: nat)
    ensures size <= 3 ==> v * Bytes(3) / Bytes(size) == v * Bytes(3 - size)
    ensures size >= 3 ==> v * Bytes(3) / Bytes(size) == v / Bytes(size - 3)
  {
    hide Bytes;
    if size <= 3 {
      BytesAdd(size, 3 - size);
      var p, t := Bytes(size), Bytes(3 - size);
      assert v * (p * t) == (v * t) * p;
      FloorExact(v * t, p);
    }
    if size >= 3 {
      BytesAdd(3, size - 3);
      Rescale(v, Bytes(3), Bytes(size - 3));
    }
  }

  // ---------------------------------------------------------------- size and mantissa

  /** The size is the only one that puts the scaled number between the two mantissa bounds. */
  ghost predicate Fits(v: nat, size: nat) {
    LEAST * Bytes(size) <= v * SIZE_UNIT < SIGN * Bytes(size)
  }

  lemma SizeFits(v: nat)
    requires v > 0
    ensures Fits(v, CompactSize(v)) && CompactSize(v) >= 1
  {
    hide Pow2, HasBits, BitLength;
    var b, s := BitLength(v), CompactSize(v);
    HasLow(v, b);
    WindowOf(v, b, s);
  }

  lemma WindowOf(v: nat, b: nat, s: nat)
    requires b > 0 && s == b / 8 + 1 && Pow2(b - 1) <= v < Pow2(b)
    ensures Fits(v, s)
  {
    hide Pow2;
    SmallPowers();
    Pow2Add(8 * s, 15);
    Pow2Add(8 * s, 23);
    Pow2Add(b - 1, 24);
    Pow2Add(b, 24);
    Pow2Mono(8 * s + 15, b + 23);
    Pow2Mono(b + 24, 8 * s + 23);
    MulLess(v, Pow2(b), SIZE_UNIT);
    MulMono(v, Pow2(b - 1), SIZE_UNIT);
  }

  lemma FitsUnique(v: nat, s: nat, t: nat)
    requires Fits(v, s) && Fits(v, t)
    ensures s == t
  {
    hide Bytes;
    if s < t { BytesNext(s); BytesMono(s + 1, t); }
    if t < s { BytesNext(t); BytesMono(t + 1, s); }
  }

  lemma SizeIs(v: nat, s: nat)
    requires v > 0 && Fits(v, s)
    ensures CompactSize(v) == s
  {
    SizeFits(v);
    FitsUnique(v, s, CompactSize(v));
  }

  lemma MantissaRange(v: nat)
    ensures Mantissa(v) < SIGN
    ensures v > 0 ==> Mantissa(v) >= LEAST
    ensures v == 0 ==> Mantissa(v) == 0 && CompactSize(v) == 0
  {
    hide Pow2, Bytes, CompactSize;
    SmallPowers();
    if v > 0 {
      SizeFits(v);
      FloorBounds(v * SIZE_UNIT, Bytes(CompactSize(v)), LEAST, SIGN);
    } else {
      ZeroSize();
    }
  }

  lemma ZeroSize()
    ensures CompactSize(0) == 0
  {
  }

  lemma SizeMono(v: nat, w: nat)
    requires v <= w
    ensures CompactSize(v) <= CompactSize(w)
  {
    hide Bytes, CompactSize;
    if v == 0 { ZeroSize(); return; }
    SizeFits(v);
    SizeFits(w);
    var s, t := CompactSize(v), CompactSize(w);
    if t < s { BytesNext(t); BytesMono(t + 1, s); }
  }

  /** A 256-bit number needs a size of at most 33. */
  lemma SizeBound(v: nat)
    requires v < Pow2(256)
    ensures CompactSize(v) <= 33
  {
    hide Pow2;
    var b := BitLength(v);
    BitsMean(v, b);
    if b > 256 { Pow2Mono(256, b - 1); HasLow(v, b); }
  }

  // ---------------------------------------------------------------- main results

  /** The fields of a compact form are its size, sign and mantissa. */
  lemma FieldsOfCompact(v: nat, negative: bool)
    ensures SizeField(Compact(v, negative)) == CompactSize(v)
    ensures WordField(Compact(v, negative)) == Mantissa(v)
    ensures SignField(Compact(v, negative)) == (negative && v != 0)
  {
    hide Compact, CompactSize, Mantissa, SizeField, WordField, SignField;
    MantissaRange(v);
    var s, m := CompactSize(v), Mantissa(v);
    CompactIs(v, negative);
    FieldsOf(s, m, negative && m != 0);
  }

  lemma CompactIs(v: nat, negative: bool)
    ensures Compact(v, negative) == CompactSize(v) * SIZE_UNIT + (if negative && Mantissa(v) != 0 then SIGN else 0) + Mantissa(v)
  {
    hide CompactSize, Mantissa;
  }

  lemma FieldsOf(s: nat, m: nat, sign: bool)
    requires m < SIGN
    ensures var c := s * SIZE_UNIT + (if sign then SIGN else 0) + m;
            SizeField(c) == s && WordField(c) == m && SignField(c) == sign
  {
  }

  /** The dropped part of v. */
  function Dropped(v: nat): (r: nat)
    ensures r <= v
  {
    if CompactSize(v) <= 3 then 0 else
      ModAtMost(v, Bytes(CompactSize(v) - 3));
      v % Bytes(CompactSize(v) - 3)
  }

  lemma ModAtMost(v: nat, p: nat)
    requires p > 0
    ensures v % p <= v
  {
    if v < p { ModIs(v, p, v, 0); }
  }

  /** Decoding a compact form gives the number with its low bytes cleared, within one part in 2^15, and never overflows. */
  lemma CompactRoundTrip(v: nat, negative: bool)
    ensures Target(SizeField(Compact(v, negative)), WordField(Compact(v, negative))) == v - Dropped(v)
    ensures LEAST * Dropped(v) <= v - Dropped(v)
    ensures SignField(Compact(v, negative)) == (negative && v != 0)
  {
    hide CompactSize, Mantissa, Bytes, Target;
    FieldsOfCompact(v, negative);
    RoundedDown(v);
  }

  lemma RoundedDown(v: nat)
    ensures Target(CompactSize(v), Mantissa(v)) == v - Dropped(v)
    ensures LEAST * Dropped(v) <= v - Dropped(v)
  {
    hide CompactSize, Bytes, Target;
    var s := CompactSize(v);
    ShiftedMantissa(v, s);
    MantissaRange(v);
    if s <= 3 {
      TargetSmall(s, Mantissa(v));
      FloorExact(v, Bytes(3 - s));
    } else {
      TargetLarge(s, Mantissa(v));
      var p := Bytes(s - 3);
      Split(v, p);
      if v > 0 { MulMono(Mantissa(v), LEAST, p); }
    }
  }

  lemma Split(v: nat, p: nat)
    requires p > 0
    ensures v % p <= v && v % p < p && (v / p) * p == v - v % p
  {
    ModIs(v, p, v % p, v / p);
  }

  lemma CompactMonotone(v: nat, w: nat)
    requires v <= w
    ensures Compact(v, false) <= Compact(w, false)
  {
    hide CompactSize, Mantissa, Bytes;
    SizeMono(v, w);
    MantissaRange(v);
    if CompactSize(v) == CompactSize(w) { SameSizeMono(v, w); }
  }

  lemma SameSizeMono(v: nat, w: nat)
    requires v <= w && CompactSize(v) == CompactSize(w)
    ensures Mantissa(v) <= Mantissa(w)
  {
    hide CompactSize, Bytes;
    MulMono(w, v, Bytes(3));
    FloorMono(v * Bytes(3), w * Bytes(3), Bytes(CompactSize(v)));
  }

  /** The compact words that encoding produces for non-negative numbers. */
  ghost predicate Canonical(c: nat) {
    || c == 0
    || (&& !SignField(c) && WordField(c) >= LEAST
        && (SizeField(c) <= 3 ==> WordField(c) % Bytes(3 - SizeField(c)) == 0))
  }

  /** Encoding the number a compact word stands for gives the word back exactly when it is canonical. */
  lemma CompactCanonical(c: nat)
    ensures Compact(Target(SizeField(c), WordField(c)), false) == c <==> Canonical(c)
  {
    hide CompactSize, Mantissa, Bytes, Target;
    var v := Target(SizeField(c), WordField(c));
    if Compact(v, false) == c {
      FieldsOfCompact(v, false);
      MantissaRange(v);
      if v > 0 { EncodedIsCanonical(v); }
    }
    if Canonical(c) {
      CanonicalComesBack(c, v);
    }
  }

  lemma EncodedIsCanonical(v: nat)
    ensures CompactSize(v) <= 3 ==> Mantissa(v) % Bytes(3 - CompactSize(v)) == 0
  {
    hide CompactSize, Bytes;
    var s := CompactSize(v);
    if s <= 3 {
      ShiftedMantissa(v, s);
      ModIs(v * Bytes(3 - s), Bytes(3 - s), 0, v);
    }
  }

  lemma CanonicalComesBack(c: nat, v: nat)
    requires Canonical(c) && v == Target(SizeField(c), WordField(c))
    ensures Compact(v, false) == c
  {
    hide CompactSize, Mantissa, Bytes, Target;
    var s, w := SizeField(c), WordField(c);
    if c == 0 {
      ZeroTarget();
      MantissaRange(v);
    } else {
      ScaledTarget(s, w);
      MulMono(w, LEAST, Bytes(s));
      MulLess(w, SIGN, Bytes(s));
      SizeIs(v, s);
      FloorExact(w, Bytes(s));
      MantissaIs(v, w);
      assert c == s * SIZE_UNIT + w;
    }
  }

  lemma ZeroTarget()
    ensures Target(0, 0) == 0
  {
    TargetSmall(0, 0);
  }

  lemma MantissaIs(v: nat, w: nat)
    requires v * SIZE_UNIT == w * Bytes(CompactSize(v))
    ensures Mantissa(v) == w
  {
    hide CompactSize, Bytes;
    SmallPowers();
    FloorExact(w, Bytes(CompactSize(v)));
  }

  lemma ScaledTarget(s: nat, w: nat)
    requires w > 0 && (s <= 3 ==> w % Bytes(3 - s) == 0)
    ensures Target(s, w) * SIZE_UNIT == w * Bytes(s) && Target(s, w) > 0
  {
    hide Bytes, Target;
    SmallPowers();
    if s <= 3 {
      TargetSmall(s, w);
      BytesAdd(s, 3 - s);
      var t := Bytes(3 - s);
      Split(w, t);
      assert ((w / t) * t) * Bytes(s) == (w / t) * SIZE_UNIT;
    } else {
      TargetLarge(s, w);
      BytesAdd(3, s - 3);
      assert (w * Bytes(s - 3)) * SIZE_UNIT == w * Bytes(s);
      MulMono(w, 1, Bytes(s - 3));
    }
  }

  /** Every encoding is canonical, so decoding and encoding again changes nothing. */
  lemma CompactIdempotent(v: nat)
    ensures Compact(v - Dropped(v), false) == Compact(v, false)
    ensures Canonical(Compact(v, false))
  {
    hide CompactSize, Mantissa, Bytes, Target, Dropped;
    FieldsOfCompact(v, false);
    RoundedDown(v);
    MantissaRange(v);
    EncodedIsCanonical(v);
    CompactCanonical(Compact(v, false));
  }

  // ---------------------------------------------------------------- decoding

  /** Words of the unit tests: 0x05009234 is 0x92340000, 0x01123456 is 0x12, and 0x04923456 is negative. */
  lemma KnownWords()
    ensures SizeField(0x05009234) == 5 && WordField(0x05009234) == 0x9234 && Target(5, 0x9234) == 0x92340000
    ensures SizeField(0x01123456) == 1 && WordField(0x01123456) == 0x123456 && Target(1, 0x123456) == 0x12
    ensures SignField(0x04923456) && WordField(0x04923456) == 0x123456 && Target(4, 0x123456) == 0x12345600
    ensures Compact(0x92340000, false) == 0x05009234 && !Canonical(0x01123456)
  {
    hide CompactSize, Mantissa, Bytes, Target;
    SmallPowers();
    TargetLarge(5, 0x9234);
    TargetSmall(1, 0x123456);
    TargetLarge(4, 0x123456);
    CompactCanonical(0x05009234);
  }


  /** The three comparisons by which the source detects overflow. */
  predicate OverflowTest(word: nat, size: nat) {
    word != 0 && (size > 34 || (word > 0xff && size > 33) || (word > 0xffff && size > 32))
  }

  lemma OverflowExact(word: nat, size: nat)
    requires word < SIGN && size > 3
    ensures OverflowTest(word, size) <==> Target(size, word) >= Pow2(256)
  {
    hide Pow2, Bytes, Target;
    TargetLarge(size, word);
    SmallPowers();
    if size <= 32 {
      FitsBelow(word, size - 3, 29, SIZE_UNIT);
    } else if size == 33 {
      AtScale(word, 30, 0x1_0000);
    } else if size == 34 {
      AtScale(word, 31, 0x100);
    } else {
      Bytes256(32);
      BytesMono(32, size - 3);
      if word > 0 { MulMono(word, 1, Bytes(size - 3)); }
    }
  }

  lemma AtScale(word: nat, n: nat, rest: nat)
    requires n <= 32 && Bytes(32 - n) == rest
    ensures word * Bytes(n) >= Pow2(256) <==> word >= rest
  {
    hide Pow2, Bytes;
    Bytes256(n);
    if word >= rest { MulMono(word, rest, Bytes(n)); } else { MulLess(word, rest, Bytes(n)); }
  }

  lemma FitsBelow(word: nat, m: nat, n: nat, rest: nat)
    requires m <= n <= 32 && Bytes(32 - n) == rest && word < rest
    ensures word * Bytes(m) < Pow2(256)
  {
    hide Pow2, Bytes;
    AtScale(word, n, rest);
    BytesMono(m, n);
    MulMono(Bytes(n), Bytes(m), word);
  }

  lemma Bytes256(n: nat)
    requires n <= 32
    ensures Bytes(n) * Bytes(32 - n) == Pow2(256)
  {
    BytesAdd(n, 32 - n);
  }

  lemma NoSmallOverflow(size: nat, word: nat)
    requires size <= 3 && word < SIGN
    ensures Target(size, word) < SIGN && !OverflowTest(Target(size, word), size)
  {
    hide Pow2, Bytes, Target;
    TargetSmall(size, word);
    DivSmaller(word, Bytes(3 - size));
  }

  lemma SignBelowRange()
    ensures SIGN < Pow2(256) && PowB(8) == Pow2(256) && SIGN < BASE
  {
    SmallPowers();
    Pow2Mono(23, 256);
    PowBIsPow2(8);
  }

  /** Assigns a one-limb number. */
  method SetWord(a: array<nat>, w: nat)
    requires a.Length > 0 && w < BASE
    modifies a
    ensures Wide(a[..]) && Val(a[..]) == w
  {
    hide Val;
    forall i | 0 <= i < a.Length { a[i] := 0; }
    a[0] := w;
    ValCons(a[..], 0);
    ValZero(a[1..]);
    assert a[..][0..] == a[..] && a[..][1..] == a[1..];
  }

  /**
   SetCompact: the overflow flag is raised exactly when the number does not fit in 256 bits, and
   otherwise the value is exact.
   */
  method SetCompact(a: array<nat>, compact: nat) returns (negative: bool, overflow: bool)
    requires a.Length == 8 && compact < BASE
    modifies a
    ensures Wide(a[..])
    ensures overflow <==> Target(SizeField(compact), WordField(compact)) >= Pow2(256)
    ensures Val(a[..]) == Target(SizeField(compact), WordField(compact)) % Pow2(256)
    ensures !overflow ==> Val(a[..]) == Target(SizeField(compact), WordField(compact))
    ensures negative <==> SignField(compact) && Target(SizeField(compact), WordField(compact)) != 0
  {
    hide Val, PowB, Pow2, Target, Bytes, OverflowTest;
    var size := SizeField(compact);
    var word := WordField(compact);
    SignBelowRange();
    if size <= 3 {
      TargetSmall(size, word);
      NoSmallOverflow(size, word);
      word := word / Bytes(3 - size);
      SetWord(a, word);
      InRange(word, Pow2(256));
    } else {
      TargetLarge(size, word);
      OverflowExact(word, size);
      SetWord(a, word);
      ShiftLeft(a, 8 * (size - 3));
      BytesAre(size - 3);
      ZeroProduct(word, Bytes(size - 3));
      if word * Bytes(size - 3) < Pow2(256) { InRange(word * Bytes(size - 3), Pow2(256)); }
    }
    negative := word != 0 && SignField(compact);
    overflow := OverflowTest(word, size);
  }

  lemma ZeroProduct(x: nat, p: nat)
    requires p > 0
    ensures x * p == 0 <==> x == 0
  {
  }

  lemma BytesAre(n: nat)
    ensures Bytes(n) == Pow2(8 * n)
  {
  }

  // ---------------------------------------------------------------- encoding

  /** GetLow64. */
  method GetLow64(a: array<nat>) returns (v: nat)
    requires a.Length >= 2 && Wide(a[..])
    ensures Val(a[..]) < BASE ==> v == Val(a[..])
  {
    hide Val;
    ValCons(a[..], 0);
    ValCons(a[..], 1);
    assert a[..][0..] == a[..];
    v := a[0] + a[1] * BASE;
  }

  /** The mantissa before the sign bit is cleared, at the byte length of v. */
  lemma FirstMantissa(v: nat, bits: nat)
    requires HasBits(v, bits)
    ensures var size := (bits + 7) / 8; var m := Scaled(v, Bytes(3), Bytes(size));
            && m < SIZE_UNIT
            && (m >= SIGN ==> CompactSize(v) == size + 1 && Mantissa(v) == m / 0x100)
            && (m < SIGN ==> CompactSize(v) == size && Mantissa(v) == m)
  {
    hide Pow2, Bytes, CompactSize, HasBits;
    var size := (bits + 7) / 8;
    var m := v * Bytes(3) / Bytes(size);
    SmallPowers();
    BitsMean(v, bits);
    if v == 0 {
      MantissaRange(0);
    } else {
      FirstWindow(v, bits, size);
      FloorBounds(v * SIZE_UNIT, Bytes(size), LEAST, SIZE_UNIT);
      Floor(v * SIZE_UNIT, Bytes(size));
      BytesNext(size);
      if m >= SIGN {
        MulMono(m, SIGN, Bytes(size));
        SizeIs(v, size + 1);
        NextFloor(v * SIZE_UNIT, Bytes(size));
      } else {
        MulMono(SIGN, m + 1, Bytes(size));
        SizeIs(v, size);
      }
    }
  }

  lemma NextFloor(x: nat, d: nat)
    requires d > 0
    ensures x / (0x100 * d) == x / d / 0x100
  {
    Floor(x, d);
    var y := x / d;
    var q := y / 0x100;
    MulMono(y, q * 0x100, d);
    MulMono((q + 1) * 0x100, y + 1, d);
    Regroup(q, d);
    Regroup(q + 1, d);
    FloorIs(x, 0x100 * d, q);
  }

  lemma Regroup(q: nat, d: nat)
    ensures (q * 0x100) * d == q * (0x100 * d)
  {
  }

  lemma FirstWindow(v: nat, bits: nat, size: nat)
    requires HasBits(v, bits) && v > 0 && size == (bits + 7) / 8
    ensures LEAST * Bytes(size) <= v * SIZE_UNIT < SIZE_UNIT * Bytes(size)
  {
    hide Pow2;
    HasLow(v, bits);
    SmallPowers();
    Pow2Mono(bits, 8 * size);
    Pow2Add(8 * size, 15);
    Pow2Add(bits - 1, 24);
    Pow2Mono(8 * size + 15, bits + 23);
    MulMono(v, Pow2(bits - 1), SIZE_UNIT);
    MulLess(v, Bytes(size), SIZE_UNIT);
  }

  lemma OrFields(m: nat, size: nat)
    requires m < SIZE_UNIT
    ensures Or(m, size * SIZE_UNIT) == size * SIZE_UNIT + m
  {
    hide Or, Pow2;
    SmallPowers();
    OrDisjoint(size, m, 24);
  }

  lemma OrSign(c: nat)
    requires c / SIGN % 2 == 0
    ensures Or(c, SIGN) == c + SIGN
  {
    hide Or, Pow2;
    SmallPowers();
    var m := c % SIGN;
    var k := c / SIGN / 2;
    assert c == k * SIZE_UNIT + m;
    OrThree(k, m);
  }

  lemma OrThree(k: nat, m: nat)
    requires m < SIGN
    ensures Or(k * SIZE_UNIT + m, SIGN) == k * SIZE_UNIT + m + SIGN
  {
    hide Pow2;
    SmallPowers();
    OrBit(k, m, 23);
  }

  /** Setting a clear bit adds it. */
  lemma {:induction false} OrBit(k: nat, m: nat, r: nat)
    requires m < Pow2(r)
    ensures Or(k * (2 * Pow2(r)) + m, Pow2(r)) == k * (2 * Pow2(r)) + m + Pow2(r)
  {
    hide Pow2, Or;
    if r == 0 {
      OnePow();
      OrLowest(k);
    } else {
      var p := Pow2(r - 1);
      Pow2Next(r - 1);
      OrBit(k, m / 2, r - 1);
      Double(k, p);
      OrHalves(k * (2 * p) + m / 2, m % 2, p);
    }
  }

  lemma OnePow()
    ensures Pow2(0) == 1
  {
  }

  lemma OrLowest(k: nat)
    ensures Or(k * (2 * 1) + 0, 1) == k * (2 * 1) + 0 + 1
  {
    OrZero(k);
    assert (k * 2) / 2 == k && (k * 2) % 2 == 0;
  }

  lemma Double(k: nat, p: nat)
    ensures k * (2 * (2 * p)) == 2 * (k * (2 * p))
  {
  }

  lemma OrHalves(x: nat, bit: nat, p: nat)
    requires bit < 2 && p > 0
    ensures Or(2 * x + bit, 2 * p) == bit + 2 * Or(x, p)
  {
    assert (2 * x + bit) / 2 == x && (2 * x + bit) % 2 == bit && (2 * p) / 2 == p && (2 * p) % 2 == 0;
  }

  /** GetCompact; both of the source's assertions hold. */
  method GetCompact(a: array<nat>, negative: bool) returns (compact: nat)
    requires a.Length == 8 && Wide(a[..])
    ensures compact == Compact(Val(a[..]), negative) && compact < BASE
  {
    hide Val, PowB, Pow2, Bytes, HasBits, Or, Mantissa, CompactSize;
    ghost var v := Val(a[..]);
    var bits := Bits(a);
    var size := (bits + 7) / 8;
    FirstMantissa(v, bits);
    ShiftedMantissa(v, size);
    if size <= 3 {
      LowSizeSmall(v, size);
      var low := GetLow64(a);
      compact := low * Bytes(3 - size) % BASE;
      InRange(compact, BASE);
    } else {
      var bn := Copy(a);
      ShiftRight(bn, 8 * (size - 3));
      BytesAre(size - 3);
      var low := GetLow64(bn);
      compact := low % BASE;
    }
    ValBound(a[..]);
    SignBelowRange();
    compact := Assemble(v, bits, size, compact, negative);
  }

  /** The last part of GetCompact: clears the sign bit and combines the fields. */
  method Assemble(ghost v: nat, ghost bits: nat, size0: nat, mantissa0: nat, negative: bool) returns (compact: nat)
    requires HasBits(v, bits) && v < Pow2(256) && size0 == (bits + 7) / 8 && mantissa0 == Scaled(v, Bytes(3), Bytes(size0))
    ensures compact == Compact(v, negative) && compact < BASE
  {
    hide Compact, CompactSize, Mantissa, HasBits, Bytes, Pow2, Or, Scaled;
    FirstMantissa(v, bits);
    SizeBound(v);
    CompactIs(v, negative);
    MantissaRange(v);
    var size, mantissa := size0, mantissa0;
    if mantissa / SIGN % 2 == 1 {
      mantissa := mantissa / 0x100;
      size := size + 1;
    }
    assert mantissa < SIGN && size < 256;
    OrFields(mantissa, size);
    compact := Or(mantissa, size * SIZE_UNIT);
    FieldsOf(size, mantissa, false);
    if negative && compact % SIGN != 0 {
      OrSign(compact);
      compact := Or(compact, SIGN);
    }
  }

  lemma LowSizeSmall(v: nat, size: nat)
    requires size <= 3 && v * Bytes(3 - size) < SIZE_UNIT
    ensures v < BASE
  {
    hide Bytes;
    MulMono(Bytes(3 - size), 1, v);
  }
}
