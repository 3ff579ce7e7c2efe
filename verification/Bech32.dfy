/**
 Bech32 encoding and decoding (BIP 173, with a length limit of 1023). A failed decode returns an
 empty pair; a successful one always has a non-empty prefix.
 */
module Bech32 {
  import opened Bech32Checksum
  import Bech32Distance

  const MAX_LENGTH: nat := 1023

  const CHARSET: string := "qpzry9x8gf2tvdw0s3jn54khce6mua7l"

  // The rows of the reverse table; -1 marks characters outside the set.
  const NO_ROW: seq<int> := [-1, -1, -1, -1, -1, -1, -1, -1, -1, -1, -1, -1, -1, -1, -1, -1]
  const DIGIT_ROW: seq<int> := [15, -1, 10, 17, 21, 20, 26, 30, 7, 5, -1, -1, -1, -1, -1, -1]
  const A_TO_O: seq<int> := [-1, 29, -1, 24, 13, 25, 9, 8, 23, -1, 18, 22, 31, 27, 19, -1]
  const P_TO_Z: seq<int> := [1, 0, 3, 16, 11, 28, 12, 14, 6, 4, 2, -1, -1, -1, -1, -1]

  /** The reverse table: the symbol of a character code, or -1. */
  function CharsetRev(c: nat): int
    requires c < 128
  {
    var row := c / 16;
    (if row == 3 then DIGIT_ROW else if row == 4 || row == 6 then A_TO_O
     else if row == 5 || row == 7 then P_TO_Z else NO_ROW)[c % 16]
  }

  predicate Printable(c: char) { 33 <= c as int <= 126 }
  predicate IsLower(c: char) { 'a' <= c <= 'z' }
  predicate IsUpper(c: char) { 'A' <= c <= 'Z' }

  function LowerCase(c: char): char { if IsUpper(c) then ((c as int) + 32) as char else c }

  function Lower(s: string): (r: string)
    ensures |r| == |s|
  {
    seq(|s|, i requires 0 <= i < |s| => LowerCase(s[i]))
  }

  /** The symbol a character stands for in either case, or -1. */
  function SymbolOf(c: char): int { if Printable(c) then CharsetRev(c as int) else -1 }

  function CharOf(x: byte): char
    requires x < 32
  {
    assert |CHARSET| == 32;
    CHARSET[x]
  }

  // ---------------------------------------------------------------- the character tables are inverse

  lemma CharOfSymbol(x: byte)
    requires x < 32
    ensures Printable(CharOf(x)) && !IsUpper(CharOf(x)) && CharOf(x) != '1' && SymbolOf(CharOf(x)) == x
  {
    assert |CHARSET| == 32;
    match x
    case 0 => assert CHARSET[0] == 'q'; case 1 => assert CHARSET[1] == 'p';
    case 2 => assert CHARSET[2] == 'z'; case 3 => assert CHARSET[3] == 'r';
    case 4 => assert CHARSET[4] == 'y'; case 5 => assert CHARSET[5] == '9';
    case 6 => assert CHARSET[6] == 'x'; case 7 => assert CHARSET[7] == '8';
    case 8 => assert CHARSET[8] == 'g'; case 9 => assert CHARSET[9] == 'f';
    case 10 => assert CHARSET[10] == '2'; case 11 => assert CHARSET[11] == 't';
    case 12 => assert CHARSET[12] == 'v'; case 13 => assert CHARSET[13] == 'd';
    case 14 => assert CHARSET[14] == 'w'; case 15 => assert CHARSET[15] == '0';
    case 16 => assert CHARSET[16] == 's'; case 17 => assert CHARSET[17] == '3';
    case 18 => assert CHARSET[18] == 'j'; case 19 => assert CHARSET[19] == 'n';
    case 20 => assert CHARSET[20] == '5'; case 21 => assert CHARSET[21] == '4';
    case 22 => assert CHARSET[22] == 'k'; case 23 => assert CHARSET[23] == 'h';
    case 24 => assert CHARSET[24] == 'c'; case 25 => assert CHARSET[25] == 'e';
    case 26 => assert CHARSET[26] == '6'; case 27 => assert CHARSET[27] == 'm';
    case 28 => assert CHARSET[28] == 'u'; case 29 => assert CHARSET[29] == 'a';
    case 30 => assert CHARSET[30] == '7'; case 31 => assert CHARSET[31] == 'l';
  }

  lemma SymbolOfChar(c: char)
    requires SymbolOf(c) != -1
    ensures 0 <= SymbolOf(c) < 32 && CharOf(SymbolOf(c)) == LowerCase(c) && c != '1'
  {
    assert |CHARSET| == 32;
    SymbolRow(c as int, c as int % 16);
  }

  lemma SymbolRow(c: nat, i: nat)
    requires 33 <= c < 127 && i == c % 16
    ensures |CHARSET| == 32
    ensures CharsetRev(c) != -1 ==>
              0 <= CharsetRev(c) < 32 && c != 49 && CHARSET[CharsetRev(c)] as int == if 65 <= c <= 90 then c + 32 else c
  {
    match i
    case 0 => case 1 => case 2 => case 3 => case 4 => case 5 => case 6 => case 7 =>
    case 8 => case 9 => case 10 => case 11 => case 12 => case 13 => case 14 => case 15 =>
  }

  /** Case does not matter to the symbol. */
  lemma SymbolOfLower(c: char)
    ensures SymbolOf(LowerCase(c)) == SymbolOf(c) && (LowerCase(c) == '1' <==> c == '1') && (Printable(LowerCase(c)) <==> Printable(c))
    ensures !IsUpper(LowerCase(c)) && (!IsUpper(c) ==> LowerCase(c) == c)
  {
    if IsUpper(c) {
      var x := c as int;
      assert (x + 32) / 16 == x / 16 + 2 && (x + 32) % 16 == x % 16;
    }
  }

  // ---------------------------------------------------------------- specification

  function HighBits(c: char): (x: byte)
    ensures x < 8
  {
    (c as int) % 256 / 32
  }

  function LowBits(c: char): (x: byte)
    ensures x < 32
  {
    (c as int) % 32
  }

  /** The prefix as checksum input: high bits, a zero, low bits. */
  function Expanded(hrp: string): (r: seq<byte>)
    ensures |r| == 2 * |hrp| + 1
  {
    seq(|hrp|, i requires 0 <= i < |hrp| => HighBits(hrp[i])) + [0] +
    seq(|hrp|, i requires 0 <= i < |hrp| => LowBits(hrp[i]))
  }

  function Remainder(v: seq<byte>): bv32 { Run(1, Bits(v)) }

  ghost predicate Verifies(hrp: string, values: seq<byte>) { Remainder(Expanded(hrp) + values) == 1 }

  function Checksum(hrp: string, values: seq<byte>): (r: seq<byte>)
    ensures |r| == 6 && forall i :: 0 <= i < 6 ==> r[i] < 32
  {
    DigitBytes(Flip(Remainder(Expanded(hrp) + values + [0, 0, 0, 0, 0, 0])))
  }

  function DigitBytes(m: bv32): (r: seq<byte>)
    ensures |r| == 6 && forall i :: 0 <= i < 6 ==> r[i] == DigitByte(m, i)
  {
    seq(6, i requires 0 <= i < 6 => DigitByte(m, i))
  }

  function DigitByte(m: bv32, i: nat): (x: byte)
    requires i < 6
    ensures x < 32 && ByteBits(x) == Digit(m, i)
  {
    DigitIsSymbol(m, i);
    BitsBack(Digit(m, i));
    Digit(m, i) as int
  }

  ghost predicate Small(v: seq<byte>) { forall i :: 0 <= i < |v| ==> v[i] < 32 }

  function Chars(v: seq<byte>): (r: string)
    requires Small(v)
    ensures |r| == |v|
  {
    seq(|v|, i requires 0 <= i < |v| => CharOf(v[i]))
  }

  ghost function Encoded(hrp: string, values: seq<byte>): string {
    if Small(values) then hrp + "1" + Chars(values + Checksum(hrp, values)) else ""
  }

  ghost predicate Mixed(s: string) {
    (exists i :: 0 <= i < |s| && IsLower(s[i])) && (exists i :: 0 <= i < |s| && IsUpper(s[i]))
  }

  /** The position of the last separator, or -1. */
  function LastSeparator(s: string): (p: int)
    ensures -1 <= p < |s|
    ensures p >= 0 ==> s[p] == '1'
    ensures forall i :: p < i < |s| ==> s[i] != '1'
  {
    if s == [] then -1
    else if s[|s| - 1] == '1' then |s| - 1
    else LastSeparator(s[..|s| - 1])
  }

  ghost predicate AllSymbols(s: string) { forall i :: 0 <= i < |s| ==> SymbolOf(s[i]) != -1 }

  function SymbolsOf(s: string): (r: seq<byte>)
    requires AllSymbols(s)
    ensures |r| == |s| && Small(r)
  {
    assert forall i :: 0 <= i < |s| ==> 0 <= SymbolOf(s[i]) < 32 by {
      forall i | 0 <= i < |s| ensures 0 <= SymbolOf(s[i]) < 32 { SymbolOfChar(s[i]); }
    }
    seq(|s|, i requires 0 <= i < |s| => SymbolOf(s[i]))
  }

  ghost predicate WellFormed(s: string) {
    && (forall i :: 0 <= i < |s| ==> Printable(s[i])) && !Mixed(s)
    && var pos := LastSeparator(s);
       |s| <= MAX_LENGTH && pos > 0 && pos + 7 <= |s| && AllSymbols(s[pos + 1..])
  }

  ghost function Decoded(s: string): (string, seq<byte>) {
    if !WellFormed(s) then ("", [])
    else
      var pos := LastSeparator(s);
      var hrp := Lower(s[..pos]);
      var values := SymbolsOf(s[pos + 1..]);
      if Verifies(hrp, values) then (hrp, values[..|values| - 6]) else ("", [])
  }

  /** What Encode can turn into a decodable string. */
  ghost predicate Encodable(hrp: string, values: seq<byte>) {
    && hrp != [] && (forall i :: 0 <= i < |hrp| ==> Printable(hrp[i]) && !IsUpper(hrp[i]))
    && Small(values) && |hrp| + 1 + |values| + 6 <= 1023
  }

  // ---------------------------------------------------------------- checksums

  lemma BitsConcat(u: seq<byte>, v: seq<byte>)
    ensures Bits(u + v) == Bits(u) + Bits(v)
  {
    hide ByteBits;
  }

  lemma BitsSlice(s: seq<byte>, i: nat, j: nat)
    requires i <= j <= |s|
    ensures Bits(s)[i..j] == Bits(s[i..j])
  {
    hide ByteBits;
  }

  lemma ZeroBits()
    ensures Bits([0, 0, 0, 0, 0, 0]) == Zeros(6)
  {
  }

  /** The checksum is the only six symbols that make the sequence verify. */
  lemma ChecksumVerifies(hrp: string, values: seq<byte>, cs: seq<byte>)
    requires |cs| == 6 && Small(cs)
    ensures Verifies(hrp, values + cs) <==> cs == Checksum(hrp, values)
  {
    hide Run, Digit, Bits, Expanded, Checksum, Small, Flip, DigitBytes;
    var front := Expanded(hrp) + values;
    var c := Run(1, Bits(front));
    assert Expanded(hrp) + (values + cs) == front + cs;
    RemainderSplits(front, cs);
    SmallBits(cs);
    ChecksumUnique(c, Bits(cs));
    SameDigits(cs, Flip(Run(c, Zeros(6))));
    ChecksumIs(hrp, values);
  }

  lemma RemainderSplits(front: seq<byte>, cs: seq<byte>)
    ensures Remainder(front + cs) == Run(Run(1, Bits(front)), Bits(cs))
  {
    hide Run, Bits;
    BitsConcat(front, cs);
    RunConcat(1, Bits(front), Bits(cs));
  }

  lemma ChecksumIs(hrp: string, values: seq<byte>)
    ensures Checksum(hrp, values) == DigitBytes(Flip(Run(Run(1, Bits(Expanded(hrp) + values)), Zeros(6))))
  {
    hide Run, Bits, Expanded, DigitBytes, Flip;
    RemainderSplits(Expanded(hrp) + values, [0, 0, 0, 0, 0, 0]);
    ZeroBits();
  }

  lemma SmallBits(v: seq<byte>)
    requires Small(v)
    ensures Symbols(Bits(v))
  {
    hide ByteBits;
    forall i | 0 <= i < |v| ensures Bits(v)[i] < 32 { ByteBitsInverse(v[i]); }
  }

  lemma SameDigits(cs: seq<byte>, m: bv32)
    requires |cs| == 6
    ensures (forall i :: 0 <= i < 6 ==> Bits(cs)[i] == Digit(m, i)) <==> cs == DigitBytes(m)
  {
    hide Digit, ByteBits;
    forall i | 0 <= i < 6 ensures ByteBits(cs[i]) == Digit(m, i) <==> cs[i] == DigitByte(m, i) {
      ByteBitsInverse(cs[i]);
      ByteBitsInverse(DigitByte(m, i));
    }
    var ds := DigitBytes(m);
    if forall i :: 0 <= i < 6 ==> Bits(cs)[i] == Digit(m, i) {
      forall i | 0 <= i < 6 ensures cs[i] == ds[i] { assert Bits(cs)[i] == Digit(m, i); }
    }
    if cs == ds {
      forall i | 0 <= i < 6 ensures Bits(cs)[i] == Digit(m, i) { assert cs[i] == ds[i]; }
    }
  }

  /** Changing symbols inside a window of at most six makes a verifying sequence fail, at any length. */
  lemma ErrorDetected(hrp: string, s: seq<byte>, t: seq<byte>, i: nat, j: nat)
    requires |s| == |t| && i <= j <= |s| && j <= i + 6 && s != t
    requires s[..i] == t[..i] && s[j..] == t[j..] && Small(s[i..j]) && Small(t[i..j])
    ensures Verifies(hrp, s) ==> !Verifies(hrp, t)
  {
    hide Run, ByteBits, Expanded;
    var h := Expanded(hrp);
    BitsConcat(h, s);
    BitsConcat(h, t);
    RunConcat(1, Bits(h), Bits(s));
    RunConcat(1, Bits(h), Bits(t));
    BitsInjective(s, t);
    WindowBits(s, t, i, j);
    BurstDetected(Run(1, Bits(h)), Bits(s), Bits(t), i, j);
  }

  lemma WindowBits(s: seq<byte>, t: seq<byte>, i: nat, j: nat)
    requires |s| == |t| && i <= j <= |s| && s[..i] == t[..i] && s[j..] == t[j..] && Small(s[i..j]) && Small(t[i..j])
    ensures Bits(s)[..i] == Bits(t)[..i] && Bits(s)[j..] == Bits(t)[j..]
    ensures Symbols(Bits(s)[i..j]) && Symbols(Bits(t)[i..j])
  {
    hide Bits;
    BitsSlice(s, 0, i);
    BitsSlice(t, 0, i);
    BitsSlice(s, i, j);
    BitsSlice(t, i, j);
    BitsSlice(s, j, |s|);
    BitsSlice(t, j, |t|);
    assert s[0..i] == s[..i] && t[0..i] == t[..i] && s[j..|s|] == s[j..] && t[j..|t|] == t[j..];
    assert Bits(s)[0..i] == Bits(s)[..i] && Bits(t)[0..i] == Bits(t)[..i];
    assert Bits(s)[j..|s|] == Bits(s)[j..] && Bits(t)[j..|t|] == Bits(t)[j..];
    SmallBits(s[i..j]);
    SmallBits(t[i..j]);
  }

  /** A single replaced symbol is the window of one. */
  lemma SingleErrorDetected(hrp: string, s: seq<byte>, i: nat, x: byte)
    requires i < |s| && s[i] < 32 && x < 32 && x != s[i]
    ensures Verifies(hrp, s) ==> !Verifies(hrp, s[i := x])
  {
    hide Verifies;
    var t := s[i := x];
    assert s[..i] == t[..i] && s[i + 1..] == t[i + 1..];
    ErrorDetected(hrp, s, t, i, i + 1);
  }

  /** Up to three wrong symbols, less than 1023 places apart, make a verifying sequence fail. */
  lemma ThreeErrorsDetected(hrp: string, s: seq<byte>, t: seq<byte>, p1: nat, p2: nat, p3: nat)
    requires |s| == |t| && p1 < p2 < p3 < |s| && p3 - p1 < 1023 && s != t
    requires forall k :: 0 <= k < |s| && k != p1 && k != p2 && k != p3 ==> s[k] == t[k]
    requires forall k :: 0 <= k < |s| && (k == p1 || k == p2 || k == p3) ==> s[k] < 32 && t[k] < 32
    ensures Verifies(hrp, s) ==> !Verifies(hrp, t)
  {
    hide Run, ByteBits, Expanded;
    var h := Expanded(hrp);
    RemainderSplits(h, s);
    RemainderSplits(h, t);
    BitsInjective(s, t);
    forall k | 0 <= k < |s| && (k == p1 || k == p2 || k == p3) ensures Bits(s)[k] < 32 && Bits(t)[k] < 32 {
      ByteBitsInverse(s[k]);
      ByteBitsInverse(t[k]);
    }
    Bech32Distance.ThreeErrors(Run(1, Bits(h)), Bits(s), Bits(t), p1, p2, p3);
  }

  lemma ExpandedAt(h: string, g: string, i: nat)
    requires |g| == |h| && i < |h| && h[i] != g[i] && h[i] as int < 256 && g[i] as int < 256
    requires forall k :: 0 <= k < |h| && k != i ==> h[k] == g[k]
    ensures forall k :: 0 <= k < 2 * |h| + 1 && k != i && k != i + |h| + 1 ==> Expanded(h)[k] == Expanded(g)[k]
    ensures Expanded(h) != Expanded(g)
    ensures forall k :: 0 <= k < 2 * |h| + 1 ==> Expanded(h)[k] < 32 && Expanded(g)[k] < 32
  {
    var s, t := Expanded(h), Expanded(g);
    PartsDiffer(h[i], g[i]);
    hide HighBits, LowBits;
    assert s[i] == HighBits(h[i]) && s[i + |h| + 1] == LowBits(h[i]);
    assert t[i] == HighBits(g[i]) && t[i + |h| + 1] == LowBits(g[i]);
    forall k | 0 <= k < |s| && k != i && k != i + |h| + 1 ensures s[k] == t[k] {
      if |h| < k { assert s[k] == LowBits(h[k - |h| - 1]); }
    }
  }

  lemma PartsDiffer(c: char, d: char)
    requires c != d && c as int < 256 && d as int < 256
    ensures HighBits(c) != HighBits(d) || LowBits(c) != LowBits(d)
  {
    assert c as int == 32 * HighBits(c) + LowBits(c) && d as int == 32 * HighBits(d) + LowBits(d);
  }

  /**
   A wrong character in the prefix changes its high or its low bits, |h| + 1 places apart, and verification
   fails. Every prefix that Decode accepts is shorter than the bound.
   */
  lemma PrefixErrorDetected(h: string, g: string, i: nat, values: seq<byte>)
    requires |g| == |h| < 1022 && i < |h| && h[i] != g[i] && h[i] as int < 256 && g[i] as int < 256
    requires forall k :: 0 <= k < |h| && k != i ==> h[k] == g[k]
    ensures Verifies(h, values) ==> !Verifies(g, values)
  {
    hide Run, ByteBits, Expanded;
    ExpandedAt(h, g, i);
    var s, t := Expanded(h) + values, Expanded(g) + values;
    var j := i + |h| + 1;
    assert s[..2 * |h| + 1] == Expanded(h) && t[..2 * |h| + 1] == Expanded(g);
    BitsInjective(s, t);
    forall k | 0 <= k < |s| && (k == i || k == i + 1 || k == j) ensures Bits(s)[k] < 32 && Bits(t)[k] < 32 {
      ByteBitsInverse(s[k]);
      ByteBitsInverse(t[k]);
    }
    Bech32Distance.ThreeErrors(1, Bits(s), Bits(t), i, i + 1, j);
  }

  lemma BitsInjective(s: seq<byte>, t: seq<byte>)
    requires |s| == |t| && s != t
    ensures Bits(s) != Bits(t)
  {
    hide ByteBits;
    var k :| 0 <= k < |s| && s[k] != t[k];
    ByteBitsInverse(s[k]);
    ByteBitsInverse(t[k]);
    assert Bits(s)[k] != Bits(t)[k];
  }

  // ---------------------------------------------------------------- round trips

  /** The separator of an encoding is the last one, since the character set has none. */
  lemma SeparatorIs(s: string, p: nat)
    requires p < |s| && s[p] == '1' && forall i :: p < i < |s| ==> s[i] != '1'
    ensures LastSeparator(s) == p
  {
  }

  lemma CharsAre(v: seq<byte>)
    requires Small(v)
    ensures AllSymbols(Chars(v)) && SymbolsOf(Chars(v)) == v
    ensures forall i :: 0 <= i < |v| ==> Printable(Chars(v)[i]) && !IsUpper(Chars(v)[i]) && Chars(v)[i] != '1'
  {
    hide CharOf, SymbolOf, Printable, IsUpper;
    forall i | 0 <= i < |v|
      ensures Printable(Chars(v)[i]) && !IsUpper(Chars(v)[i]) && Chars(v)[i] != '1' && SymbolOf(Chars(v)[i]) == v[i]
    {
      CharOfSymbol(v[i]);
    }
  }

  lemma SymbolsAre(s: string)
    requires AllSymbols(s)
    ensures Chars(SymbolsOf(s)) == Lower(s)
  {
    hide CharOf, SymbolOf, LowerCase;
    forall i | 0 <= i < |s| ensures Chars(SymbolsOf(s))[i] == Lower(s)[i] { SymbolOfChar(s[i]); }
  }

  lemma LowerPoint(s: string, i: nat)
    requires i < |s|
    ensures SymbolOf(Lower(s)[i]) == SymbolOf(s[i]) && (Lower(s)[i] == '1' <==> s[i] == '1') && (Printable(Lower(s)[i]) <==> Printable(s[i]))
    ensures !IsUpper(Lower(s)[i])
  {
    hide LowerCase, SymbolOf, Printable, IsUpper;
    SymbolOfLower(s[i]);
  }

  /** A decoded string is, but for case, the encoding of what it decodes to. */
  lemma DecodedIsEncoding(s: string)
    requires Decoded(s).0 != ""
    ensures var (h, v) := Decoded(s); Encodable(h, v) && !Mixed(s) && Lower(s) == Encoded(h, v)
  {
    hide Verifies, Checksum, SymbolOf, Printable, IsUpper, Mixed, LowerCase, CharOf;
    var pos := LastSeparator(s);
    var h, values := Lower(s[..pos]), SymbolsOf(s[pos + 1..]);
    var n := |values| - 6;
    var v, cs := values[..n], values[n..];
    assert values == v + cs;
    ChecksumVerifies(h, v, cs);
    SymbolsAre(s[pos + 1..]);
    forall i | 0 <= i < |h| ensures Printable(h[i]) && !IsUpper(h[i]) { LowerPoint(s[..pos], i); }
    LowerSplits(s, pos);
  }

  lemma LowerSplits(s: string, pos: nat)
    requires pos < |s| && s[pos] == '1'
    ensures Lower(s) == Lower(s[..pos]) + "1" + Lower(s[pos + 1..])
  {
  }

  /** Any spelling, in one case, of an encoding decodes. */
  lemma EncodingDecodes(s: string, h: string, v: seq<byte>)
    requires Encodable(h, v) && !Mixed(s) && Lower(s) == Encoded(h, v)
    ensures Decoded(s) == (h, v)
  {
    hide Verifies, Checksum, SymbolOf, Printable, IsUpper, Mixed, LowerCase, CharOf;
    var cs := Checksum(h, v);
    var all := v + cs;
    var p := |h|;
    CharsAre(all);
    ChecksumVerifies(h, v, cs);
    assert |s| == p + 1 + |all|;
    SpelledAs(s, h, all);
    SeparatorIs(s, p);
    assert all[..|all| - 6] == v;
  }

  lemma SpelledAs(s: string, h: string, all: seq<byte>)
    requires Small(all) && Lower(s) == h + "1" + Chars(all)
    requires forall i :: 0 <= i < |h| ==> Printable(h[i])
    ensures |s| == |h| + 1 + |all| && s[|h|] == '1' && (forall i :: |h| < i < |s| ==> s[i] != '1')
    ensures forall i :: 0 <= i < |s| ==> Printable(s[i])
    ensures Lower(s[..|h|]) == h && AllSymbols(s[|h| + 1..]) && SymbolsOf(s[|h| + 1..]) == all
  {
    hide SymbolOf, Printable, IsUpper, LowerCase, CharOf;
    var p := |h|;
    var r := Lower(s);
    assert r[p] == '1' && r[..p] == h && r[p + 1..] == Chars(all);
    CharsAre(all);
    SeparatorPrints();
    forall i | 0 <= i < |s|
      ensures Printable(s[i]) && (s[i] == '1' <==> r[i] == '1') && SymbolOf(s[i]) == SymbolOf(r[i])
    {
      LowerPoint(s, i);
      if i < p { assert r[i] == h[i]; } else if i > p { assert r[i] == Chars(all)[i - p - 1]; }
    }
    forall i | p < i < |s| ensures s[i] != '1' && SymbolOf(s[i]) == all[i - p - 1] {
      assert r[i] == Chars(all)[i - p - 1];
      assert SymbolsOf(Chars(all))[i - p - 1] == all[i - p - 1];
    }
    assert Lower(s[..p]) == r[..p];
  }

  lemma SeparatorPrints()
    ensures Printable('1')
  {
  }

  /** The strings that decode are exactly the one-case spellings of encodings. */
  lemma DecodesIff(s: string, h: string, v: seq<byte>)
    requires h != ""
    ensures Decoded(s) == (h, v) <==> Encodable(h, v) && !Mixed(s) && Lower(s) == Encoded(h, v)
  {
    hide Decoded, Encodable, Encoded, Mixed;
    if Decoded(s) == (h, v) { DecodedIsEncoding(s); }
    if Encodable(h, v) && !Mixed(s) && Lower(s) == Encoded(h, v) { EncodingDecodes(s, h, v); }
  }

  lemma EncodingIsLower(h: string, v: seq<byte>)
    requires Encodable(h, v)
    ensures !Mixed(Encoded(h, v)) && Lower(Encoded(h, v)) == Encoded(h, v)
  {
    hide CharOf, Printable, IsUpper, LowerCase, Checksum;
    var s := Encoded(h, v);
    CharsAre(v + Checksum(h, v));
    SeparatorIsNotUpper();
    forall i | 0 <= i < |s| ensures !IsUpper(s[i]) && LowerCase(s[i]) == s[i] {
      SymbolOfLower(s[i]);
    }
  }

  lemma SeparatorIsNotUpper()
    ensures !IsUpper('1')
  {
  }

  lemma EmptyPrefixFails(s: string)
    ensures Decoded(s).0 == "" ==> Decoded(s).1 == []
  {
  }

  /** Decoding an encoding gives back the input exactly for encodable input, and for nothing at all. */
  lemma RoundTrip(h: string, v: seq<byte>)
    ensures Decoded(Encoded(h, v)) == (h, v) <==> Encodable(h, v) || (h == "" && v == [])
  {
    hide Decoded, Encoded, Mixed;
    if h != "" {
      DecodesIff(Encoded(h, v), h, v);
      if Encodable(h, v) { EncodingIsLower(h, v); }
    } else {
      EmptyPrefixFails(Encoded(h, v));
      if v == [] { NoPrefixFails(); }
    }
  }

  lemma NoPrefixFails()
    ensures Decoded(Encoded("", [])) == ("", [])
  {
    hide Verifies, Checksum, SymbolOf, Printable, IsUpper, Mixed, LowerCase, CharOf;
    var s := Encoded("", []);
    CharsAre([] + Checksum("", []));
    SeparatorIs(s, 0);
  }

  // ---------------------------------------------------------------- the methods

  method PolyMod(v: seq<byte>) returns (c: bv32)
    ensures c == Remainder(v)
  {
    hide Step, ByteBits, Run;
    c := 1;
    RunEmpty(1);
    for i := 0 to |v|
      invariant c == Run(1, Bits(v[..i]))
    {
      assert v[..i + 1] == v[..i] + [v[i]];
      BitsConcat(v[..i], [v[i]]);
      RunConcat(1, Bits(v[..i]), Bits([v[i]]));
      RunOne(c, ByteBits(v[i]));
      assert Bits([v[i]]) == [ByteBits(v[i])];
      c := Step(c, ByteBits(v[i]));
    }
    assert v[..|v|] == v;
  }

  lemma RunEmpty(c: bv32)
    ensures Run(c, Bits([])) == c
  {
  }

  method ExpandHRP(hrp: string) returns (r: seq<byte>)
    ensures r == Expanded(hrp)
  {
    var n := |hrp|;
    var ret := new byte[2 * n + 1](_ => 0);
    for i := 0 to n
      invariant ret[n] == 0
      invariant forall k :: 0 <= k < i ==> ret[k] == (hrp[k] as int) % 256 / 32 && ret[k + n + 1] == (hrp[k] as int) % 32
    {
      var c := (hrp[i] as int) % 256;
      ret[i] := c / 32;
      ret[i + n + 1] := c % 32;
    }
    ret[n] := 0;
    r := ret[..];
    forall k | 0 <= k < |r| ensures r[k] == Expanded(hrp)[k] {
      if k > n { assert k == (k - n - 1) + n + 1; }
    }
  }

  method VerifyChecksum(hrp: string, values: seq<byte>) returns (ok: bool)
    ensures ok <==> Verifies(hrp, values)
  {
    hide Run, Expanded, Bits;
    var e := ExpandHRP(hrp);
    var c := PolyMod(e + values);
    ok := c == 1;
  }

  method CreateChecksum(hrp: string, values: seq<byte>) returns (r: seq<byte>)
    ensures r == Checksum(hrp, values)
  {
    hide Run, Expanded, Bits, Digit, ByteBits, Flip;
    var e := ExpandHRP(hrp);
    var mod := PolyMod(e + values + [0, 0, 0, 0, 0, 0]);
    mod := Flip(mod);
    r := [];
    for i := 0 to 6
      invariant |r| == i && forall k :: 0 <= k < i ==> r[k] == DigitByte(mod, k)
    {
      r := r + [DigitByte(mod, i)];
    }
  }

  method Encode(hrp: string, values: seq<byte>) returns (r: string)
    ensures r == Encoded(hrp, values)
  {
    hide CharOf, Checksum;
    var checksum := CreateChecksum(hrp, values);
    var combined := values + checksum;
    r := hrp + "1";
    for i := 0 to |combined|
      invariant Small(combined[..i]) && r == hrp + "1" + Chars(combined[..i])
    {
      if combined[i] >= 32 {
        assert values[i] >= 32;
        return "";
      }
      assert combined[..i + 1] == combined[..i] + [combined[i]];
      assert Chars(combined[..i + 1]) == Chars(combined[..i]) + [CharOf(combined[i])];
      r := r + [CharOf(combined[i])];
    }
    assert combined[..|combined|] == combined && values == combined[..|values|];
  }

  method Decode(s: string) returns (hrp: string, data: seq<byte>)
    ensures (hrp, data) == Decoded(s)
  {
    hide CharOf, SymbolOf, Printable, IsUpper, IsLower, Verifies, LowerCase;
    var lower, upper := false, false;
    for i := 0 to |s|
      invariant forall k :: 0 <= k < i ==> Printable(s[k])
      invariant lower <==> exists k :: 0 <= k < i && IsLower(s[k])
      invariant upper <==> exists k :: 0 <= k < i && IsUpper(s[k])
    {
      if !Printable(s[i]) { return "", []; }
      if IsLower(s[i]) { lower := true; }
      if IsUpper(s[i]) { upper := true; }
    }
    if lower && upper { return "", []; }
    var pos := LastSeparator(s);
    if |s| > MAX_LENGTH || pos == -1 || pos == 0 || pos + 7 > |s| { return "", []; }
    var values: seq<byte> := [];
    var rest := s[pos + 1..];
    for i := 0 to |rest|
      invariant AllSymbols(rest[..i]) && |values| == i && values == SymbolsOf(rest[..i])
    {
      var rev := SymbolOf(rest[i]);
      if rev == -1 { return "", []; }
      SymbolOfChar(rest[i]);
      assert rest[..i + 1] == rest[..i] + [rest[i]];
      values := values + [rev];
    }
    assert rest[..|rest|] == rest;
    hrp := "";
    for i := 0 to pos
      invariant hrp == Lower(s[..i])
    {
      assert s[..i + 1] == s[..i] + [s[i]];
      hrp := hrp + [LowerCase(s[i])];
    }
    var ok := VerifyChecksum(hrp, values);
    if !ok { return "", []; }
    data := values[..|values| - 6];
  }
}
