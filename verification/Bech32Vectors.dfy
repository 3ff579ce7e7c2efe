/**
 The checksum worked out by hand on two strings of BIP 173, which fixes the order of the parts, the
 generator, the constant and the character set.
 */
module Bech32Vectors {
  import opened Bech32Checksum
  import opened Bech32

  /** Remainders cs[0], cs[1], ... follow one another along w. */
  ghost predicate Follows(w: seq<bv32>, cs: seq<bv32>) {
    |cs| == |w| + 1 && forall i :: 0 <= i < |w| ==> cs[i + 1] == Step(cs[i], w[i])
  }

  lemma {:induction false} RunFollows(w: seq<bv32>, cs: seq<bv32>)
    requires Follows(w, cs)
    ensures Run(cs[0], w) == cs[|w|]
    decreases |w|
  {
    hide Step;
    if w != [] {
      assert cs[0 + 1] == Step(cs[0], w[0]);
      forall i | 0 <= i < |w[1..]| ensures cs[1..][i + 1] == Step(cs[1..][i], w[1..][i]) {
        assert cs[(i + 1) + 1] == Step(cs[i + 1], w[i + 1]);
      }
      RunFollows(w[1..], cs[1..]);
    }
  }

  lemma Short1()
    ensures Run(1, [3, 0, 1]) == 35841
  {
    var w: seq<bv32>, cs: seq<bv32> := [3, 0, 1], [1, 35, 1120, 35841];
    assert Step(1, 3) == 35;
    assert Step(35, 0) == 1120;
    assert Step(1120, 1) == 35841;
    hide Step;
    assert Follows(w, cs);
    RunFollows(w, cs);
  }

  lemma Short2()
    ensures Run(35841, [0, 0, 0, 0, 0, 0]) == 365756062
  {
    var w: seq<bv32>, cs: seq<bv32> := [0, 0, 0, 0, 0, 0], [35841, 1146912, 36701184, 1030412210, 50147513, 617365650, 365756062];
    assert Step(35841, 0) == 1146912;
    assert Step(1146912, 0) == 36701184;
    assert Step(36701184, 0) == 1030412210;
    assert Step(1030412210, 0) == 50147513;
    assert Step(50147513, 0) == 617365650;
    assert Step(617365650, 0) == 365756062;
    hide Step;
    assert Follows(w, cs);
    RunFollows(w, cs);
  }

  lemma Long1()
    ensures Run(1, [3, 3, 3, 3, 3, 3, 0]) == 81575129
  {
    var w: seq<bv32>, cs: seq<bv32> := [3, 3, 3, 3, 3, 3, 0], [1, 35, 1123, 35939, 1150051, 36801635, 1029430225, 81575129];
    assert Step(1, 3) == 35;
    assert Step(35, 3) == 1123;
    assert Step(1123, 3) == 35939;
    assert Step(35939, 3) == 1150051;
    assert Step(1150051, 3) == 36801635;
    assert Step(36801635, 3) == 1029430225;
    assert Step(1029430225, 0) == 81575129;
    hide Step;
    assert Follows(w, cs);
    RunFollows(w, cs);
  }

  lemma Long2()
    ensures Run(81575129, [1, 2, 3, 4, 5, 6]) == 1005063786
  {
    var w: seq<bv32>, cs: seq<bv32> := [1, 2, 3, 4, 5, 6], [81575129, 1036457292, 390426491, 148178273, 67220958, 644232616, 1005063786];
    assert Step(81575129, 1) == 1036457292;
    assert Step(1036457292, 2) == 390426491;
    assert Step(390426491, 3) == 148178273;
    assert Step(148178273, 4) == 67220958;
    assert Step(67220958, 5) == 644232616;
    assert Step(644232616, 6) == 1005063786;
    hide Step;
    assert Follows(w, cs);
    RunFollows(w, cs);
  }

  lemma Long3()
    ensures Run(1005063786, [0, 1, 2, 3, 4, 5, 6, 7]) == 300451432
  {
    var w: seq<bv32>, cs: seq<bv32> := [0, 1, 2, 3, 4, 5, 6, 7], [1005063786, 261935718, 805407972, 392678892, 209803137, 685467571, 802786604, 314443536, 300451432];
    assert Step(1005063786, 0) == 261935718;
    assert Step(261935718, 1) == 805407972;
    assert Step(805407972, 2) == 392678892;
    assert Step(392678892, 3) == 209803137;
    assert Step(209803137, 4) == 685467571;
    assert Step(685467571, 5) == 802786604;
    assert Step(802786604, 6) == 314443536;
    assert Step(314443536, 7) == 300451432;
    hide Step;
    assert Follows(w, cs);
    RunFollows(w, cs);
  }

  lemma Long4()
    ensures Run(300451432, [8, 9, 10, 11, 12, 13, 14, 15]) == 824328074
  {
    var w: seq<bv32>, cs: seq<bv32> := [8, 9, 10, 11, 12, 13, 14, 15], [300451432, 5439189, 174054057, 774904674, 797757149, 404126010, 556535146, 261476349, 824328074];
    assert Step(300451432, 8) == 5439189;
    assert Step(5439189, 9) == 174054057;
    assert Step(174054057, 10) == 774904674;
    assert Step(774904674, 11) == 797757149;
    assert Step(797757149, 12) == 404126010;
    assert Step(404126010, 13) == 556535146;
    assert Step(556535146, 14) == 261476349;
    assert Step(261476349, 15) == 824328074;
    hide Step;
    assert Follows(w, cs);
    RunFollows(w, cs);
  }

  lemma Long5()
    ensures Run(824328074, [16, 17, 18, 19, 20, 21, 22, 23]) == 696010976
  {
    var w: seq<bv32>, cs: seq<bv32> := [16, 17, 18, 19, 20, 21, 22, 23], [824328074, 856793150, 235405581, 43770263, 672556353, 913953661, 89581316, 210530043, 696010976];
    assert Step(824328074, 16) == 856793150;
    assert Step(856793150, 17) == 235405581;
    assert Step(235405581, 18) == 43770263;
    assert Step(43770263, 19) == 672556353;
    assert Step(672556353, 20) == 913953661;
    assert Step(913953661, 21) == 89581316;
    assert Step(89581316, 22) == 210530043;
    assert Step(210530043, 23) == 696010976;
    hide Step;
    assert Follows(w, cs);
    RunFollows(w, cs);
  }

  lemma Long6()
    ensures Run(696010976, [24, 25, 26, 27, 28, 29, 30, 31]) == 437073494
  {
    var w: seq<bv32>, cs: seq<bv32> := [24, 25, 26, 27, 28, 29, 30, 31], [696010976, 456943441, 1057331116, 880764113, 1055540536, 159725143, 772264711, 695583336, 437073494];
    assert Step(696010976, 24) == 456943441;
    assert Step(456943441, 25) == 1057331116;
    assert Step(1057331116, 26) == 880764113;
    assert Step(880764113, 27) == 1055540536;
    assert Step(1055540536, 28) == 159725143;
    assert Step(159725143, 29) == 772264711;
    assert Step(772264711, 30) == 695583336;
    assert Step(695583336, 31) == 437073494;
    hide Step;
    assert Follows(w, cs);
    RunFollows(w, cs);
  }

  lemma Long7()
    ensures Run(437073494, [0, 0, 0, 0, 0, 0]) == 905969871
  {
    var w: seq<bv32>, cs: seq<bv32> := [0, 0, 0, 0, 0, 0], [437073494, 422557525, 102088839, 528664895, 243323928, 327238437, 905969871];
    assert Step(437073494, 0) == 422557525;
    assert Step(422557525, 0) == 102088839;
    assert Step(102088839, 0) == 528664895;
    assert Step(528664895, 0) == 243323928;
    assert Step(243323928, 0) == 327238437;
    assert Step(327238437, 0) == 905969871;
    hide Step;
    assert Follows(w, cs);
    RunFollows(w, cs);
  }

  lemma DigitIs(m: bv32, i: nat, x: byte)
    requires i < 6 && x < 32 && Digit(m, i) == ByteBits(x)
    ensures DigitByte(m, i) == x
  {
    hide Digit, ByteBits;
    ByteBitsInverse(x);
    ByteBitsInverse(DigitByte(m, i));
  }

  lemma ShortDigits()
    ensures DigitBytes(Flip(365756062)) == [10, 28, 25, 31, 20, 31]
  {
    assert Flip(365756062) == 365756063;
    hide Flip;
    DigitIs(365756063, 0, 10);
    DigitIs(365756063, 1, 28);
    DigitIs(365756063, 2, 25);
    DigitIs(365756063, 3, 31);
    DigitIs(365756063, 4, 20);
    DigitIs(365756063, 5, 31);
  }

  lemma LongDigits()
    ensures DigitBytes(Flip(905969871)) == [27, 0, 0, 0, 6, 14]
  {
    assert Flip(905969871) == 905969870;
    hide Flip;
    DigitIs(905969870, 0, 27);
    DigitIs(905969870, 1, 0);
    DigitIs(905969870, 2, 0);
    DigitIs(905969870, 3, 0);
    DigitIs(905969870, 4, 6);
    DigitIs(905969870, 5, 14);
  }

  lemma ShortRemainder()
    ensures Remainder(Expanded("a") + [] + [0, 0, 0, 0, 0, 0]) == 365756062
  {
    hide Run;
    var v := Expanded("a") + [] + [0, 0, 0, 0, 0, 0];
    assert Bits(v) == [3, 0, 1] + [0, 0, 0, 0, 0, 0];
    RunConcat(1, [3, 0, 1], [0, 0, 0, 0, 0, 0]);
    Short1();
    Short2();
  }

  lemma ChecksumFrom(h: string, v: seq<byte>, m: bv32)
    requires Remainder(Expanded(h) + v + [0, 0, 0, 0, 0, 0]) == m
    ensures Checksum(h, v) == DigitBytes(Flip(m))
  {
    hide Run, Expanded, Flip, Bits, DigitBytes;
  }

  lemma EncodedIs(h: string, v: seq<byte>, cs: seq<byte>)
    requires Small(v) && Small(cs) && Checksum(h, v) == cs
    ensures Encoded(h, v) == h + "1" + Chars(v) + Chars(cs)
  {
    hide Checksum, CharOf;
    assert Chars(v + cs) == Chars(v) + Chars(cs);
  }

  lemma ShortChars()
    ensures Small([10, 28, 25, 31, 20, 31]) && Chars([10, 28, 25, 31, 20, 31]) == "2uel5l"
  {
    assert |CHARSET| == 32;
  }

  /** The shortest valid string of BIP 173. */
  lemma EmptyEncoding()
    ensures Encoded("a", []) == "a12uel5l"
  {
    hide Remainder, Expanded, Flip, DigitBytes, CharOf, Encoded, Checksum;
    ShortRemainder();
    ShortDigits();
    ShortChars();
    ChecksumFrom("a", [], 365756062);
    EncodedIs("a", [], [10, 28, 25, 31, 20, 31]);
    assert Chars([]) == [];
  }

  const FIRST: seq<byte> := [0, 1, 2, 3, 4, 5, 6, 7]
  const SECOND: seq<byte> := [8, 9, 10, 11, 12, 13, 14, 15]
  const THIRD: seq<byte> := [16, 17, 18, 19, 20, 21, 22, 23]
  const FOURTH: seq<byte> := [24, 25, 26, 27, 28, 29, 30, 31]

  /** All 32 symbols in order. */
  const ASCENDING: seq<byte> := FIRST + SECOND + THIRD + FOURTH

  lemma Continue(front: seq<byte>, part: seq<byte>, w: seq<bv32>)
    requires Bits(part) == w
    ensures Run(1, Bits(front + part)) == Run(Run(1, Bits(front)), w)
  {
    hide Run, Bits;
    BitsConcat(front, part);
    RunConcat(1, Bits(front), w);
  }

  lemma SymbolBits(x: byte, b: bv32)
    requires b as nat == x
    ensures ByteBits(x) == b
  {
  }

  lemma PrefixBits()
    ensures Run(1, Bits(Expanded("abcdef"))) == 1005063786
  {
    hide Run, ByteBits;
    SymbolBits(0, 0);
    SymbolBits(1, 1);
    SymbolBits(2, 2);
    SymbolBits(3, 3);
    SymbolBits(4, 4);
    SymbolBits(5, 5);
    SymbolBits(6, 6);
    assert Expanded("abcdef") == [3, 3, 3, 3, 3, 3, 0, 1, 2, 3, 4, 5, 6];
    assert Bits(Expanded("abcdef")) == [3, 3, 3, 3, 3, 3, 0] + [1, 2, 3, 4, 5, 6];
    RunConcat(1, [3, 3, 3, 3, 3, 3, 0], [1, 2, 3, 4, 5, 6]);
    Long1();
    Long2();
  }

  lemma FirstBits()
    ensures Bits(FIRST) == [0, 1, 2, 3, 4, 5, 6, 7]
  {
    hide ByteBits;
    SymbolBits(0, 0);
    SymbolBits(1, 1);
    SymbolBits(2, 2);
    SymbolBits(3, 3);
    SymbolBits(4, 4);
    SymbolBits(5, 5);
    SymbolBits(6, 6);
    SymbolBits(7, 7);
  }

  lemma SecondBits()
    ensures Bits(SECOND) == [8, 9, 10, 11, 12, 13, 14, 15]
  {
    hide ByteBits;
    SymbolBits(8, 8);
    SymbolBits(9, 9);
    SymbolBits(10, 10);
    SymbolBits(11, 11);
    SymbolBits(12, 12);
    SymbolBits(13, 13);
    SymbolBits(14, 14);
    SymbolBits(15, 15);
  }

  lemma ThirdBits()
    ensures Bits(THIRD) == [16, 17, 18, 19, 20, 21, 22, 23]
  {
    hide ByteBits;
    SymbolBits(16, 16);
    SymbolBits(17, 17);
    SymbolBits(18, 18);
    SymbolBits(19, 19);
    SymbolBits(20, 20);
    SymbolBits(21, 21);
    SymbolBits(22, 22);
    SymbolBits(23, 23);
  }

  lemma FourthBits()
    ensures Bits(FOURTH) == [24, 25, 26, 27, 28, 29, 30, 31]
  {
    hide ByteBits;
    SymbolBits(24, 24);
    SymbolBits(25, 25);
    SymbolBits(26, 26);
    SymbolBits(27, 27);
    SymbolBits(28, 28);
    SymbolBits(29, 29);
    SymbolBits(30, 30);
    SymbolBits(31, 31);
  }

  lemma FourParts(e: seq<byte>)
    ensures e + ASCENDING == e + FIRST + SECOND + THIRD + FOURTH
  {
    hide FIRST, SECOND, THIRD, FOURTH;
  }

  lemma LongRemainder()
    ensures Remainder(Expanded("abcdef") + ASCENDING + [0, 0, 0, 0, 0, 0]) == 905969871
  {
    hide Run, Expanded, Bits, FIRST, SECOND, THIRD, FOURTH, ASCENDING;
    PrefixBits();
    FirstBits();
    SecondBits();
    ThirdBits();
    FourthBits();
    ZeroBits();
    var e := Expanded("abcdef");
    Continue(e, FIRST, [0, 1, 2, 3, 4, 5, 6, 7]);
    Continue(e + FIRST, SECOND, [8, 9, 10, 11, 12, 13, 14, 15]);
    Continue(e + FIRST + SECOND, THIRD, [16, 17, 18, 19, 20, 21, 22, 23]);
    Continue(e + FIRST + SECOND + THIRD, FOURTH, [24, 25, 26, 27, 28, 29, 30, 31]);
    RemainderSplits(e + FIRST + SECOND + THIRD + FOURTH, [0, 0, 0, 0, 0, 0]);
    Long3();
    Long4();
    Long5();
    Long6();
    Long7();
    assert Zeros(6) == [0, 0, 0, 0, 0, 0];
    FourParts(e);
  }

  lemma LongChars()
    ensures Small(ASCENDING) && Chars(ASCENDING) == "qpzry9x8gf2tvdw0s3jn54khce6mua7l"
  {
    assert |CHARSET| == 32;
    forall i | 0 <= i < 32 ensures ASCENDING[i] == i {
    }
    forall i | 0 <= i < 32 ensures Chars(ASCENDING)[i] == CHARSET[i] {
    }
  }

  lemma LongChecksumChars()
    ensures Small([27, 0, 0, 0, 6, 14]) && Chars([27, 0, 0, 0, 6, 14]) == "mqqqxw"
  {
    assert |CHARSET| == 32;
  }

  /** The string of BIP 173 that holds every symbol once, in order. */
  lemma AscendingEncoding()
    ensures Encoded("abcdef", ASCENDING) == "abcdef" + "1" + "qpzry9x8gf2tvdw0s3jn54khce6mua7l" + "mqqqxw"
  {
    hide Remainder, Expanded, Flip, DigitBytes, CharOf, Encoded, Checksum, ASCENDING;
    LongRemainder();
    LongDigits();
    LongChars();
    LongChecksumChars();
    ChecksumFrom("abcdef", ASCENDING, 905969871);
    EncodedIs("abcdef", ASCENDING, [27, 0, 0, 0, 6, 14]);
  }
}
