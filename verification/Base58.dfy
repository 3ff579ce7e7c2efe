/**
 Base58 text for byte strings, and Base58Check with an arbitrary four-byte checksum function.
 */
module Base58 {
  import opened Basics
  import opened Digits

  type byte = x: nat | x < 256

  /** All alphanumeric characters except 0, I, O and l. */
  const ALPHABET: string := "123456789" + "ABCDEFGH" + "JKLMN" + "PQRSTUVWXYZ" + "abcdefghijk" + "mnopqrstuvwxyz"

  /** The first position of c in s, or -1. */
  function IndexOf(s: string, c: char): (i: int)
    ensures -1 <= i < |s| && (i >= 0 ==> s[i] == c)
    ensures i == -1 ==> forall k :: 0 <= k < |s| ==> s[k] != c
  {
    if s == "" then -1
    else if s[0] == c then 0
    else
      var i := IndexOf(s[1..], c);
      if i == -1 then -1 else i + 1
  }

  function DigitOf(c: char): int { IndexOf(ALPHABET, c) }

  function CharOf(d: nat): char
    requires d < 58
  {
    assert |ALPHABET| == 58;
    ALPHABET[d]
  }

  /** isspace in the C locale. */
  predicate IsSpace(c: char) { c == ' ' || 9 <= c as int <= 13 }

  // ---------------------------------------------------------------- the alphabet

  /** The character code of a digit. */
  function Code(d: nat): int
    requires d < 58
  {
    if d < 9 then 49 + d else if d < 17 then 56 + d else if d < 22 then 57 + d
    else if d < 33 then 58 + d else if d < 44 then 64 + d else 65 + d
  }

  lemma AlphabetPart(part: string, first: int, k: nat)
    requires k < |part| && ((part == "123456789" && first == 49) || (part == "ABCDEFGH" && first == 65) || (part == "JKLMN" && first == 74)
                            || (part == "PQRSTUVWXYZ" && first == 80) || (part == "abcdefghijk" && first == 97) || (part == "mnopqrstuvwxyz" && first == 109))
    ensures part[k] as int == first + k
  {
    match k { case 0 => case 1 => case 2 => case 3 => case 4 => case 5 => case 6 => case 7 => case 8 => case 9 => case 10 => case 11 => case 12 => case _ => }
  }

  lemma CodeOfChar(d: nat)
    requires d < 58
    ensures CharOf(d) as int == Code(d)
  {
    if d < 9 { AlphabetPart("123456789", 49, d); }
    else if d < 17 { AlphabetPart("ABCDEFGH", 65, d - 9); }
    else if d < 22 { AlphabetPart("JKLMN", 74, d - 17); }
    else if d < 33 { AlphabetPart("PQRSTUVWXYZ", 80, d - 22); }
    else if d < 44 { AlphabetPart("abcdefghijk", 97, d - 33); }
    else { AlphabetPart("mnopqrstuvwxyz", 109, d - 44); }
  }

  /** Every digit has its own character, which is not a space. */
  lemma DigitOfChar(d: nat)
    requires d < 58
    ensures DigitOf(CharOf(d)) == d && !IsSpace(CharOf(d))
  {
    hide IndexOf;
    assert |ALPHABET| == 58;
    var i := DigitOf(CharOf(d));
    IndexFound(ALPHABET, d);
    CodeOfChar(d);
    CodeOfChar(i);
  }

  lemma IndexFound(s: string, k: nat)
    requires k < |s|
    ensures 0 <= IndexOf(s, s[k]) < |s| && s[IndexOf(s, s[k])] == s[k]
  {
    hide IndexOf;
  }

  lemma CharOfDigit(c: char)
    requires DigitOf(c) >= 0
    ensures DigitOf(c) < 58 && CharOf(DigitOf(c)) == c && !IsSpace(c)
  {
    assert |ALPHABET| == 58;
    CodeOfChar(DigitOf(c));
  }

  lemma OneIsZero()
    ensures CharOf(0) == '1' && DigitOf('1') == 0
  {
    CodeOfChar(0);
    DigitOfChar(0);
  }

  // ---------------------------------------------------------------- change of base with leading zeros

  function Leading(d: seq<nat>): (k: nat)
    ensures k <= |d| && (forall i :: 0 <= i < k ==> d[i] == 0) && (k < |d| ==> d[k] != 0)
  {
    if d != [] && d[0] == 0 then 1 + Leading(d[1..]) else 0
  }

  function Zeros(k: nat): (d: seq<nat>)
    ensures |d| == k && forall i :: 0 <= i < k ==> d[i] == 0
  {
    seq(k, _ => 0)
  }

  /** As many leading zeros as d has, then its value in the other base. */
  function Convert(from: nat, to: nat, d: seq<nat>): (r: seq<nat>)
    requires to > 1
    ensures InBase(to, r)
  {
    Zeros(Leading(d)) + ToBase(to, Value(from, d))
  }

  lemma LeadingIs(d: seq<nat>, k: nat)
    requires k <= |d| && (forall i :: 0 <= i < k ==> d[i] == 0) && (k < |d| ==> d[k] != 0)
    ensures Leading(d) == k
  {
  }

  /** Changing the base and back is the identity, leading zeros included. */
  lemma ConvertBack(from: nat, to: nat, d: seq<nat>)
    requires from > 1 && to > 1 && InBase(from, d)
    ensures Convert(to, from, Convert(from, to, d)) == d
  {
    hide Value, ToBase, Leading;
    var k := Leading(d);
    var t := ToBase(to, Value(from, d));
    var r := Zeros(k) + t;
    ValueOfToBase(to, Value(from, d));
    LeadingIs(r, k);
    ValueSkipsZeros(to, r, k);
    assert r[k..] == t;
    ValueSkipsZeros(from, d, k);
    ToBaseOfValue(from, d[k..]);
    assert d == Zeros(k) + d[k..];
  }

  // ---------------------------------------------------------------- specification

  ghost predicate AllDigits(s: string) { forall i :: 0 <= i < |s| ==> DigitOf(s[i]) >= 0 }

  function DigitsOf(s: string): (d: seq<nat>)
    requires AllDigits(s)
    ensures |d| == |s| && InBase(58, d)
  {
    assert forall i :: 0 <= i < |s| ==> DigitOf(s[i]) < 58 by {
      forall i | 0 <= i < |s| ensures DigitOf(s[i]) < 58 { CharOfDigit(s[i]); }
    }
    seq(|s|, i requires 0 <= i < |s| => DigitOf(s[i]))
  }

  function Chars(d: seq<nat>): (s: string)
    requires InBase(58, d)
    ensures |s| == |d|
  {
    seq(|d|, i requires 0 <= i < |d| => CharOf(d[i]))
  }

  ghost function Encoded(v: seq<byte>): string { Chars(Convert(256, 58, v)) }

  function TrimLeft(s: string): (t: string)
    ensures |t| <= |s| && s[|s| - |t|..] == t && (t != "" ==> !IsSpace(t[0]))
  {
    if s != "" && IsSpace(s[0]) then TrimLeft(s[1..]) else s
  }

  function TrimRight(s: string): (t: string)
    ensures t <= s && (t != "" ==> !IsSpace(t[|t| - 1]))
    ensures forall i :: |t| <= i < |s| ==> IsSpace(s[i])
  {
    if s != "" && IsSpace(s[|s| - 1]) then TrimRight(s[..|s| - 1]) else s
  }

  function Trim(s: string): string { TrimRight(TrimLeft(s)) }

  /** A C string ends at the first NUL. */
  function CText(s: string): (t: string)
    ensures t <= s && forall i :: 0 <= i < |t| ==> t[i] != '\0'
  {
    if s == "" || s[0] == '\0' then "" else [s[0]] + CText(s[1..])
  }

  ghost function Decoded(s: string): Option<seq<byte>> { DecodedWord(Trim(CText(s))) }

  ghost function DecodedWord(t: string): Option<seq<byte>> {
    if AllDigits(t) then Some(Convert(58, 256, DigitsOf(t))) else None
  }

  // ---------------------------------------------------------------- round trips

  lemma CharsOfDigits(s: string)
    requires AllDigits(s)
    ensures Chars(DigitsOf(s)) == s
  {
    hide DigitOf, CharOf;
    forall i | 0 <= i < |s| ensures CharOf(DigitsOf(s)[i]) == s[i] { CharOfDigit(s[i]); }
  }

  lemma DigitsOfChars(d: seq<nat>)
    requires InBase(58, d)
    ensures AllDigits(Chars(d)) && DigitsOf(Chars(d)) == d
    ensures forall i :: 0 <= i < |d| ==> !IsSpace(Chars(d)[i]) && Chars(d)[i] != '\0'
  {
    hide DigitOf, CharOf, IsSpace;
    forall i | 0 <= i < |d|
      ensures DigitOf(Chars(d)[i]) == d[i] && !IsSpace(Chars(d)[i]) && Chars(d)[i] != '\0'
    {
      DigitOfChar(d[i]);
      NotNul(d[i]);
    }
  }

  lemma NotNul(d: nat)
    requires d < 58
    ensures CharOf(d) != '\0'
  {
    CodeOfChar(d);
  }

  /** A string decodes to v exactly when, up to its first NUL and but for surrounding spaces, it is the encoding of v. */
  lemma DecodesIff(s: string, v: seq<byte>)
    ensures Decoded(s) == Some(v) <==> Trim(CText(s)) == Encoded(v)
  {
    hide DigitOf, CharOf, IsSpace, Convert, Trim, CText;
    var t := Trim(CText(s));
    ConvertBack(256, 58, v);
    DigitsOfChars(Convert(256, 58, v));
    if AllDigits(t) {
      CharsOfDigits(t);
      ConvertBack(58, 256, DigitsOf(t));
    }
  }

  lemma {:induction false} TextWithoutNul(s: string)
    requires forall i :: 0 <= i < |s| ==> s[i] != '\0'
    ensures CText(s) == s
  {
    if s != "" {
      TextWithoutNul(s[1..]);
      assert s == [s[0]] + s[1..];
    }
  }

  lemma NothingToTrim(s: string)
    requires forall i :: 0 <= i < |s| ==> !IsSpace(s[i])
    ensures Trim(s) == s
  {
  }

  /** Decoding undoes encoding on all bytes; encoding undoes decoding on all strings without spaces or NULs. */
  lemma RoundTrip(v: seq<byte>)
    ensures Decoded(Encoded(v)) == Some(v)
  {
    hide IsSpace, Convert, Trim, CText, Decoded;
    DigitsOfChars(Convert(256, 58, v));
    TextWithoutNul(Encoded(v));
    NothingToTrim(Encoded(v));
    DecodesIff(Encoded(v), v);
  }

  lemma RoundTripText(s: string)
    requires forall i :: 0 <= i < |s| ==> !IsSpace(s[i]) && s[i] != '\0'
    ensures Decoded(s).Some? <==> AllDigits(s)
    ensures Decoded(s).Some? ==> Encoded(Decoded(s).value) == s
  {
    hide IsSpace, Convert, Trim, CText, DigitOf;
    TextWithoutNul(s);
    NothingToTrim(s);
    if Decoded(s).Some? { DecodesIff(s, Decoded(s).value); }
  }

  lemma KnownValue()
    ensures Value(256, [98, 98, 98]) == 6447714 && Value(58, [33, 2, 39, 28]) == 6447714
  {
    hide Value;
    ValueOne(256, 98);
    ValueSnoc(256, [98], 98);
    ValueSnoc(256, [98, 98], 98);
    ValueOne(58, 33);
    ValueSnoc(58, [33], 2);
    ValueSnoc(58, [33, 2], 39);
    ValueSnoc(58, [33, 2, 39], 28);
    assert [98] + [98] == [98, 98] && [98, 98] + [98] == [98, 98, 98];
    assert [33] + [2] == [33, 2] && [33, 2] + [39] == [33, 2, 39] && [33, 2, 39] + [28] == [33, 2, 39, 28];
  }

  lemma KnownChars()
    ensures CharOf(0) == '1' && CharOf(33) == 'a' && CharOf(2) == '3' && CharOf(39) == 'g' && CharOf(28) == 'V'
  {
    hide CharOf;
    CodeOfChar(0);
    CodeOfChar(33);
    CodeOfChar(2);
    CodeOfChar(39);
    CodeOfChar(28);
  }

  /** Most significant first, and a zero byte becomes a leading '1'. */
  lemma KnownString()
    ensures Encoded([0, 98, 98, 98]) == "1a3gV"
  {
    hide CharOf, ToBase, Value;
    var v, d := [0, 98, 98, 98], [33, 2, 39, 28];
    KnownValue();
    KnownChars();
    LeadingIs(v, 1);
    ValueSkipsZeros(256, v, 1);
    assert v[1..] == [98, 98, 98];
    ToBaseOfValue(58, d);
    assert Convert(256, 58, v) == [0, 33, 2, 39, 28];
  }

  // ---------------------------------------------------------------- with a checksum

  /** The first four bytes of the hash. */
  type Hash4 = seq<byte> -> (byte, byte, byte, byte)

  function Tail(h: Hash4, v: seq<byte>): (r: seq<byte>)
    ensures |r| == 4
  {
    [h(v).0, h(v).1, h(v).2, h(v).3]
  }

  ghost function EncodedCheck(h: Hash4, v: seq<byte>): string { Encoded(v + Tail(h, v)) }

  ghost function DecodedCheck(h: Hash4, s: string): Option<seq<byte>> {
    match Decoded(s)
    case None => None
    case Some(w) =>
      if |w| < 4 || Tail(h, w[..|w| - 4]) != w[|w| - 4..] then None else Some(w[..|w| - 4])
  }

  /** With a checksum too, the accepted strings are exactly the encodings. */
  lemma CheckDecodesIff(h: Hash4, s: string, v: seq<byte>)
    ensures DecodedCheck(h, s) == Some(v) <==> Trim(CText(s)) == EncodedCheck(h, v)
  {
    hide Decoded, Encoded, Tail, Trim, CText;
    var w := v + Tail(h, v);
    DecodesIff(s, w);
    assert w[..|w| - 4] == v && w[|w| - 4..] == Tail(h, v);
    if DecodedCheck(h, s) == Some(v) {
      var x := Decoded(s).value;
      assert x == x[..|x| - 4] + x[|x| - 4..];
    }
  }

  lemma CheckRoundTrip(h: Hash4, v: seq<byte>)
    ensures DecodedCheck(h, EncodedCheck(h, v)) == Some(v)
  {
    hide Decoded, Encoded, Tail;
    var w := v + Tail(h, v);
    RoundTrip(w);
    assert w[..|w| - 4] == v && w[|w| - 4..] == Tail(h, v);
  }

  // ---------------------------------------------------------------- the methods

  lemma EncodeRoom(v: seq<byte>, j: nat, size: nat)
    requires j < |v| && size == |v| * 138 / 100 + 1
    ensures Value(256, v[..j + 1]) == 256 * Value(256, v[..j]) + v[j] < Pow(58, size)
  {
    hide Value, Pow;
    assert v[..j + 1] == v[..j] + [v[j]];
    ValueSnoc(256, v[..j], v[j]);
    ValueBound(256, v[..j + 1]);
    PowMonoExp(256, j + 1, |v|);
    EncodeBuffer(|v|);
  }

  lemma DecodeRoom(d: seq<nat>, x: nat, n: nat, size: nat)
    requires InBase(58, d) && x < 58 && |d| < n && size == n * 733 / 1000 + 1
    ensures Value(58, d + [x]) == 58 * Value(58, d) + x < Pow(256, size)
  {
    hide Value, Pow;
    ValueSnoc(58, d, x);
    ValueBound(58, d + [x]);
    PowMonoExp(58, |d| + 1, n);
    DecodeBuffer(n);
  }

  /** Skips the leading zeros of a finished buffer. */
  method Significant(buf: array<nat>, to: nat, length: nat) returns (digits: seq<nat>)
    requires to > 1 && length <= buf.Length && InBase(to, buf[..])
    requires forall j :: 0 <= j < buf.Length - length ==> buf[j] == 0
    ensures digits == ToBase(to, Value(to, buf[..])) && InBase(to, digits)
  {
    hide Value, ToBase;
    var it := buf.Length - length;
    while it != buf.Length && buf[it] == 0
      invariant it <= buf.Length && forall j :: 0 <= j < it ==> buf[j] == 0
    {
      it := it + 1;
    }
    digits := buf[it..];
    ValueSkipsZeros(to, buf[..], it);
    assert buf[..][it..] == digits;
    ToBaseOfValue(to, digits);
  }

  lemma BytesInBase(d: seq<nat>)
    requires InBase(256, d)
    ensures forall i :: 0 <= i < |d| ==> d[i] < 256
  {
  }

  lemma ZeroBuffer(b: nat, d: seq<nat>)
    requires b > 0 && forall i :: 0 <= i < |d| ==> d[i] == 0
    ensures InBase(b, d) && Value(b, d) == 0
  {
    ValueZeros(b, d);
  }

  method EncodeBase58(v: seq<byte>) returns (s: string)
    ensures s == Encoded(v)
  {
    hide Value, Pow, ToBase, CharOf, Leading, InBase;
    var zeroes := 0;
    while zeroes != |v| && v[zeroes] == 0
      invariant zeroes <= |v| && forall i :: 0 <= i < zeroes ==> v[i] == 0
    {
      zeroes := zeroes + 1;
    }
    LeadingIs(v, zeroes);
    var rest := v[zeroes..];
    var digits := ChangeToBase58(rest);
    ValueSkipsZeros(256, v, zeroes);
    s := seq(zeroes, _ => '1');
    var text := CharsFor(digits);
    s := s + text;
    OneIsZero();
    CharsAfterZeros(zeroes, digits);
  }

  lemma CharsAfterZeros(k: nat, d: seq<nat>)
    requires InBase(58, d) && CharOf(0) == '1'
    ensures InBase(58, Zeros(k) + d) && Chars(Zeros(k) + d) == seq(k, _ => '1') + Chars(d)
  {
    hide CharOf;
  }

  method ChangeToBase58(rest: seq<byte>) returns (digits: seq<nat>)
    ensures InBase(58, digits) && digits == ToBase(58, Value(256, rest))
  {
    hide Value, Pow, ToBase, InBase;
    var size := |rest| * 138 / 100 + 1;
    var b58 := new nat[size](_ => 0);
    var length: nat := 0;
    ZeroBuffer(58, b58[..]);
    ValueNone(256);
    for j := 0 to |rest|
      invariant length <= size && InBase(58, b58[..]) && Value(58, b58[..]) == Value(256, rest[..j])
      invariant forall i :: 0 <= i < size - length ==> b58[i] == 0
    {
      EncodeRoom(rest, j, size);
      length := MultiplyAdd(b58, 256, 58, rest[j], length);
    }
    assert rest[..|rest|] == rest;
    digits := Significant(b58, 58, length);
  }

  method CharsFor(digits: seq<nat>) returns (s: string)
    requires InBase(58, digits)
    ensures s == Chars(digits)
  {
    hide CharOf;
    s := "";
    for i := 0 to |digits|
      invariant |s| == i && forall k :: 0 <= k < i ==> s[k] == CharOf(digits[k])
    {
      s := s + [CharOf(digits[i])];
    }
  }

  /** None stands for the answer false, which leaves the caller's vector alone. */
  method DecodeBase58(s: string) returns (r: Option<seq<byte>>)
    ensures r == Decoded(s)
  {
    hide *;
    DecodedIs(s);
    var text := CText(s);
    var start := SkipSpaces(text);
    var body := text[start..];
    var zeroes := CountOnes(body);
    var rest := body[zeroes..];
    var word, digits := DecodeWord(rest);
    if word == -1 {
      BadWord(body, zeroes, rest);
      return None;
    }
    var q := EndOfSpaces(rest, word);
    if q < |rest| {
      InnerSpace(body, zeroes, rest, word, q);
      return None;
    }
    GoodWord(body, zeroes, rest, word);
    r := Some(Zeros(zeroes) + digits);
  }

  lemma DecodedIs(s: string)
    ensures Decoded(s) == DecodedWord(TrimRight(TrimLeft(CText(s))))
  {
  }

  method SkipSpaces(text: string) returns (p: nat)
    ensures p <= |text| && text[p..] == TrimLeft(text)
  {
    hide IsSpace;
    p := 0;
    while p < |text| && IsSpace(text[p])
      invariant p <= |text| && TrimLeft(text[p..]) == TrimLeft(text)
    {
      assert text[p..][1..] == text[p + 1..];
      p := p + 1;
    }
  }

  method EndOfSpaces(rest: string, from: nat) returns (q: nat)
    requires from <= |rest|
    ensures from <= q <= |rest| && (forall i :: from <= i < q ==> IsSpace(rest[i])) && (q < |rest| ==> !IsSpace(rest[q]))
  {
    hide IsSpace;
    q := from;
    while q < |rest| && IsSpace(rest[q])
      invariant from <= q <= |rest| && forall i :: from <= i < q ==> IsSpace(rest[i])
    {
      q := q + 1;
    }
  }

  method CountOnes(body: string) returns (zeroes: nat)
    ensures zeroes <= |body| && (forall i :: 0 <= i < zeroes ==> body[i] == '1') && (zeroes < |body| ==> body[zeroes] != '1')
  {
    zeroes := 0;
    while zeroes < |body| && body[zeroes] == '1'
      invariant zeroes <= |body| && forall i :: 0 <= i < zeroes ==> body[i] == '1'
    {
      zeroes := zeroes + 1;
    }
  }

  /** Decodes up to the first space; -1 stands for a character outside the alphabet. */
  method DecodeWord(rest: string) returns (word: int, digits: seq<byte>)
    ensures -1 <= word <= |rest|
    ensures word >= 0 ==> (word < |rest| ==> IsSpace(rest[word])) && AllDigits(rest[..word])
    ensures word >= 0 ==> digits == ToBase(256, Value(58, DigitsOf(rest[..word])))
    ensures word == -1 ==> exists k :: 0 <= k < |rest| && !IsSpace(rest[k]) && DigitOf(rest[k]) < 0
  {
    hide Value, Pow, ToBase, DigitOf, InBase, IsSpace;
    var size := |rest| * 733 / 1000 + 1;
    var b256 := new nat[size](_ => 0);
    var length: nat := 0;
    var j := 0;
    ZeroBuffer(256, b256[..]);
    ValueNone(58);
    while j < |rest| && !IsSpace(rest[j])
      invariant j <= |rest| && AllDigits(rest[..j]) && length <= size && InBase(256, b256[..])
      invariant Value(256, b256[..]) == Value(58, DigitsOf(rest[..j]))
      invariant forall i :: 0 <= i < size - length ==> b256[i] == 0
    {
      var ch := DigitOf(rest[j]);
      if ch < 0 { return -1, []; }
      CharOfDigit(rest[j]);
      assert rest[..j + 1] == rest[..j] + [rest[j]];
      assert DigitsOf(rest[..j + 1]) == DigitsOf(rest[..j]) + [ch];
      DecodeRoom(DigitsOf(rest[..j]), ch, |rest|, size);
      length := MultiplyAdd(b256, 58, 256, ch, length);
      j := j + 1;
    }
    word := j;
    var d := Significant(b256, 256, length);
    BytesInBase(d);
    digits := d;
  }

  lemma TrimRightIs(s: string, n: nat)
    requires n <= |s| && (n > 0 ==> !IsSpace(s[n - 1])) && forall i :: n <= i < |s| ==> IsSpace(s[i])
    ensures TrimRight(s) == s[..n]
  {
    hide IsSpace;
    var t := TrimRight(s);
    assert t != "" ==> t[|t| - 1] == s[|t| - 1];
  }

  lemma GoodWord(body: string, zeroes: nat, rest: string, word: nat)
    requires zeroes <= |body| && rest == body[zeroes..] && word <= |rest| && AllDigits(rest[..word])
    requires (forall i :: 0 <= i < zeroes ==> body[i] == '1') && (rest != "" ==> rest[0] != '1')
    requires forall i :: word <= i < |rest| ==> IsSpace(rest[i])
    ensures DecodedWord(TrimRight(body)) == Some(Zeros(zeroes) + ToBase(256, Value(58, DigitsOf(rest[..word]))))
  {
    hide DigitOf, IsSpace, Value, ToBase, Leading, CharOf;
    var n := zeroes + word;
    OneIsZero();
    forall i | 0 <= i < n ensures DigitOf(body[i]) >= 0 && !IsSpace(body[i]) && (DigitOf(body[i]) == 0 <==> body[i] == '1') {
      if i >= zeroes { assert body[i] == rest[..word][i - zeroes]; }
      CharOfDigit(body[i]);
    }
    TrimRightIs(body, n);
    var d := DigitsOf(body[..n]);
    assert d[zeroes..] == DigitsOf(rest[..word]);
    LeadingIs(d, zeroes);
    ValueSkipsZeros(58, d, zeroes);
  }

  lemma BadWord(body: string, zeroes: nat, rest: string)
    requires zeroes <= |body| && rest == body[zeroes..] && exists k :: 0 <= k < |rest| && !IsSpace(rest[k]) && DigitOf(rest[k]) < 0
    ensures DecodedWord(TrimRight(body)) == None
  {
    hide DigitOf, IsSpace;
    var k :| 0 <= k < |rest| && !IsSpace(rest[k]) && DigitOf(rest[k]) < 0;
    var t := TrimRight(body);
    assert body[zeroes + k] == rest[k];
    assert t[zeroes + k] == body[zeroes + k];
  }

  lemma InnerSpace(body: string, zeroes: nat, rest: string, i: nat, j: nat)
    requires zeroes <= |body| && rest == body[zeroes..] && i <= j < |rest| && IsSpace(rest[i]) && !IsSpace(rest[j])
    ensures DecodedWord(TrimRight(body)) == None
  {
    hide DigitOf, IsSpace;
    var t := TrimRight(body);
    assert body[zeroes + j] == rest[j] && t[zeroes + i] == body[zeroes + i] == rest[i];
    if AllDigits(t) { CharOfDigit(t[zeroes + i]); }
  }

  method EncodeBase58Check(h: Hash4, v: seq<byte>) returns (s: string)
    ensures s == EncodedCheck(h, v)
  {
    hide Encoded, Tail;
    s := EncodeBase58(v + Tail(h, v));
  }

  method DecodeBase58Check(h: Hash4, s: string) returns (r: Option<seq<byte>>)
    ensures r == DecodedCheck(h, s)
  {
    hide Decoded, Tail;
    r := DecodeBase58(s);
    if r.None? || |r.value| < 4 { return None; }
    var n := |r.value| - 4;
    if Tail(h, r.value[..n]) != r.value[n..] { return None; }
    r := Some(r.value[..n]);
  }
}
