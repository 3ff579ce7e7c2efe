/**
 Big-endian digit sequences over an arbitrary base, and when one base's buffer is long enough for
 another base's number.
 */
module Digits {
  import opened Basics

  function Pow(b: nat, n: nat): nat {
    if n == 0 then 1 else b * Pow(b, n - 1)
  }

  /** The number the digits stand for. */
  function Value(b: nat, d: seq<nat>): nat {
    if d == [] then 0 else Value(b, d[..|d| - 1]) * b + d[|d| - 1]
  }

  ghost predicate InBase(b: nat, d: seq<nat>) { forall i :: 0 <= i < |d| ==> d[i] < b }

  predicate NoLeadingZero(d: seq<nat>) { d == [] || d[0] != 0 }

  /** The digits of n, without leading zeros. */
  function ToBase(b: nat, n: nat): (d: seq<nat>)
    requires b > 1
    ensures InBase(b, d)
  {
    if n == 0 then [] else QuotRem(n, b); ToBase(b, Quot(n, b)) + [Rem(n, b)]
  }

  function Quot(n: nat, b: nat): nat
    requires b > 0
  { n / b }

  function Rem(n: nat, b: nat): nat
    requires b > 0
  { n % b }

  // ---------------------------------------------------------------- arithmetic

  lemma QuotRem(n: nat, b: nat)
    requires b > 0
    ensures n == Quot(n, b) * b + Rem(n, b) && Rem(n, b) < b
    ensures n > 0 && b > 1 ==> Quot(n, b) < n
  {
    if b > 1 { MulMono(b, 2, Quot(n, b)); }
  }

  lemma MulBoth(a: nat, b: nat, c: nat, d: nat)
    requires a <= b && c <= d
    ensures a * c <= b * d
  {
    MulMono(b, a, c);
    MulMono(d, c, b);
  }

  lemma DivIs(b: nat, q: nat, r: nat)
    requires r < b
    ensures Quot(q * b + r, b) == q && Rem(q * b + r, b) == r
  {
    hide Quot, Rem;
    var n := q * b + r;
    QuotRem(n, b);
    var x := Quot(n, b);
    if x > q { MulMono(x, q + 1, b); }
    if x < q { MulMono(q, x + 1, b); }
  }

  lemma {:induction false} PowPositive(b: nat, n: nat)
    requires b > 0
    ensures Pow(b, n) > 0
  {
    if n > 0 { PowPositive(b, n - 1); MulMono(b, 1, Pow(b, n - 1)); }
  }

  lemma {:induction false} PowAdd(b: nat, m: nat, n: nat)
    ensures Pow(b, m + n) == Pow(b, m) * Pow(b, n)
  {
    if m > 0 {
      PowAdd(b, m - 1, n);
      assert b * (Pow(b, m - 1) * Pow(b, n)) == (b * Pow(b, m - 1)) * Pow(b, n);
    }
  }

  lemma {:induction false} PowMul(b: nat, m: nat, n: nat)
    ensures Pow(Pow(b, m), n) == Pow(b, m * n)
  {
    if n == 0 {
      assert m * n == 0;
    } else {
      PowMul(b, m, n - 1);
      PowAdd(b, m, m * (n - 1));
      assert m + m * (n - 1) == m * n;
    }
  }

  lemma {:induction false} PowMonoBase(a: nat, b: nat, n: nat)
    requires a <= b
    ensures Pow(a, n) <= Pow(b, n)
  {
    if n > 0 {
      PowMonoBase(a, b, n - 1);
      MulBoth(a, b, Pow(a, n - 1), Pow(b, n - 1));
    }
  }

  lemma PowStrictBase(a: nat, b: nat, n: nat)
    requires a < b && n > 0
    ensures Pow(a, n) < Pow(b, n)
  {
    hide Pow;
    PowMonoBase(a, b, n - 1);
    PowPositive(b, n - 1);
    PowNext(a, n - 1);
    PowNext(b, n - 1);
    StrictProduct(a, b, Pow(a, n - 1), Pow(b, n - 1));
  }

  lemma StrictProduct(a: nat, b: nat, x: nat, y: nat)
    requires a < b && x <= y && y > 0
    ensures a * x < b * y
  {
    MulMono(y, x, a);
    MulMono(b, a + 1, y);
  }

  lemma PowNone(b: nat)
    ensures Pow(b, 0) == 1
  {
  }

  lemma PowNext(b: nat, n: nat)
    ensures Pow(b, n + 1) == b * Pow(b, n)
  {
  }

  lemma {:induction false} PowMonoExp(b: nat, m: nat, n: nat)
    requires b > 0 && m <= n
    ensures Pow(b, m) <= Pow(b, n)
  {
    if m < n {
      PowMonoExp(b, m, n - 1);
      PowPositive(b, n - 1);
      MulMono(b, 1, Pow(b, n - 1));
    }
  }

  /** If from^p <= to^q, then n digits in base from fit in s digits in base to once p*s >= q*n. */
  lemma BufferSuffices(from: nat, to: nat, p: nat, q: nat, n: nat, s: nat)
    requires to > 0 && p > 0 && Pow(from, p) <= Pow(to, q) && p * s >= q * n
    ensures Pow(from, n) <= Pow(to, s)
  {
    hide Pow;
    PowSwap(from, n, p);
    PowMonoBase(Pow(from, p), Pow(to, q), n);
    ToSide(to, q * n, p * s, p, q, n, s);
    if Pow(to, s) < Pow(from, n) { PowStrictBase(Pow(to, s), Pow(from, n), p); }
  }

  lemma ToSide(to: nat, qn: nat, ps: nat, p: nat, q: nat, n: nat, s: nat)
    requires to > 0 && qn == q * n && ps == p * s && qn <= ps
    ensures Pow(Pow(to, q), n) <= Pow(Pow(to, s), p)
  {
    hide Pow;
    PowMul(to, q, n);
    PowMonoExp(to, qn, ps);
    PowMul(to, p, s);
    PowSwap(to, s, p);
  }

  lemma PowSwap(b: nat, m: nat, n: nat)
    ensures Pow(Pow(b, m), n) == Pow(Pow(b, n), m)
  {
    hide Pow;
    PowMul(b, m, n);
    PowMul(b, n, m);
    assert m * n == n * m;
  }

  lemma BytesInBase58()
    ensures Pow(256, 8) <= Pow(58, 11)
  {
  }

  lemma Base58InBytes()
    ensures Pow(58, 71) <= Pow(256, 52)
  {
    hide Pow;
    Literals58();
    Literals256();
    PowAdd(58, 32, 32);
    PowAdd(58, 64, 7);
    PowAdd(256, 26, 26);
  }

  lemma Literals58()
    ensures Pow(58, 7) == 2207984167552 && Pow(58, 32) == 268965015114358137726910587140455987105619365599731777536
  {
    assert Pow(58, 8) == 128063081718016;
    PowAdd(58, 8, 8);
    PowAdd(58, 16, 16);
  }

  lemma Literals256()
    ensures Pow(256, 26) == 411376139330301510538742295639337626245683966408394965837152256
  {
    assert Pow(256, 13) == 20282409603651670423947251286016;
    PowAdd(256, 13, 13);
  }

  /** The encoder's buffer of 138/100 digits per byte is long enough. */
  lemma EncodeBuffer(n: nat)
    ensures Pow(256, n) <= Pow(58, n * 138 / 100 + 1)
  {
    hide Pow;
    BytesInBase58();
    BufferSuffices(256, 58, 8, 11, n, n * 138 / 100 + 1);
  }

  /** The decoder's buffer of 733/1000 bytes per digit is long enough. */
  lemma DecodeBuffer(n: nat)
    ensures Pow(58, n) <= Pow(256, n * 733 / 1000 + 1)
  {
    hide Pow;
    Base58InBytes();
    BufferSuffices(58, 256, 71, 52, n, n * 733 / 1000 + 1);
  }

  // ---------------------------------------------------------------- values

  lemma {:induction false} ValueConcat(b: nat, s: seq<nat>, t: seq<nat>)
    ensures Value(b, s + t) == Value(b, s) * Pow(b, |t|) + Value(b, t)
  {
    if t == [] {
      assert s + t == s;
    } else {
      var n := |t| - 1;
      assert (s + t)[..|s| + n] == s + t[..n];
      ValueConcat(b, s, t[..n]);
      ConcatAlgebra(b, Value(b, s), Pow(b, n), Value(b, t[..n]), t[n]);
    }
  }

  lemma ConcatAlgebra(b: nat, x: nat, p: nat, y: nat, z: nat)
    ensures (x * p + y) * b + z == x * (b * p) + (y * b + z)
  {
  }

  lemma {:induction false} ValueZeros(b: nat, d: seq<nat>)
    requires forall i :: 0 <= i < |d| ==> d[i] == 0
    ensures Value(b, d) == 0
  {
    if d != [] { ValueZeros(b, d[..|d| - 1]); }
  }

  lemma {:induction false} ValueBound(b: nat, d: seq<nat>)
    requires InBase(b, d)
    ensures Value(b, d) < Pow(b, |d|)
  {
    hide Pow;
    if d == [] {
      PowNone(b);
    } else {
      var n := |d| - 1;
      ValueBound(b, d[..n]);
      PowNext(b, n);
      MulMono(Pow(b, n), Value(b, d[..n]) + 1, b);
    }
  }

  lemma ValueSkipsZeros(b: nat, d: seq<nat>, k: nat)
    requires k <= |d| && forall i :: 0 <= i < k ==> d[i] == 0
    ensures Value(b, d) == Value(b, d[k..])
  {
    hide Value, Pow;
    assert d == d[..k] + d[k..];
    ValueConcat(b, d[..k], d[k..]);
    ValueZeros(b, d[..k]);
  }

  /** Digits of a number come back from its value. */
  lemma {:induction false} ToBaseOfValue(b: nat, d: seq<nat>)
    requires b > 1 && InBase(b, d) && NoLeadingZero(d)
    ensures ToBase(b, Value(b, d)) == d
  {
    hide Quot, Rem;
    if d != [] {
      var n := |d| - 1;
      ToBaseOfValue(b, d[..n]);
      DivIs(b, Value(b, d[..n]), d[n]);
      NonzeroValue(b, d);
      assert d == d[..n] + [d[n]];
    }
  }

  lemma {:induction false} NonzeroValue(b: nat, d: seq<nat>)
    requires b > 1 && d != [] && d[0] != 0
    ensures Value(b, d) > 0
  {
    if |d| > 1 {
      NonzeroValue(b, d[..|d| - 1]);
      MulMono(Value(b, d[..|d| - 1]), 1, b);
    }
  }

  lemma {:induction false} ValueOfToBase(b: nat, n: nat)
    requires b > 1
    ensures Value(b, ToBase(b, n)) == n && NoLeadingZero(ToBase(b, n))
  {
    hide Value, Quot, Rem;
    if n == 0 {
      ValueNone(b);
    } else {
      QuotRem(n, b);
      ValueOfToBase(b, Quot(n, b));
      var d := ToBase(b, Quot(n, b));
      ValueSnoc(b, d, Rem(n, b));
      if d == [] { ValueNone(b); }
    }
  }

  lemma ValueNone(b: nat)
    ensures Value(b, []) == 0
  {
  }

  lemma ValueSnoc(b: nat, d: seq<nat>, x: nat)
    ensures Value(b, d + [x]) == Value(b, d) * b + x
  {
    assert (d + [x])[..|d|] == d;
  }

  // ---------------------------------------------------------------- multiply and add, in place

  /** The low i digits, the carry, and the digits not yet reached, against the number before. */
  ghost predicate Carrying(from: nat, to: nat, was: seq<nat>, now: seq<nat>, i: nat, carry: nat, ch: nat) {
    && i <= |was| == |now| && InBase(to, now) && carry < from
    && now[..|was| - i] == was[..|was| - i]
    && Value(to, now[|was| - i..]) + carry * Pow(to, i) == from * Value(to, was[|was| - i..]) + ch
  }

  lemma CarryStep(from: nat, to: nat, was: seq<nat>, now: seq<nat>, i: nat, carry: nat, ch: nat)
    requires from > 0 && to > 0 && InBase(to, was) && i < |was| && Carrying(from, to, was, now, i, carry, ch)
    ensures var k := |was| - 1 - i; var c := MulAdd(carry, from, now[k]);
            Carrying(from, to, was, now[k := Rem(c, to)], i + 1, Quot(c, to), ch)
  {
    hide Value, Pow, InBase, Quot, Rem;
    var k := |was| - 1 - i;
    assert now[k] == now[..k + 1][k] == was[..k + 1][k] == was[k];
    var c := MulAdd(carry, from, now[k]);
    var q, r := Quot(c, to), Rem(c, to);
    InBaseAt(to, was, k);
    SmallCarry(from, to, carry, was[k]);
    QuotRem(c, to);
    var next := now[k := r];
    assert next[k..] == [r] + now[k + 1..] && was[k..] == [was[k]] + was[k + 1..];
    ValueConcat(to, [r], now[k + 1..]);
    ValueConcat(to, [was[k]], was[k + 1..]);
    ValueOne(to, r);
    ValueOne(to, was[k]);
    PowNext(to, i);
    CarryAlgebra(from, to, carry, was[k], q, r, Pow(to, i), Value(to, now[k + 1..]), Value(to, was[k + 1..]), ch);
    InBaseUpdate(to, now, k, r);
    assert next[..k] == was[..k] by { assert next[..k] == now[..k + 1][..k] && was[..k] == was[..k + 1][..k]; }
  }

  lemma InBaseAt(b: nat, d: seq<nat>, k: nat)
    requires InBase(b, d) && k < |d|
    ensures d[k] < b
  {
  }

  lemma InBaseUpdate(b: nat, d: seq<nat>, k: nat, x: nat)
    requires InBase(b, d) && k < |d| && x < b
    ensures InBase(b, d[k := x])
  {
  }

  lemma ValueOne(b: nat, x: nat)
    ensures Value(b, [x]) == x
  {
    assert [x][..0] == [];
  }

  lemma SmallCarry(from: nat, to: nat, carry: nat, x: nat)
    requires carry < from && x < to
    ensures Quot(MulAdd(carry, from, x), to) < from
  {
    hide Quot, Rem;
    MulMono(to, x + 1, from);
    var c := MulAdd(carry, from, x);
    assert c < from * to;
    QuotRem(c, to);
    if Quot(c, to) >= from { MulMono(Quot(c, to), from, to); }
  }

  /** A carry plus a digit times the base. */
  function MulAdd(carry: nat, from: nat, x: nat): nat { carry + from * x }

  lemma CarryAlgebra(from: nat, to: nat, carry: nat, x: nat, q: nat, r: nat, p: nat, low: nat, old_low: nat, ch: nat)
    requires low + carry * p == from * old_low + ch && carry + from * x == q * to + r
    ensures (r * p + low) + q * (to * p) == from * (x * p + old_low) + ch
  {
    assert (q * to + r) * p == r * p + q * (to * p);
    assert (carry + from * x) * p == carry * p + from * (x * p);
    assert from * (x * p + old_low) == from * (x * p) + from * old_low;
  }

  /** When the loop stops, the whole buffer holds the product and nothing is carried out. */
  lemma CarryEnd(from: nat, to: nat, was: seq<nat>, now: seq<nat>, i: nat, carry: nat, ch: nat)
    requires from > 0 && to > 0 && Carrying(from, to, was, now, i, carry, ch)
    requires carry == 0 || i == |was|
    requires forall j :: 0 <= j < |was| - i ==> was[j] == 0
    requires from * Value(to, was) + ch < Pow(to, |was|)
    ensures carry == 0 && Value(to, now) == from * Value(to, was) + ch
    ensures forall j :: 0 <= j < |now| - i ==> now[j] == 0
  {
    hide Value, Pow;
    var k := |was| - i;
    forall j | 0 <= j < k ensures now[j] == 0 { assert now[j] == now[..k][j] == was[..k][j]; }
    ValueSkipsZeros(to, was, k);
    ValueSkipsZeros(to, now, k);
    if carry > 0 { MulMono(carry, 1, Pow(to, i)); }
  }

  /** One round of either conversion: the buffer becomes from * buffer + ch. */
  method MultiplyAdd(buf: array<nat>, from: nat, to: nat, ch: nat, length: nat) returns (used: nat)
    requires from > 0 && to > 0 && ch < from && length <= buf.Length && InBase(to, buf[..])
    requires forall j :: 0 <= j < buf.Length - length ==> buf[j] == 0
    requires from * Value(to, buf[..]) + ch < Pow(to, buf.Length)
    modifies buf
    ensures InBase(to, buf[..]) && Value(to, buf[..]) == from * Value(to, old(buf[..])) + ch
    ensures used <= buf.Length && forall j :: 0 <= j < buf.Length - used ==> buf[j] == 0
  {
    hide Value, Pow, InBase, Carrying, MulAdd, Quot, Rem;
    ghost var was := buf[..];
    var carry: nat, i: nat := ch, 0;
    CarryStart(from, to, was, ch);
    while (carry != 0 || i < length) && i != buf.Length
      invariant i <= buf.Length && Carrying(from, to, was, buf[..], i, carry, ch)
    {
      var k := buf.Length - 1 - i;
      CarryStep(from, to, was, buf[..], i, carry, ch);
      ghost var now := buf[..];
      carry := MulAdd(carry, from, buf[k]);
      buf[k] := Rem(carry, to);
      assert buf[..] == now[k := Rem(carry, to)];
      carry := Quot(carry, to);
      i := i + 1;
    }
    CarryEnd(from, to, was, buf[..], i, carry, ch);
    CarryInBase(from, to, was, buf[..], i, carry, ch);
    assert carry == 0;
    used := i;
  }

  lemma CarryInBase(from: nat, to: nat, was: seq<nat>, now: seq<nat>, i: nat, carry: nat, ch: nat)
    requires Carrying(from, to, was, now, i, carry, ch)
    ensures InBase(to, now)
  {
  }

  lemma CarryStart(from: nat, to: nat, was: seq<nat>, ch: nat)
    requires InBase(to, was) && ch < from
    ensures Carrying(from, to, was, was, 0, ch, ch)
  {
    assert was[|was|..] == [];
  }
}
