/**
 Exact change with bounded supplies, over any ascending list of denominations in which each divides
 the next. The greedy choice from the highest denomination down reaches an amount whenever the
 supplies can reach it at all, and then with the fewest coins.
 */
module DenominationModel {
  import opened Basics

  const COIN: nat := 100_000_000

  /** The denominations in use, smallest first. */
  const DENOMINATIONS: seq<nat> := [1 * COIN, 5 * COIN, 10 * COIN, 50 * COIN, 100 * COIN, 500 * COIN, 1000 * COIN, 5000 * COIN]

  /** Ascending, and each divides the next. */
  ghost predicate Chain(ds: seq<nat>) {
    && Positive(ds)
    && (forall i, j :: 0 <= i < j < |ds| ==> ds[i] < ds[j])
    && (forall i, j :: 0 <= i < j < |ds| ==> Divides(ds[i], ds[j]))
  }

  ghost predicate Positive(ds: seq<nat>) { forall i :: 0 <= i < |ds| ==> ds[i] > 0 }

  ghost predicate Divides(a: nat, b: nat) { a > 0 && exists k: nat :: b == Times(k, a) }

  ghost function Times(k: nat, a: nat): nat { k * a }

  /** The amount a count of each denomination adds up to. */
  function Total(ds: seq<nat>, c: seq<nat>): nat
    requires |ds| == |c|
  {
    if ds == [] then 0
    else var n := |ds| - 1; Total(ds[..n], c[..n]) + c[n] * ds[n]
  }

  function Coins(c: seq<nat>): nat {
    if c == [] then 0 else Coins(c[..|c| - 1]) + c[|c| - 1]
  }

  ghost predicate Within(c: seq<nat>, supply: seq<nat>) {
    |c| == |supply| && forall i :: 0 <= i < |c| ==> c[i] <= supply[i]
  }

  /** How many coins of value d a greedy choice takes towards t. */
  function Take(supply: nat, t: int, d: nat): (g: nat)
    requires d > 0
    ensures g <= supply
  {
    if t < d then 0 else if supply <= t / d then supply else t / d
  }

  /** The greedy counts, chosen from the highest denomination down. */
  function Greedy(ds: seq<nat>, supply: seq<nat>, t: int): (c: seq<nat>)
    requires |ds| == |supply| && Positive(ds)
    ensures |c| == |ds|
  {
    if ds == [] then []
    else
      var n := |ds| - 1;
      var g := Take(supply[n], t, ds[n]);
      Greedy(ds[..n], supply[..n], t - g * ds[n]) + [g]
  }

  lemma ListIsChain()
    ensures Chain(DENOMINATIONS)
  {
    var ds := DENOMINATIONS;
    assert ds[1] == Times(5, ds[0]) && ds[2] == Times(2, ds[1]) && ds[3] == Times(5, ds[2]) && ds[4] == Times(2, ds[3]);
    assert ds[5] == Times(5, ds[4]) && ds[6] == Times(2, ds[5]) && ds[7] == Times(5, ds[6]);
    ChainFromSteps(ds);
  }

  /** Neighbours suffice: dividing and growing carry over. */
  lemma ChainFromSteps(ds: seq<nat>)
    requires Positive(ds) && forall i :: 0 <= i && i + 1 < |ds| ==> Divides(ds[i], ds[i + 1]) && ds[i] < ds[i + 1]
    ensures Chain(ds)
  {
    hide Divides;
    forall i, j | 0 <= i < j < |ds| ensures Divides(ds[i], ds[j]) && ds[i] < ds[j] { StepsBetween(ds, i, j); }
  }

  lemma {:induction false} StepsBetween(ds: seq<nat>, i: nat, j: nat)
    requires Positive(ds) && forall k :: 0 <= k && k + 1 < |ds| ==> Divides(ds[k], ds[k + 1]) && ds[k] < ds[k + 1]
    requires i < j < |ds|
    ensures Divides(ds[i], ds[j]) && ds[i] < ds[j]
    decreases j
  {
    hide Divides;
    assert Divides(ds[j - 1], ds[j - 1 + 1]) && ds[j - 1] < ds[j - 1 + 1];
    if i < j - 1 {
      StepsBetween(ds, i, j - 1);
      DividesTransitive(ds[i], ds[j - 1], ds[j]);
    }
  }

  lemma DividesTransitive(a: nat, b: nat, c: nat)
    requires Divides(a, b) && Divides(b, c)
    ensures Divides(a, c)
  {
    var k: nat :| c == Times(k, b);
    DividesProduct(a, b, k);
  }

  // ---------------------------------------------------------------- arithmetic

  lemma DivBounds(t: nat, d: nat)
    requires d > 0
    ensures (t / d) * d <= t < (t / d + 1) * d
  {
  }

  lemma TakeBounds(supply: nat, t: nat, d: nat)
    requires d > 0
    ensures Take(supply, t, d) * d <= t
    ensures forall x: nat :: x <= supply && x * d <= t ==> x <= Take(supply, t, d)
  {
    var g := Take(supply, t, d);
    DivBounds(t, d);
    if supply <= t / d { MulMono(t / d, supply, d); }
    forall x: nat | x <= supply && x * d <= t ensures x <= g {
      if x > t / d { MulMono(x, t / d + 1, d); }
      if t < d && x > 0 { MulMono(x, 1, d); }
    }
  }

  /** A count is the greedy one when it stays within supply and target and cannot be raised. */
  lemma TakeIs(supply: nat, t: int, d: nat, g: nat)
    requires d > 0 && g <= supply && (g == 0 || t - g * d >= 0) && (t - g * d < d || g == supply)
    ensures g == Take(supply, t, d)
  {
    hide Take;
    if t < 0 {
      TakeNothing(supply, t, d);
      if g > 0 { MulMono(d, 1, g); }
    } else {
      TakeBounds(supply, t, d);
      var x := Take(supply, t, d);
      if g == 0 { assert g * d == 0; }
      AddOne(g, d);
      if x > g { MulMono(x, g + 1, d); }
    }
  }

  lemma AddOne(q: int, d: int)
    ensures (q + 1) * d == q * d + d
  {
  }

  lemma DividesProduct(a: nat, b: nat, k: nat)
    requires Divides(a, b)
    ensures Divides(a, k * b)
  {
    var m: nat :| b == Times(m, a);
    assert k * (m * a) == (k * m) * a;
    assert k * b == Times(k * m, a);
  }

  lemma DividesDifference(a: nat, b: nat, c: nat)
    requires Divides(a, b) && Divides(a, c) && c <= b
    ensures Divides(a, b - c)
  {
    var m: nat :| b == Times(m, a);
    var n: nat :| c == Times(n, a);
    if n > m { MulMono(n, m + 1, a); }
    assert (m - n) * a == m * a - n * a;
    assert b - c == Times(m - n, a);
  }

  lemma ChainPrefix(ds: seq<nat>, n: nat)
    requires Chain(ds) && n <= |ds|
    ensures Chain(ds[..n])
  {
    hide Divides;
  }

  // ---------------------------------------------------------------- totals

  function Minus(c: seq<nat>, e: seq<nat>): (r: seq<nat>)
    requires Within(e, c)
    ensures |r| == |c| && forall i :: 0 <= i < |c| ==> r[i] == c[i] - e[i]
  {
    seq(|c|, i requires 0 <= i < |c| => c[i] - e[i])
  }

  lemma {:induction false} TotalMinus(ds: seq<nat>, c: seq<nat>, e: seq<nat>)
    requires |ds| == |c| && Within(e, c)
    ensures Total(ds, Minus(c, e)) == Total(ds, c) - Total(ds, e)
    ensures Coins(Minus(c, e)) == Coins(c) - Coins(e)
  {
    if ds != [] {
      var n := |ds| - 1;
      assert Minus(c, e)[..n] == Minus(c[..n], e[..n]);
      TotalMinus(ds[..n], c[..n], e[..n]);
      assert (c[n] - e[n]) * ds[n] == c[n] * ds[n] - e[n] * ds[n];
    }
  }

  lemma {:induction false} TotalNone(ds: seq<nat>, c: seq<nat>)
    requires |ds| == |c| && forall i :: 0 <= i < |c| ==> c[i] == 0
    ensures Total(ds, c) == 0 && Coins(c) == 0
  {
    if ds != [] { TotalNone(ds[..|ds| - 1], c[..|ds| - 1]); }
  }

  /** Every amount of coins no larger than d is worth at most d apiece. */
  lemma {:induction false} TotalAtMost(ds: seq<nat>, c: seq<nat>, d: nat)
    requires |ds| == |c| && forall i :: 0 <= i < |ds| ==> ds[i] <= d
    ensures Total(ds, c) <= Coins(c) * d
  {
    if ds != [] {
      var n := |ds| - 1;
      TotalAtMost(ds[..n], c[..n], d);
      MulMono(d, ds[n], c[n]);
      assert (Coins(c[..n]) + c[n]) * d == Coins(c[..n]) * d + c[n] * d;
    }
  }

  // ---------------------------------------------------------------- the exchange argument

  /** Coins whose values divide each other and goal, worth at least goal, contain a part worth exactly goal. */
  lemma {:induction false} PartWorth(ds: seq<nat>, c: seq<nat>, goal: nat) returns (e: seq<nat>)
    requires Chain(ds) && |ds| == |c| && (forall i :: 0 <= i < |ds| ==> Divides(ds[i], goal)) && Total(ds, c) >= goal
    ensures Within(e, c) && Total(ds, e) == goal
  {
    hide Divides, Chain;
    if ds == [] {
      e := [];
    } else {
      var n := |ds| - 1;
      var d := ds[n];
      var g := ExactShare(c[n], goal, d);
      ChainPrefix(ds, n);
      ChainDivides(ds, n);
      RestDivides(ds[..n], goal, g, d);
      if g < c[n] || g * d == goal {
        e := seq(n, _ => 0) + [g];
        TotalNone(ds[..n], seq(n, _ => 0));
        assert e[..n] == seq(n, _ => 0);
      } else {
        var f := PartWorth(ds[..n], c[..n], goal - g * d);
        e := f + [g];
        assert e[..n] == f;
      }
    }
  }

  lemma ChainDivides(ds: seq<nat>, n: nat)
    requires Chain(ds) && n == |ds| - 1
    ensures ds[n] > 0 && forall i :: 0 <= i < n ==> Divides(ds[i], ds[n])
  {
    hide Divides;
  }

  /** As many coins of value d as fit in goal: all of them, or exactly goal's worth. */
  lemma ExactShare(have: nat, goal: nat, d: nat) returns (g: nat)
    requires Divides(d, goal)
    ensures g <= have && g * d <= goal && (g < have ==> g * d == goal)
  {
    var m: nat :| goal == Times(m, d);
    if m <= have {
      g := m;
    } else {
      g := have;
      MulMono(m, have, d);
    }
  }

  lemma RestDivides(ds: seq<nat>, goal: nat, g: nat, d: nat)
    requires (forall i :: 0 <= i < |ds| ==> Divides(ds[i], d) && Divides(ds[i], goal)) && g * d <= goal
    ensures forall i :: 0 <= i < |ds| ==> Divides(ds[i], goal - g * d)
  {
    hide Divides;
    forall i | 0 <= i < |ds| ensures Divides(ds[i], goal - g * d) {
      DividesProduct(ds[i], d, g);
      DividesDifference(ds[i], goal, g * d);
    }
  }

  /** Any solution can be changed, without more coins, into one that takes the greedy share of the top denomination. */
  lemma Exchange(ds: seq<nat>, supply: seq<nat>, c: seq<nat>, t: nat) returns (e: seq<nat>)
    requires Chain(ds) && |ds| == |supply| > 0 && Within(c, supply) && Total(ds, c) == t && ds[|ds| - 1] > 0
    ensures var n := |ds| - 1; var g := Take(supply[n], t, ds[n]);
            && g * ds[n] <= t && Within(e, supply[..n]) && Total(ds[..n], e) == t - g * ds[n]
            && Coins(e) + g <= Coins(c)
  {
    hide Divides, Chain, Take, Total, Coins;
    var n := |ds| - 1;
    var d := ds[n];
    var low := c[..n];
    LastCoin(ds, c);
    TakeBounds(supply[n], t, d);
    var k := Take(supply[n], t, d) - c[n];
    ShareSplit(k, c[n], d);
    var f := LowPart(ds, low, k);
    e := Minus(low, f);
    TotalMinus(ds[..n], low, f);
  }

  lemma ShareSplit(k: int, x: int, d: int)
    ensures (k + x) * d == k * d + x * d
  {
  }

  lemma LastCoin(ds: seq<nat>, c: seq<nat>)
    requires |ds| == |c| > 0
    ensures var n := |ds| - 1; Total(ds, c) == Total(ds[..n], c[..n]) + c[n] * ds[n] && Coins(c) == Coins(c[..n]) + c[n]
  {
  }

  /** Lower coins worth k of the top denomination; there are at least k of them. */
  lemma LowPart(ds: seq<nat>, low: seq<nat>, k: nat) returns (f: seq<nat>)
    requires Chain(ds) && |ds| == |low| + 1 && Total(ds[..|low|], low) >= k * ds[|low|]
    ensures Within(f, low) && Total(ds[..|low|], f) == k * ds[|low|] && Coins(f) >= k
  {
    hide Divides, Chain, Total, Coins;
    var n := |low|;
    var d := ds[n];
    ChainDivides(ds, n);
    ChainPrefix(ds, n);
    forall i | 0 <= i < n ensures Divides(ds[..n][i], k * d) { DividesProduct(ds[i], d, k); }
    f := PartWorth(ds[..n], low, k * d);
    BelowTop(ds, n);
    TotalAtMost(ds[..n], f, d);
    if Coins(f) < k { MulMono(k, Coins(f) + 1, d); }
  }

  lemma BelowTop(ds: seq<nat>, n: nat)
    requires Chain(ds) && n == |ds| - 1
    ensures ds[n] > 0 && forall i :: 0 <= i < |ds[..n]| ==> ds[..n][i] <= ds[n]
  {
    hide Divides;
  }

  lemma ChainPositive(ds: seq<nat>)
    requires Chain(ds)
    ensures Positive(ds) && (|ds| > 0 ==> ds[|ds| - 1] > 0)
  {
  }

  /** The greedy choice of the top denomination, and of the others for what is left. */
  lemma GreedyTop(ds: seq<nat>, supply: seq<nat>, t: int)
    requires Positive(ds) && |ds| == |supply| > 0
    ensures var n := |ds| - 1; ds[n] > 0 && Positive(ds[..n])
    ensures var n := |ds| - 1; var g := Take(supply[n], t, ds[n]); var r := Greedy(ds[..n], supply[..n], t - g * ds[n]);
            && Greedy(ds, supply, t) == r + [g]
            && Total(ds, Greedy(ds, supply, t)) == Total(ds[..n], r) + g * ds[n]
            && Coins(Greedy(ds, supply, t)) == Coins(r) + g
  {
    hide Total, Coins, Take;
    var n := |ds| - 1;
    var c := Greedy(ds, supply, t);
    LastCoin(ds, c);
    assert c[..n] == Greedy(ds[..n], supply[..n], t - c[n] * ds[n]);
  }

  lemma {:induction false} GreedyWithin(ds: seq<nat>, supply: seq<nat>, t: int)
    requires Positive(ds) && |ds| == |supply|
    ensures Within(Greedy(ds, supply, t), supply)
    ensures t >= 0 ==> Total(ds, Greedy(ds, supply, t)) <= t
    ensures t < 0 ==> Total(ds, Greedy(ds, supply, t)) == 0
  {
    hide Take, Total, Coins;
    if ds == [] {
      TotalNone(ds, []);
    } else {
      hide Greedy;
      var n := |ds| - 1;
      GreedyTop(ds, supply, t);
      if t >= 0 { TakeBounds(supply[n], t, ds[n]); } else { TakeNothing(supply[n], t, ds[n]); }
      GreedyWithin(ds[..n], supply[..n], t - Take(supply[n], t, ds[n]) * ds[n]);
    }
  }

  lemma TakeNothing(supply: nat, t: int, d: nat)
    requires t < 0 && d > 0
    ensures Take(supply, t, d) == 0
  {
  }

  /** If any counts within the supplies reach t, the greedy ones do, with no more coins. */
  lemma {:induction false} GreedyReaches(ds: seq<nat>, supply: seq<nat>, c: seq<nat>, t: nat)
    requires Chain(ds) && |ds| == |supply| && Within(c, supply) && Total(ds, c) == t
    ensures Positive(ds)
    ensures Total(ds, Greedy(ds, supply, t)) == t && Coins(Greedy(ds, supply, t)) <= Coins(c)
  {
    hide Divides, Chain, Take, Total, Coins, Positive;
    ChainPositive(ds);
    if ds == [] {
      TotalNone(ds, []);
      TotalNone(ds, c);
    } else {
      hide Greedy;
      var n := |ds| - 1;
      ChainPrefix(ds, n);
      GreedyTop(ds, supply, t);
      var e := Exchange(ds, supply, c, t);
      GreedyReaches(ds[..n], supply[..n], e, t - Take(supply[n], t, ds[n]) * ds[n]);
    }
  }

  /** No counts within the supplies add up to more without exceeding t. */
  lemma {:induction false} GreedyGreatest(ds: seq<nat>, supply: seq<nat>, c: seq<nat>, t: nat)
    requires Chain(ds) && |ds| == |supply| && Within(c, supply) && Total(ds, c) <= t
    ensures Positive(ds)
    ensures Total(ds, c) <= Total(ds, Greedy(ds, supply, t)) <= t
  {
    hide Divides, Chain, Take, Total, Coins, Positive;
    ChainPositive(ds);
    GreedyWithin(ds, supply, t);
    if ds == [] {
      TotalNone(ds, c);
    } else {
      hide Greedy;
      var n := |ds| - 1;
      var d, g := ds[n], Take(supply[n], t, ds[n]);
      ChainPrefix(ds, n);
      GreedyTop(ds, supply, t);
      LastCoin(ds, c);
      TakeBounds(supply[n], t, d);
      var low := c[..n];
      var k := g - c[n];
      ShareSplit(k, c[n], d);
      if Total(ds[..n], low) >= k * d {
        var f := LowPart(ds, low, k);
        TotalMinus(ds[..n], low, f);
        GreedyGreatest(ds[..n], supply[..n], Minus(low, f), t - g * d);
      }
    }
  }
}
