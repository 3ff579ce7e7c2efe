/**
 The loops of denomination_functions: greedy counts within what is held, change, the exact-amount
 search over the mints, and collecting the mints.
 */
module DenominationFunctions {
  import opened Basics
  import opened DenominationModel
  import opened DenominationSpends

  /** Negative holdings count as none. */
  function Clamped(held: seq<int>): (r: seq<nat>)
    ensures |r| == |held| && forall j :: 0 <= j < |held| ==> r[j] == if held[j] < 0 then 0 else held[j]
  {
    seq(|held|, j requires 0 <= j < |held| => if held[j] < 0 then 0 else held[j])
  }

  /** What is chosen so far, from the top down to position j, and what is left for the rest. */
  ghost predicate Choosing(ds: seq<nat>, supply: seq<nat>, t: int, chosen: seq<nat>, j: nat, rem: int) {
    && |ds| == |supply| == |chosen| && Positive(ds) && j <= |ds| && (forall k :: 0 <= k < j ==> chosen[k] == 0)
    && Positive(ds[..j])
    && Greedy(ds, supply, t) == Greedy(ds[..j], supply[..j], rem) + chosen[j..]
    && rem - Total(ds[..j], Greedy(ds[..j], supply[..j], rem)) == t - Total(ds, Greedy(ds, supply, t))
  }

  lemma ChoosingStart(ds: seq<nat>, supply: seq<nat>, t: int, chosen: seq<nat>)
    requires |ds| == |supply| == |chosen| && Positive(ds) && forall k :: 0 <= k < |ds| ==> chosen[k] == 0
    ensures Choosing(ds, supply, t, chosen, |ds|, t)
  {
    hide Greedy, Total;
    assert ds[..|ds|] == ds && supply[..|ds|] == supply && chosen[|ds|..] == [];
  }

  lemma ChoosingStep(ds: seq<nat>, supply: seq<nat>, t: int, chosen: seq<nat>, j: nat, rem: int, g: nat)
    requires j < |ds| && Choosing(ds, supply, t, chosen, j + 1, rem) && ds[j] > 0 && g == Take(supply[j], rem, ds[j])
    ensures Choosing(ds, supply, t, chosen[j := g], j, rem - g * ds[j])
  {
    hide Greedy, Total, Take, Coins;
    var d, s := ds[..j + 1], supply[..j + 1];
    GreedyTop(d, s, rem);
    assert d[..j] == ds[..j] && s[..j] == supply[..j];
    assert chosen[j := g][j..] == [g] + chosen[j + 1..];
  }

  lemma ChoosingEnd(ds: seq<nat>, supply: seq<nat>, t: int, chosen: seq<nat>, rem: int)
    requires Choosing(ds, supply, t, chosen, 0, rem)
    ensures chosen == Greedy(ds, supply, t) && rem == t - Total(ds, chosen)
  {
    assert Greedy(ds[..0], supply[..0], rem) == [];
    assert chosen[0..] == chosen;
  }

  /** Grabs coins of one denomination while the remaining value and the holdings allow. */
  method GrabCoins(value: int, d: nat, held: int) returns (g: nat, rem: int)
    requires d > 0
    ensures g == Take(if held < 0 then 0 else held, value, d) && rem == value - g * d
  {
    hide Take;
    g, rem := 0, value;
    while rem >= d && g < held
      invariant rem == value - g * d && (g == 0 || (rem >= 0 && g <= held))
      decreases held - g
    {
      assert (g + 1) * d == g * d + d;
      g := g + 1;
      rem := rem - d;
    }
    TakeIs(if held < 0 then 0 else held, value, d, g);
  }

  method GetSpendCoins(ds: seq<nat>, target: int, held: seq<int>) returns (used: seq<nat>)
    requires Positive(ds) && |held| == |ds|
    ensures used == Greedy(ds, Clamped(held), target)
  {
    hide Greedy, Total, Take, Choosing;
    ghost var supply := Clamped(held);
    used := seq(|ds|, _ => 0);
    var rem := target;
    ChoosingStart(ds, supply, target, used);
    for j := |ds| downto 0
      invariant |used| == |ds| && Choosing(ds, supply, target, used, j, rem)
    {
      ghost var before := rem;
      var g: nat;
      g, rem := GrabCoins(rem, ds[j], held[j]);
      ChoosingStep(ds, supply, target, used, j, before, g);
      used := used[j := g];
    }
    ChoosingEnd(ds, supply, target, used, rem);
  }

  /** Change coins of one denomination: as many as fit. */
  method ChangeCoins(value: int, d: nat) returns (g: nat, rem: int)
    requires d > 0
    ensures rem == value - g * d && rem < d && (g == 0 || rem >= 0)
  {
    g, rem := 0, value;
    while rem >= d
      invariant rem == value - g * d && (g == 0 || rem >= 0)
      decreases rem
    {
      assert (g + 1) * d == g * d + d;
      g := g + 1;
      rem := rem - d;
    }
  }

  method GetChange(ds: seq<nat>, target: int) returns (change: seq<nat>)
    requires Positive(ds)
    ensures change == Greedy(ds, Unlimited(ds, target), target)
  {
    hide Greedy, Total, Take, Choosing;
    ghost var supply := Unlimited(ds, target);
    change := seq(|ds|, _ => 0);
    var rem := target;
    ChoosingStart(ds, supply, target, change);
    for j := |ds| downto 0
      invariant |change| == |ds| && Choosing(ds, supply, target, change, j, rem) && rem <= target
    {
      ghost var before := rem;
      var g: nat;
      g, rem := ChangeCoins(rem, ds[j]);
      MulMono(ds[j], 1, g);
      TakeIs(supply[j], before, ds[j], g);
      ChoosingStep(ds, supply, target, change, j, before, g);
      change := change[j := g];
    }
    ChoosingEnd(ds, supply, target, change, rem);
  }

  // ---------------------------------------------------------------- the exact search over the mints

  lemma CountNext(mints: seq<Mint>, i: nat, d: nat)
    requires i < |mints|
    ensures CountOf(mints[..i + 1], d) == CountOf(mints[..i], d) + if Match(mints[i], d) then 1 else 0
  {
    assert mints[..i + 1][..i] == mints[..i];
  }

  lemma {:induction false} CountPrefix(mints: seq<Mint>, i: nat, d: nat)
    requires i <= |mints|
    ensures CountOf(mints[..i], d) <= CountOf(mints, d)
  {
    if i < |mints| {
      CountPrefix(mints[..|mints| - 1], i, d);
      assert mints[..|mints| - 1][..i] == mints[..i];
    } else {
      assert mints[..i] == mints;
    }
  }

  /** One denomination's pass over the mints, stopping once too little remains. */
  method ScanMints(mints: seq<Mint>, value: int, d: nat) returns (g: nat, rem: int)
    requires d > 0
    ensures g == Take(CountOf(mints, d), value, d) && rem == value - g * d
  {
    hide Take, CountOf;
    g, rem := 0, value;
    var i := 0;
    NoMints(d);
    while i < |mints|
      invariant i <= |mints| && rem == value - g * d && (g == 0 || rem >= 0) && g <= CountOf(mints[..i], d)
      invariant rem >= d ==> g == CountOf(mints[..i], d)
    {
      CountNext(mints, i, d);
      CountPrefix(mints, i + 1, d);
      if mints[i].isUsed { i := i + 1; continue; }
      if rem >= d && d == mints[i].denom {
        assert (g + 1) * d == g * d + d;
        g := g + 1;
        rem := rem - d;
      }
      if rem < d {
        TakeIs(CountOf(mints, d), value, d, g);
        return;
      }
      i := i + 1;
    }
    assert mints[..i] == mints;
    TakeIs(CountOf(mints, d), value, d, g);
  }

  lemma NoMints(d: nat)
    ensures CountOf([], d) == 0
  {
  }

  /** Counts already in the caller's map are added to, not replaced. */
  function Plus(a: seq<nat>, b: seq<nat>): (r: seq<nat>)
    requires |a| == |b|
    ensures |r| == |a| && forall j :: 0 <= j < |a| ==> r[j] == a[j] + b[j]
  {
    seq(|a|, j requires 0 <= j < |a| => a[j] + b[j])
  }

  method GetIdealSpends(ds: seq<nat>, target: int, mints: seq<Mint>, used: seq<nat>) returns (ok: bool, after: seq<nat>)
    requires Chain(ds) && |used| == |ds| && Positive(ds)
    ensures ok <==> Reachable(ds, mints, target)
    ensures after == Plus(used, Greedy(ds, Supply(ds, mints), target))
  {
    hide Greedy, Total, Take, Choosing, CountOf, Chain, Reachable, Divides;
    ghost var supply := Supply(ds, mints);
    ghost var chosen: seq<nat> := seq(|ds|, _ => 0);
    after := used;
    var rem := target;
    ChoosingStart(ds, supply, target, chosen);
    for j := |ds| downto 0
      invariant |after| == |ds| == |chosen| && Choosing(ds, supply, target, chosen, j, rem)
      invariant forall k :: j <= k < |ds| ==> after[k] == used[k] + chosen[k]
      invariant forall k :: 0 <= k < j ==> after[k] == used[k]
    {
      ghost var before := rem;
      var g: nat;
      g, rem := ScanMints(mints, rem, ds[j]);
      ChoosingStep(ds, supply, target, chosen, j, before, g);
      chosen := chosen[j := g];
      after := after[j := after[j] + g];
    }
    ChoosingEnd(ds, supply, target, chosen, rem);
    ReachableIffGreedy(ds, mints, target);
    ok := rem == 0;
  }

  // ---------------------------------------------------------------- collecting

  lemma FirstNext(mints: seq<Mint>, i: nat, d: nat, c: nat)
    requires i < |mints|
    ensures var r := First(mints[..i], d, c);
            First(mints[..i + 1], d, c) == if Match(mints[i], d) && |r| < c then r + [i] else r
  {
    assert mints[..i + 1][..i] == mints[..i];
  }

  lemma FirstNone(d: nat, c: nat)
    ensures First([], d, c) == []
  {
  }

  /** One pass over the mints for one denomination. */
  method CollectPass(mints: seq<Mint>, d: nat, count: nat) returns (picked: seq<nat>, left: nat)
    ensures picked == First(mints, d, count) && left == count - |picked|
  {
    hide First;
    picked, left := [], count;
    FirstNone(d, count);
    for i := 0 to |mints|
      invariant picked == First(mints[..i], d, count) && left == count - |picked|
    {
      FirstNext(mints, i, d, count);
      if mints[i].isUsed { continue; }
      if d == mints[i].denom && left != 0 {
        picked := picked + [i];
        left := left - 1;
      }
    }
    assert mints[..|mints|] == mints;
  }

  lemma PassesStep(mints: seq<Mint>, d: nat, c: nat)
    requires c == 0 || CountOf(mints, d) > 0
    ensures var r := First(mints, d, c); Passes(mints, d, c) == r + Passes(mints, d, c - |r|)
    ensures c > 0 ==> |First(mints, d, c)| > 0
  {
    hide First, CountOf;
    if c <= CountOf(mints, d) { assert Passes(mints, d, 0) == []; }
  }

  lemma PassesNone(mints: seq<Mint>, d: nat)
    ensures Passes(mints, d, 0) == []
  {
  }

  /** Passes over the mints until the count of one denomination is used up. */
  method CollectDenomination(mints: seq<Mint>, d: nat, count: nat) returns (picked: seq<nat>, value: nat, left: nat)
    requires count == 0 || CountOf(mints, d) > 0
    ensures picked == Passes(mints, d, count) && value == count * d && left == 0
  {
    hide First, Passes, CountOf;
    picked, value, left := [], 0, count;
    var again := true;
    while again
      invariant left <= count && value == (count - left) * d && (again || left == 0)
      invariant Passes(mints, d, count) == picked + Passes(mints, d, left)
      decreases left, again
    {
      PassesStep(mints, d, left);
      ghost var before := left;
      var more: seq<nat>;
      more, left := CollectPass(mints, d, left);
      picked := picked + more;
      value := value + |more| * d;
      assert (count - left) * d == (count - before) * d + |more| * d;
      again := left != 0;
    }
    PassesNone(mints, d);
  }

  method GetSpends(ds: seq<nat>, mints: seq<Mint>, used: seq<nat>) returns (selected: seq<nat>, value: nat, left: seq<nat>)
    requires Ends(ds, mints, used)
    ensures selected == Selected(ds, mints, used) && value == Total(ds, used)
    ensures |left| == |used| && forall j :: 0 <= j < |left| ==> left[j] == 0
  {
    hide Passes, CountOf, Total, Coins, Selected, Ends;
    selected, value, left := [], 0, used;
    EndsLength(ds, mints, used);
    assert ds[..|ds|] == ds && used[..|ds|] == used;
    for j := |ds| downto 0
      invariant Ends(ds[..j], mints, used[..j])
      invariant selected + Selected(ds[..j], mints, used[..j]) == Selected(ds, mints, used)
      invariant value + Total(ds[..j], used[..j]) == Total(ds, used)
      invariant |left| == |used| && left[..j] == used[..j] && forall k :: j <= k < |left| ==> left[k] == 0
    {
      SelectedNext(ds, mints, used, j);
      assert left[..j + 1][j] == used[..j + 1][j];
      var picked, worth, rest := CollectDenomination(mints, ds[j], left[j]);
      left := left[j := rest];
      selected := selected + picked;
      value := value + worth;
    }
    NothingSelected(ds[..0], mints, used[..0]);
  }

  lemma EndsLength(ds: seq<nat>, mints: seq<Mint>, c: seq<nat>)
    requires Ends(ds, mints, c)
    ensures |c| == |ds|
  {
    hide CountOf;
  }

  lemma NothingSelected(ds: seq<nat>, mints: seq<Mint>, c: seq<nat>)
    requires ds == [] && Ends(ds, mints, c)
    ensures Selected(ds, mints, c) == [] && Total(ds, c) == 0
  {
  }

  lemma SelectedNext(ds: seq<nat>, mints: seq<Mint>, c: seq<nat>, j: nat)
    requires |c| == |ds| && j < |ds| && Ends(ds[..j + 1], mints, c[..j + 1])
    ensures Ends(ds[..j], mints, c[..j]) && (c[j] == 0 || CountOf(mints, ds[j]) > 0)
    ensures Selected(ds[..j + 1], mints, c[..j + 1]) == Passes(mints, ds[j], c[j]) + Selected(ds[..j], mints, c[..j])
    ensures Total(ds[..j + 1], c[..j + 1]) == Total(ds[..j], c[..j]) + c[j] * ds[j]
  {
    hide CountOf, Passes, Total, Coins;
    var d, e := ds[..j + 1], c[..j + 1];
    assert d[..j] == ds[..j] && e[..j] == c[..j] && d[j] == ds[j] && e[j] == c[j];
    LastCoin(d, e);
  }

  /** The conversion of an int to size_t. */
  function AsSize(n: int): (r: nat)
    requires -0x8000_0000 <= n
  {
    if n < 0 then 0x1_0000_0000_0000_0000 + n else n
  }

  /**
   The exact branch of SelectMintsFromList: it is taken if and only if the amount can be made up by
   no more mints than allowed. Otherwise needed tells how many mints an exact spend would take.
   */
  method SelectExactly(ds: seq<nat>, target: int, maxSpends: int, mints: seq<Mint>)
    returns (done: bool, selected: seq<nat>, value: nat, needed: nat)
    requires Chain(ds) && Positive(ds) && -0x8000_0000 <= maxSpends
    ensures done <==> ReachableWithin(ds, mints, target, AsSize(maxSpends))
    ensures done || needed > 0 ==> ExactFor(ds, mints, selected, target) && value == target
    ensures !done ==> (needed == if Reachable(ds, mints, target) then |selected| else 0)
    ensures done ==> needed == 0
  {
    hide Greedy, Total, CountOf, Chain, Divides, Ends, Selected, ExactFor, Positive, AsSize, IsPick, PickSum, PickSize;
    selected, value, needed := [], 0, 0;
    var used: seq<nat> := seq(|ds|, _ => 0);
    var ok;
    ok, used := GetIdealSpends(ds, target, mints, used);
    if !ok { return false, selected, value, needed; }
    assert used == Greedy(ds, Supply(ds, mints), target);
    ExactSelection(ds, mints, target);
    ReachableIffGreedy(ds, mints, target);
    FewestFit(ds, mints, target, AsSize(maxSpends));
    selected, value, used := GetSpends(ds, mints, used);
    done := |selected| <= AsSize(maxSpends);
    if !done { needed := |selected|; }
  }
}
