/**
 Selecting mints for an amount: which amounts the unused mints can make up, and the loops that find
 and collect them. A map from denominations to counts is a sequence aligned with the denominations.
 */
module DenominationSpends {
  import opened Basics
  import opened DenominationModel

  datatype Mint = Mint(denom: nat, isUsed: bool)

  predicate Match(m: Mint, d: nat) { !m.isUsed && m.denom == d }

  function CountOf(mints: seq<Mint>, d: nat): nat {
    if mints == [] then 0
    else CountOf(mints[..|mints| - 1], d) + if Match(mints[|mints| - 1], d) then 1 else 0
  }

  /** How many unused mints there are of each denomination. */
  function Supply(ds: seq<nat>, mints: seq<Mint>): (r: seq<nat>)
    ensures |r| == |ds| && forall j :: 0 <= j < |ds| ==> r[j] == CountOf(mints, ds[j])
  {
    seq(|ds|, j requires 0 <= j < |ds| => CountOf(mints, ds[j]))
  }

  // ---------------------------------------------------------------- sub-multisets of the mints

  /** pick chooses among the unused mints of known denominations. */
  ghost predicate IsPick(ds: seq<nat>, mints: seq<Mint>, pick: seq<bool>) {
    |pick| == |mints| && forall i :: 0 <= i < |mints| && pick[i] ==> !mints[i].isUsed && mints[i].denom in ds
  }

  ghost function PickSum(mints: seq<Mint>, pick: seq<bool>): nat
    requires |pick| == |mints|
  {
    if mints == [] then 0
    else
      var n := |mints| - 1;
      PickSum(mints[..n], pick[..n]) + if pick[n] then mints[n].denom else 0
  }

  ghost function PickSize(pick: seq<bool>): nat {
    if pick == [] then 0 else PickSize(pick[..|pick| - 1]) + if pick[|pick| - 1] then 1 else 0
  }

  ghost predicate Reachable(ds: seq<nat>, mints: seq<Mint>, t: int) {
    exists pick :: IsPick(ds, mints, pick) && PickSum(mints, pick) == t
  }

  ghost function PickCount(mints: seq<Mint>, pick: seq<bool>, d: nat): nat
    requires |pick| == |mints|
  {
    if mints == [] then 0
    else
      var n := |mints| - 1;
      PickCount(mints[..n], pick[..n], d) + if pick[n] && mints[n].denom == d then 1 else 0
  }

  ghost function PickCounts(ds: seq<nat>, mints: seq<Mint>, pick: seq<bool>): (c: seq<nat>)
    requires |pick| == |mints|
    ensures |c| == |ds| && forall j :: 0 <= j < |ds| ==> c[j] == PickCount(mints, pick, ds[j])
  {
    seq(|ds|, j requires 0 <= j < |ds| => PickCount(mints, pick, ds[j]))
  }

  ghost predicate Distinct(ds: seq<nat>) { forall i, j :: 0 <= i < j < |ds| ==> ds[i] != ds[j] }

  lemma {:induction false} TotalOneMore(ds: seq<nat>, c: seq<nat>, j: nat)
    requires |ds| == |c| && j < |ds|
    ensures Total(ds, c[j := c[j] + 1]) == Total(ds, c) + ds[j] && Coins(c[j := c[j] + 1]) == Coins(c) + 1
  {
    var n := |ds| - 1;
    var e := c[j := c[j] + 1];
    if j < n {
      assert e[..n] == c[..n][j := c[j] + 1];
      TotalOneMore(ds[..n], c[..n], j);
    } else {
      assert e[..n] == c[..n];
      assert (c[n] + 1) * ds[n] == c[n] * ds[n] + ds[n];
    }
  }

  /** A pick is worth what its counts are worth. */
  lemma {:induction false} PickTotal(ds: seq<nat>, mints: seq<Mint>, pick: seq<bool>)
    requires Distinct(ds) && IsPick(ds, mints, pick)
    ensures Total(ds, PickCounts(ds, mints, pick)) == PickSum(mints, pick) && Coins(PickCounts(ds, mints, pick)) == PickSize(pick)
  {
    hide Total, Coins;
    var c := PickCounts(ds, mints, pick);
    if mints == [] {
      TotalNone(ds, c);
    } else {
      var n := |mints| - 1;
      PickTotal(ds, mints[..n], pick[..n]);
      var b := PickCounts(ds, mints[..n], pick[..n]);
      if pick[n] {
        var j :| 0 <= j < |ds| && ds[j] == mints[n].denom;
        assert c == b[j := b[j] + 1];
        TotalOneMore(ds, b, j);
      } else {
        assert c == b;
      }
    }
  }

  lemma {:induction false} PickCountBound(ds: seq<nat>, mints: seq<Mint>, pick: seq<bool>, d: nat)
    requires IsPick(ds, mints, pick)
    ensures PickCount(mints, pick, d) <= CountOf(mints, d)
  {
    if mints != [] {
      var n := |mints| - 1;
      PickCountBound(ds, mints[..n], pick[..n], d);
    }
  }

  /** The pick of the first c[j] unused mints of each denomination. */
  ghost function PickFor(ds: seq<nat>, mints: seq<Mint>, c: seq<nat>): (pick: seq<bool>)
    requires |c| == |ds|
    ensures IsPick(ds, mints, pick)
  {
    if mints == [] then []
    else
      var n := |mints| - 1;
      var m := mints[n];
      PickFor(ds, mints[..n], c) + [!m.isUsed && exists j :: 0 <= j < |ds| && ds[j] == m.denom && CountOf(mints[..n], ds[j]) < c[j]]
  }

  ghost function Capped(ds: seq<nat>, mints: seq<Mint>, c: seq<nat>): (r: seq<nat>)
    requires |c| == |ds|
    ensures |r| == |ds| && forall j :: 0 <= j < |ds| ==> r[j] == if c[j] <= CountOf(mints, ds[j]) then c[j] else CountOf(mints, ds[j])
  {
    seq(|ds|, j requires 0 <= j < |ds| => if c[j] <= CountOf(mints, ds[j]) then c[j] else CountOf(mints, ds[j]))
  }

  lemma {:induction false} PickForTotal(ds: seq<nat>, mints: seq<Mint>, c: seq<nat>)
    requires Distinct(ds) && |c| == |ds|
    ensures PickSum(mints, PickFor(ds, mints, c)) == Total(ds, Capped(ds, mints, c))
    ensures PickSize(PickFor(ds, mints, c)) == Coins(Capped(ds, mints, c))
  {
    hide Total, Coins, Capped;
    var e := Capped(ds, mints, c);
    if mints == [] {
      TotalNone(ds, e);
    } else {
      var n := |mints| - 1;
      var b := Capped(ds, mints[..n], c);
      PickForTotal(ds, mints[..n], c);
      assert PickFor(ds, mints, c)[..n] == PickFor(ds, mints[..n], c);
      if PickFor(ds, mints, c)[n] {
        var j :| 0 <= j < |ds| && ds[j] == mints[n].denom && CountOf(mints[..n], ds[j]) < c[j];
        CappedGrows(ds, mints, c, j);
        TotalOneMore(ds, b, j);
      } else {
        CappedStays(ds, mints, c);
      }
    }
  }

  lemma CappedGrows(ds: seq<nat>, mints: seq<Mint>, c: seq<nat>, j: nat)
    requires Distinct(ds) && |c| == |ds| && mints != [] && j < |ds|
    requires var n := |mints| - 1; Match(mints[n], ds[j]) && CountOf(mints[..n], ds[j]) < c[j]
    ensures var b := Capped(ds, mints[..|mints| - 1], c); Capped(ds, mints, c) == b[j := b[j] + 1]
  {
  }

  lemma CappedStays(ds: seq<nat>, mints: seq<Mint>, c: seq<nat>)
    requires |c| == |ds| && mints != []
    requires var n := |mints| - 1; forall j :: 0 <= j < |ds| && Match(mints[n], ds[j]) ==> CountOf(mints[..n], ds[j]) >= c[j]
    ensures Capped(ds, mints, c) == Capped(ds, mints[..|mints| - 1], c)
  {
  }

  lemma ChainDistinct(ds: seq<nat>)
    requires Chain(ds)
    ensures Distinct(ds) && Positive(ds)
  {
    hide Divides;
  }

  /** The unused mints can make up t exactly when the greedy choice reaches it. */
  lemma ReachableIffGreedy(ds: seq<nat>, mints: seq<Mint>, t: int)
    requires Chain(ds)
    ensures Positive(ds)
    ensures Reachable(ds, mints, t) <==> Total(ds, Greedy(ds, Supply(ds, mints), t)) == t
  {
    hide Chain, Total, Coins, Greedy, Positive, Divides;
    ChainDistinct(ds);
    var supply := Supply(ds, mints);
    var g := Greedy(ds, supply, t);
    GreedyWithin(ds, supply, t);
    if Reachable(ds, mints, t) {
      var pick :| IsPick(ds, mints, pick) && PickSum(mints, pick) == t;
      PickWithin(ds, mints, pick);
      PickTotal(ds, mints, pick);
      GreedyReaches(ds, supply, PickCounts(ds, mints, pick), t);
    }
    if Total(ds, g) == t {
      PickForTotal(ds, mints, g);
      assert Capped(ds, mints, g) == g;
    }
  }

  lemma PickWithin(ds: seq<nat>, mints: seq<Mint>, pick: seq<bool>)
    requires IsPick(ds, mints, pick)
    ensures Within(PickCounts(ds, mints, pick), Supply(ds, mints))
  {
    forall j | 0 <= j < |ds| ensures PickCounts(ds, mints, pick)[j] <= Supply(ds, mints)[j] {
      PickCountBound(ds, mints, pick, ds[j]);
    }
  }

  /** No way of making up t uses fewer mints than the greedy one. */
  lemma GreedyFewest(ds: seq<nat>, mints: seq<Mint>, pick: seq<bool>)
    requires Chain(ds) && IsPick(ds, mints, pick)
    ensures Positive(ds)
    ensures Coins(Greedy(ds, Supply(ds, mints), PickSum(mints, pick))) <= PickSize(pick)
  {
    hide Chain, Total, Coins, Greedy, Positive, Divides;
    ChainDistinct(ds);
    PickWithin(ds, mints, pick);
    PickTotal(ds, mints, pick);
    GreedyReaches(ds, Supply(ds, mints), PickCounts(ds, mints, pick), PickSum(mints, pick));
  }

  // ---------------------------------------------------------------- collecting mints

  /** The positions of the first c unused mints of denomination d. */
  function First(mints: seq<Mint>, d: nat, c: nat): (r: seq<nat>)
    ensures |r| == if c <= CountOf(mints, d) then c else CountOf(mints, d)
    ensures forall k :: 0 <= k < |r| ==> r[k] < |mints| && Match(mints[r[k]], d)
    ensures forall k, l :: 0 <= k < l < |r| ==> r[k] < r[l]
  {
    if mints == [] then []
    else
      var n := |mints| - 1;
      var r := First(mints[..n], d, c);
      assert forall k :: 0 <= k < |r| ==> mints[..n][r[k]] == mints[r[k]];
      if Match(mints[n], d) && |r| < c then r + [n] else r
  }

  /** What repeated passes over the mints collect for c coins of denomination d. */
  function Passes(mints: seq<Mint>, d: nat, c: nat): (r: seq<nat>)
    requires c == 0 || CountOf(mints, d) > 0
    ensures |r| == c
    ensures forall k :: 0 <= k < |r| ==> r[k] < |mints| && Match(mints[r[k]], d)
    ensures c <= CountOf(mints, d) ==> forall k, l :: 0 <= k < l < |r| ==> r[k] != r[l]
  {
    if c <= CountOf(mints, d) then First(mints, d, c)
    else First(mints, d, c) + Passes(mints, d, c - CountOf(mints, d))
  }

  /** No denomination is asked for that has no unused mint; PassesEndIff shows that exactly then the passes end. */
  ghost predicate Ends(ds: seq<nat>, mints: seq<Mint>, c: seq<nat>) {
    |c| == |ds| && forall j :: 0 <= j < |ds| ==> c[j] == 0 || CountOf(mints, ds[j]) > 0
  }

  /** The count left for denomination d after n passes. */
  function LeftAfter(mints: seq<Mint>, d: nat, c: nat, n: nat): nat {
    if n == 0 then c
    else var l := LeftAfter(mints, d, c, n - 1); l - |First(mints, d, l)|
  }

  /** Some number of passes uses the count up. */
  ghost predicate UsedUp(mints: seq<Mint>, d: nat, c: nat) { exists n :: LeftAfter(mints, d, c, n) == 0 }

  lemma {:induction false} LeftWithout(mints: seq<Mint>, d: nat, c: nat, n: nat)
    requires CountOf(mints, d) == 0
    ensures LeftAfter(mints, d, c, n) == c
  {
    hide First;
    if n > 0 { LeftWithout(mints, d, c, n - 1); }
  }

  lemma {:induction false} LeftWith(mints: seq<Mint>, d: nat, c: nat, n: nat)
    requires CountOf(mints, d) > 0
    ensures LeftAfter(mints, d, c, n) <= if n < c then c - n else 0
  {
    hide First;
    if n > 0 { LeftWith(mints, d, c, n - 1); }
  }

  /** The passes for one denomination use the count up if and only if it is zero or there is an unused mint. */
  lemma CountUsedUpIff(mints: seq<Mint>, d: nat, c: nat)
    ensures UsedUp(mints, d, c) <==> c == 0 || CountOf(mints, d) > 0
  {
    hide First;
    if CountOf(mints, d) > 0 {
      LeftWith(mints, d, c, c);
    } else {
      forall n ensures LeftAfter(mints, d, c, n) == c { LeftWithout(mints, d, c, n); }
      assert LeftAfter(mints, d, c, 0) == c;
    }
  }

  /** The loop over all denominations ends if and only if every one asked for has an unused mint. */
  lemma PassesEndIff(ds: seq<nat>, mints: seq<Mint>, c: seq<nat>)
    requires |c| == |ds|
    ensures Ends(ds, mints, c) <==> forall j :: 0 <= j < |ds| ==> UsedUp(mints, ds[j], c[j])
  {
    hide UsedUp, CountOf;
    forall j | 0 <= j < |ds| ensures UsedUp(mints, ds[j], c[j]) <==> c[j] == 0 || CountOf(mints, ds[j]) > 0 {
      CountUsedUpIff(mints, ds[j], c[j]);
    }
  }

  /** Asked for one coin of a denomination whose only mint is used, the loop never ends. */
  lemma UsedMintNeverEnds(d: nat)
    ensures !Ends([d], [Mint(d, true)], [1])
    ensures !UsedUp([Mint(d, true)], d, 1) && forall n :: LeftAfter([Mint(d, true)], d, 1, n) == 1
  {
    var mints := [Mint(d, true)];
    assert mints[..0] == [] && CountOf(mints[..0], d) == 0 && CountOf(mints, d) == 0;
    forall n ensures LeftAfter(mints, d, 1, n) == 1 { LeftWithout(mints, d, 1, n); }
    assert [d][0] == d && [1][0] == 1;
  }

  ghost function Selected(ds: seq<nat>, mints: seq<Mint>, c: seq<nat>): (r: seq<nat>)
    requires Ends(ds, mints, c)
    ensures |r| == Coins(c)
  {
    if ds == [] then []
    else var n := |ds| - 1; Passes(mints, ds[n], c[n]) + Selected(ds[..n], mints, c[..n])
  }

  ghost function SelectedSum(mints: seq<Mint>, sel: seq<nat>): nat
    requires forall k :: 0 <= k < |sel| ==> sel[k] < |mints|
  {
    if sel == [] then 0 else mints[sel[0]].denom + SelectedSum(mints, sel[1..])
  }

  lemma {:induction false} SelectedSumConcat(mints: seq<Mint>, s: seq<nat>, t: seq<nat>)
    requires (forall k :: 0 <= k < |s| ==> s[k] < |mints|) && (forall k :: 0 <= k < |t| ==> t[k] < |mints|)
    ensures SelectedSum(mints, s + t) == SelectedSum(mints, s) + SelectedSum(mints, t)
  {
    if s == [] {
      assert s + t == t;
    } else {
      assert (s + t)[1..] == s[1..] + t;
      SelectedSumConcat(mints, s[1..], t);
    }
  }

  lemma {:induction false} SameDenomSum(mints: seq<Mint>, sel: seq<nat>, d: nat)
    requires forall k :: 0 <= k < |sel| ==> sel[k] < |mints| && Match(mints[sel[k]], d)
    ensures SelectedSum(mints, sel) == |sel| * d
  {
    if sel != [] {
      SameDenomSum(mints, sel[1..], d);
      assert |sel| * d == (|sel| - 1) * d + d;
    }
  }

  /** Every selected position is an unused mint of one of the denominations asked for, and together they are worth the counts. */
  lemma {:induction false} SelectedWorth(ds: seq<nat>, mints: seq<Mint>, c: seq<nat>)
    requires Ends(ds, mints, c)
    ensures var sel := Selected(ds, mints, c);
            && (forall k :: 0 <= k < |sel| ==> sel[k] < |mints| && !mints[sel[k]].isUsed && mints[sel[k]].denom in ds)
            && SelectedSum(mints, sel) == Total(ds, c)
  {
    hide Passes;
    if ds != [] {
      var n := |ds| - 1;
      var top := Passes(mints, ds[n], c[n]);
      var rest := Selected(ds[..n], mints, c[..n]);
      SelectedWorth(ds[..n], mints, c[..n]);
      SameDenomSum(mints, top, ds[n]);
      SelectedSumConcat(mints, top, rest);
    }
  }

  lemma DistinctConcat(top: seq<nat>, rest: seq<nat>)
    requires Distinct(top) && Distinct(rest) && forall k, l :: 0 <= k < |top| && 0 <= l < |rest| ==> top[k] != rest[l]
    ensures Distinct(top + rest)
  {
  }

  lemma NotBelow(ds: seq<nat>, n: nat)
    requires Distinct(ds) && n < |ds|
    ensures ds[n] !in ds[..n] && Distinct(ds[..n])
  {
  }

  lemma WithinPrefix(ds: seq<nat>, mints: seq<Mint>, c: seq<nat>, n: nat)
    requires Ends(ds, mints, c) && Within(c, Supply(ds, mints)) && n < |ds|
    ensures Ends(ds[..n], mints, c[..n]) && Within(c[..n], Supply(ds[..n], mints)) && c[n] <= CountOf(mints, ds[n])
  {
    hide CountOf;
    assert c[n] <= Supply(ds, mints)[n];
    forall j | 0 <= j < n ensures c[..n][j] <= Supply(ds[..n], mints)[j] { assert c[j] <= Supply(ds, mints)[j]; }
  }

  /** Counts within the supply select every mint at most once. */
  lemma {:induction false} SelectedDistinct(ds: seq<nat>, mints: seq<Mint>, c: seq<nat>)
    requires Distinct(ds) && Ends(ds, mints, c) && Within(c, Supply(ds, mints))
    ensures Distinct(Selected(ds, mints, c))
  {
    hide Passes, CountOf, Supply, Within, Coins;
    if ds != [] {
      var n := |ds| - 1;
      WithinPrefix(ds, mints, c, n);
      NotBelow(ds, n);
      var top := Passes(mints, ds[n], c[n]);
      var rest := Selected(ds[..n], mints, c[..n]);
      SelectedDistinct(ds[..n], mints, c[..n]);
      SelectedWorth(ds[..n], mints, c[..n]);
      hide Distinct, Ends;
      forall k, l | 0 <= k < |top| && 0 <= l < |rest| ensures top[k] != rest[l] {
        assert mints[top[k]].denom == ds[n] && mints[rest[l]].denom in ds[..n];
      }
      TopDistinct(mints, ds[n], c[n]);
      DistinctConcat(top, rest);
    }
  }

  lemma TopDistinct(mints: seq<Mint>, d: nat, c: nat)
    requires c <= CountOf(mints, d)
    ensures Distinct(Passes(mints, d, c))
  {
    hide Passes, CountOf;
  }

  /** The mints collected for a reachable amount are distinct, unused, worth the amount, and as few as any. */
  lemma ExactSelection(ds: seq<nat>, mints: seq<Mint>, t: int)
    requires Chain(ds) && Reachable(ds, mints, t)
    ensures Positive(ds)
    ensures var c := Greedy(ds, Supply(ds, mints), t);
            Ends(ds, mints, c) && ExactFor(ds, mints, Selected(ds, mints, c), t)
  {
    hide Chain, Total, Coins, Greedy, Positive, Divides, Selected;
    ChainDistinct(ds);
    var supply := Supply(ds, mints);
    var c := Greedy(ds, supply, t);
    ReachableIffGreedy(ds, mints, t);
    GreedyWithin(ds, supply, t);
    forall j | 0 <= j < |ds| ensures c[j] == 0 || CountOf(mints, ds[j]) > 0 { assert c[j] <= supply[j]; }
    SelectedWorth(ds, mints, c);
    SelectedDistinct(ds, mints, c);
    forall pick | IsPick(ds, mints, pick) && PickSum(mints, pick) == t ensures Coins(c) <= PickSize(pick) {
      GreedyFewest(ds, mints, pick);
    }
  }

  ghost predicate ExactFor(ds: seq<nat>, mints: seq<Mint>, sel: seq<nat>, t: int) {
    && Distinct(sel) && (forall k :: 0 <= k < |sel| ==> sel[k] < |mints| && !mints[sel[k]].isUsed && mints[sel[k]].denom in ds)
    && SelectedSum(mints, sel) == t
    && (forall pick :: IsPick(ds, mints, pick) && PickSum(mints, pick) == t ==> |sel| <= PickSize(pick))
  }

  /** Some choice of at most limit mints is worth t. */
  ghost predicate ReachableWithin(ds: seq<nat>, mints: seq<Mint>, t: int, limit: nat) {
    exists pick :: IsPick(ds, mints, pick) && PickSum(mints, pick) == t && PickSize(pick) <= limit
  }

  /** The greedy selection stays within a limit exactly when any exact selection does. */
  lemma FewestFit(ds: seq<nat>, mints: seq<Mint>, t: int, limit: nat)
    requires Chain(ds) && Reachable(ds, mints, t)
    ensures Positive(ds)
    ensures Coins(Greedy(ds, Supply(ds, mints), t)) <= limit <==> ReachableWithin(ds, mints, t, limit)
  {
    hide Chain, Total, Coins, Greedy, Positive, Divides;
    ChainDistinct(ds);
    var supply := Supply(ds, mints);
    var g := Greedy(ds, supply, t);
    if ReachableWithin(ds, mints, t, limit) {
      var pick :| IsPick(ds, mints, pick) && PickSum(mints, pick) == t && PickSize(pick) <= limit;
      GreedyFewest(ds, mints, pick);
    }
    if Coins(g) <= limit {
      ReachableIffGreedy(ds, mints, t);
      GreedyWithin(ds, supply, t);
      PickForTotal(ds, mints, g);
      assert Capped(ds, mints, g) == g;
    }
  }

  // ---------------------------------------------------------------- change without limits

  function Unlimited(ds: seq<nat>, t: int): seq<nat> { seq(|ds|, _ => if t < 0 then 0 else t) }

  lemma TakeAll(supply: nat, t: nat, d: nat)
    requires d > 0 && supply >= t
    ensures t - Take(supply, t, d) * d < d
  {
    hide Take;
    var q := Share(t, d);
    TakeShare(supply, t, d, q);
  }

  lemma Share(t: nat, d: nat) returns (q: nat)
    requires d > 0
    ensures q * d <= t < (q + 1) * d
  {
    q := t / d;
    DivBounds(t, d);
  }

  lemma TakeShare(supply: nat, t: nat, d: nat, q: nat)
    requires d > 0 && supply >= t && q * d <= t < (q + 1) * d
    ensures Take(supply, t, d) == q && t - q * d < d
  {
    hide Take;
    MulMono(d, 1, q);
    AddOne(q, d);
    TakeIs(supply, t, d, q);
  }

  /** Without limits, less than the smallest denomination is left over. */
  lemma {:induction false} ChangeLeft(ds: seq<nat>, supply: seq<nat>, t: nat)
    requires Positive(ds) && |ds| == |supply| > 0 && forall j :: 0 <= j < |supply| ==> supply[j] >= t
    ensures 0 <= t - Total(ds, Greedy(ds, supply, t)) < ds[0]
  {
    hide Total, Coins, Take, Greedy;
    var n := |ds| - 1;
    GreedyTop(ds, supply, t);
    GreedyWithin(ds, supply, t);
    TakeAll(supply[n], t, ds[n]);
    TakeBounds(supply[n], t, ds[n]);
    var r := t - Take(supply[n], t, ds[n]) * ds[n];
    if n > 0 {
      ChangeLeft(ds[..n], supply[..n], r);
    }
  }

  lemma {:induction false} TotalMultiple(ds: seq<nat>, c: seq<nat>, d: nat)
    requires |ds| == |c| && d > 0 && forall j :: 0 <= j < |ds| ==> Divides(d, ds[j])
    ensures Total(ds, c) % d == 0
  {
    hide Divides;
    if ds != [] {
      var n := |ds| - 1;
      TotalMultiple(ds[..n], c[..n], d);
      DividesProduct(d, ds[n], c[n]);
      SumMultiple(d, Total(ds[..n], c[..n]), c[n] * ds[n]);
    }
  }

  lemma SumMultiple(d: nat, a: nat, b: nat)
    requires d > 0 && a % d == 0 && Divides(d, b)
    ensures (a + b) % d == 0
  {
    var k: nat :| b == Times(k, d);
    RemainderZero(d, a / d + k);
    assert (a / d) * d == a;
    assert (a / d + k) * d == a + b;
  }

  lemma RemainderZero(d: nat, k: nat)
    requires d > 0
    ensures (k * d) % d == 0
  {
    var q, r := (k * d) / d, (k * d) % d;
    assert k * d == q * d + r;
    if q < k { MulMono(k, q + 1, d); }
    if q > k { MulMono(q, k + 1, d); }
  }

  /** Change for a multiple of the smallest denomination is exact, and uses the fewest coins of all. */
  lemma ChangeExact(ds: seq<nat>, t: nat)
    requires Chain(ds) && ds != [] && ds[0] > 0 && t % ds[0] == 0
    ensures Positive(ds)
    ensures var c := Greedy(ds, Unlimited(ds, t), t);
            && Total(ds, c) == t
            && forall e :: |e| == |ds| && Total(ds, e) == t ==> Coins(c) <= Coins(e)
  {
    hide Chain, Total, Coins, Greedy, Positive, Divides;
    ChainDistinct(ds);
    var supply := Unlimited(ds, t);
    var c := Greedy(ds, supply, t);
    ChangeLeft(ds, supply, t);
    SmallestDivides(ds);
    TotalMultiple(ds, c, ds[0]);
    MultiplesApart(ds[0], t, Total(ds, c));
    forall e | |e| == |ds| && Total(ds, e) == t ensures Coins(c) <= Coins(e) {
      CountsBelow(ds, e);
      GreedyReaches(ds, supply, e, t);
    }
  }

  lemma MultiplesApart(d: nat, a: nat, b: nat)
    requires d > 0 && a % d == 0 && b % d == 0 && b <= a < b + d
    ensures a == b
  {
    assert a == (a / d) * d && b == (b / d) * d;
    if a / d > b / d { MulMono(a / d, b / d + 1, d); }
    if a / d < b / d { MulMono(b / d, a / d + 1, d); }
  }

  lemma SmallestDivides(ds: seq<nat>)
    requires Chain(ds) && ds != []
    ensures forall j :: 0 <= j < |ds| ==> Divides(ds[0], ds[j])
  {
    hide Divides;
    DividesItself(ds[0]);
  }

  lemma DividesItself(d: nat)
    requires d > 0
    ensures Divides(d, d)
  {
    assert d == Times(1, d);
  }

  lemma {:induction false} CountsBelow(ds: seq<nat>, e: seq<nat>)
    requires Positive(ds) && |e| == |ds|
    ensures forall j :: 0 <= j < |e| ==> e[j] <= Total(ds, e)
  {
    if ds != [] {
      var n := |ds| - 1;
      CountsBelow(ds[..n], e[..n]);
      MulMono(ds[n], 1, e[n]);
      forall j | 0 <= j < |e| ensures e[j] <= Total(ds, e) {
        if j < n { assert e[..n][j] == e[j]; }
      }
    }
  }
}
