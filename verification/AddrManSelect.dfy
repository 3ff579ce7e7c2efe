/**
 Select_: the search for an address to connect to, with the odds as real numbers. Random slots and
 draws are arbitrary; the growing factor makes every search end with the 45th candidate at the latest.
 */
module AddrManSelect {
  import opened Basics
  import opened AddrManModel
  import opened AddrManInvariant
  import opened AddrManOperations

  function Power(x: real, n: nat): real {
    if n == 0 then 1.0 else x * Power(x, n - 1)
  }

  /** 0.66 to an integer power. */
  function Penalty(n: int): real {
    if n >= 0 then Power(0.66, n) else Power(1.0 / 0.66, -n)
  }

  /** The relative chance an entry is given. */
  function GetChance(i: Info, now: int): real {
    (if Max(0, now - i.lastTry) < 600 then 0.01 else 1.0) * Penalty(if i.attempts < 8 then i.attempts else 8)
  }

  const DRAWS: nat := 0x4000_0000

  /** What the draw is compared with. */
  function Odds(factor: real, i: Info, now: int): real { factor * GetChance(i, now) * (DRAWS as real) }

  /** The k-th candidate of the search is taken. */
  predicate Accepted(i: Info, k: nat, draw: nat, now: int) { draw as real < Odds(Power(1.2, k), i, now) }

  /** The tried table is searched. */
  predicate SearchesTried(s: State, newOnly: bool, coin: bool) {
    !newOnly && s.nTried > 0 && (s.nNew == 0 || coin)
  }

  predicate NothingToSelect(s: State, newOnly: bool) {
    |s.random| == 0 || (newOnly && s.nNew == 0)
  }

  /** The table the search goes through. */
  function Searched(s: State, newOnly: bool, coin: bool): seq<int> {
    if SearchesTried(s, newOnly, coin) then s.triedTab else s.newTab
  }

  /** The search from candidate k on: `slots(k)` is the occupied slot that the k-th walk ends at. */
  function Search(s: State, tab: seq<int>, slots: nat -> nat, draws: nat -> nat, now: int, k: nat, last: nat): Option<int>
    requires forall j :: slots(j) < |tab|
    decreases last - k
  {
    if Accepted(InfoOf(s, tab[slots(k)]), k, draws(k), now) then Some(tab[slots(k)])
    else if k >= last then None
    else Search(s, tab, slots, draws, now, k + 1, last)
  }

  // ---------------------------------------------------------------- powers

  lemma {:induction false} PowerAdd(x: real, m: nat, n: nat)
    ensures Power(x, m + n) == Power(x, m) * Power(x, n)
  {
    if m > 0 { PowerAdd(x, m - 1, n); }
  }

  lemma {:induction false} PowerInUnit(x: real, n: nat)
    requires 0.0 < x <= 1.0
    ensures 0.0 < Power(x, n) <= 1.0
  {
    if n > 0 {
      PowerInUnit(x, n - 1);
      Shrinks(x, Power(x, n - 1));
    }
  }

  lemma SearchNext(s: State, tab: seq<int>, slots: nat -> nat, draws: nat -> nat, now: int, k: nat)
    requires (forall j :: slots(j) < |tab|) && draws(k) < DRAWS && k <= 44
    ensures var accepted := draws(k) as real < Odds(Power(1.2, k), InfoOf(s, tab[slots(k)]), now);
            && (accepted ==> Search(s, tab, slots, draws, now, k, 44) == Some(tab[slots(k)]))
            && (!accepted ==> k < 44 && Search(s, tab, slots, draws, now, k, 44) == Search(s, tab, slots, draws, now, k + 1, 44))
  {
    hide Power, Odds;
    if k == 44 { LastIsAccepted(InfoOf(s, tab[slots(k)]), draws(k), now); }
  }

  lemma PowerFrom(k: nat)
    ensures Power(1.2, 0) == 1.0 && Power(1.2, k + 1) == Power(1.2, k) * 1.2
  {
  }

  lemma {:induction false} PowerFalls(x: real, m: nat, n: nat)
    requires 0.0 < x <= 1.0 && m <= n
    ensures 0.0 < Power(x, n) <= Power(x, m) <= 1.0
    decreases n - m
  {
    hide Power;
    PowerInUnit(x, n);
    PowerInUnit(x, m);
    if m < n {
      PowerFalls(x, m, n - 1);
      PowerLess(x, n);
    }
  }

  lemma PowerLess(x: real, n: nat)
    requires 0.0 < x <= 1.0 && n > 0
    ensures Power(x, n) <= Power(x, n - 1)
  {
    PowerInUnit(x, n - 1);
    Shrinks(x, Power(x, n - 1));
  }

  lemma Shrinks(x: real, y: real)
    requires 0.0 < x <= 1.0 && 0.0 < y
    ensures 0.0 < x * y <= y
  {
  }

  lemma {:induction false} PowerRises(x: real, n: nat)
    requires x >= 1.0
    ensures Power(x, n) >= 1.0
  {
    if n > 0 { PowerRises(x, n - 1); AtLeastOne(x, Power(x, n - 1)); }
  }

  lemma AtLeastOne(x: real, y: real)
    requires x >= 1.0 && y >= 1.0
    ensures x * y >= 1.0
  {
  }

  /** After 44 rejections the factor makes up for the smallest chance. */
  lemma FactorSuffices()
    ensures Power(1.2, 44) * 0.00036 > 1.0
    ensures Power(0.66, 8) >= 0.036
  {
    var p4 := Power(1.2, 4);
    assert p4 == 2.0736;
    PowerAdd(1.2, 4, 4);
    PowerAdd(1.2, 8, 8);
    PowerAdd(1.2, 16, 16);
    PowerAdd(1.2, 32, 8);
    PowerAdd(1.2, 40, 4);
    assert Power(0.66, 4) == 0.18974736;
    PowerAdd(0.66, 4, 4);
  }

  // ---------------------------------------------------------------- chances

  /** Every entry keeps a chance; one not tried lately that never failed is taken at once. */
  lemma ChanceBounds(i: Info, now: int)
    ensures GetChance(i, now) >= 0.00036
    ensures i.attempts >= 0 ==> GetChance(i, now) <= 1.0
    ensures i.attempts <= 0 && now - i.lastTry >= 600 ==> GetChance(i, now) >= 1.0
  {
    hide Power;
    FactorSuffices();
    var n := if i.attempts < 8 then i.attempts else 8;
    PenaltyBounds(n);
  }

  lemma PenaltyBounds(n: int)
    requires n <= 8
    ensures Penalty(n) >= 0.036
    ensures n >= 0 ==> Penalty(n) <= 1.0
    ensures n <= 0 ==> Penalty(n) >= 1.0
  {
    hide Power;
    FactorSuffices();
    if n >= 0 { PowerFalls(0.66, n, 8); }
    if n <= 0 { PowerRises(1.0 / 0.66, -n); PowerZero(); }
  }

  lemma PowerZero()
    ensures Power(0.66, 0) == 1.0
  {
  }

  /** More failed attempts never help, and a recent attempt costs 99% of the chance. */
  lemma ChanceFalls(i: Info, j: Info, now: int)
    requires 0 <= i.attempts <= j.attempts && i.lastTry <= j.lastTry
    ensures GetChance(j, now) <= GetChance(i, now)
  {
    hide Power;
    var m, n := if i.attempts < 8 then i.attempts else 8, if j.attempts < 8 then j.attempts else 8;
    PowerFalls(0.66, m, n);
  }

  /** The 45th candidate is taken whatever is drawn. */
  lemma LastIsAccepted(i: Info, draw: nat, now: int)
    requires draw < DRAWS
    ensures Accepted(i, 44, draw, now)
  {
    hide Power, GetChance;
    ChanceBounds(i, now);
    FactorSuffices();
    Enough(Power(1.2, 44), GetChance(i, now), draw);
  }

  lemma Enough(p: real, c: real, draw: nat)
    requires p * 0.00036 > 1.0 && c >= 0.00036 && draw < DRAWS
    ensures draw as real < p * c * (DRAWS as real)
  {
    var d := DRAWS as real;
    assert p > 1.0;
    assert p * (c - 0.00036) >= 0.0;
    assert p * c > 1.0;
    assert (p * c - 1.0) * d > 0.0;
  }

  lemma {:induction false} SearchFinds(s: State, tab: seq<int>, slots: nat -> nat, draws: nat -> nat, now: int, k: nat)
    returns (n: nat)
    requires k <= 44 && (forall j :: slots(j) < |tab|) && (forall j :: draws(j) < DRAWS)
    ensures k <= n <= 44 && Search(s, tab, slots, draws, now, k, 44) == Some(tab[slots(n)])
    ensures Accepted(InfoOf(s, tab[slots(n)]), n, draws(n), now)
    ensures forall j :: k <= j < n ==> !Accepted(InfoOf(s, tab[slots(j)]), j, draws(j), now)
    decreases 44 - k
  {
    hide Accepted;
    if Accepted(InfoOf(s, tab[slots(k)]), k, draws(k), now) {
      n := k;
    } else {
      if k == 44 { LastIsAccepted(InfoOf(s, tab[slots(44)]), draws(44), now); }
      n := SearchFinds(s, tab, slots, draws, now, k + 1);
    }
  }

  // ---------------------------------------------------------------- what is selected

  /** A table that is searched has an occupied slot to stop at. */
  lemma SomethingToStopAt(s: State, newOnly: bool, coin: bool)
    requires Inv(s) && !NothingToSelect(s, newOnly)
    ensures exists i :: 0 <= i < |Searched(s, newOnly, coin)| && Searched(s, newOnly, coin)[i] != EMPTY
  {
    hide PendingOk, TriedSlot;
    if SearchesTried(s, newOnly, coin) {
      var id := TriedEntry(s);
      var i := TriedSlot(s.env, s.key, s.infos[id].service);
      assert Searched(s, newOnly, coin)[i] != EMPTY;
    } else {
      SomeEntryCounts(s);
      var id := NewEntry(s);
      UntriedIsInSomeBucket(s, id);
      var i := SlotOf(s, id);
      assert Searched(s, newOnly, coin)[i] != EMPTY;
    }
  }

  lemma TriedEntry(s: State) returns (id: int)
    requires Inv(s) && s.nTried > 0
    ensures id in s.infos && s.infos[id].inTried && id != EMPTY
    ensures s.triedTab[TriedSlot(s.env, s.key, s.infos[id].service)] == id
  {
    hide RandomOk, AddrOk, NewOk, RefOk, PendingOk, TriedSlot;
    id := AnyOf(TriedIds(s.infos));
  }

  lemma NewEntry(s: State) returns (id: int)
    requires Inv(s) && s.nNew > 0
    ensures id in s.infos && !s.infos[id].inTried && id != EMPTY
  {
    hide RandomOk, AddrOk, NewOk, RefOk, TriedOk, PendingOk;
    assert NewIds(s.infos) - {} == NewIds(s.infos);
    id := AnyOf(NewIds(s.infos));
  }

  lemma SlotOf(s: State, id: int) returns (i: nat)
    requires Shape(s) && id in s.infos && InSomeBucket(s, id, s.infos[id].service)
    ensures i < NEW_SLOTS && s.newTab[i] == id
  {
    hide NewSlot;
    var b: nat :| b < NEW_BUCKET_COUNT && s.newTab[NewSlot(s.env, s.key, b, s.infos[id].service)] == id;
    i := NewSlot(s.env, s.key, b, s.infos[id].service);
  }

  lemma MemberCounts<T>(a: set<T>, x: T)
    requires x in a
    ensures |a| > 0
  {
  }

  lemma SomeEntryCounts(s: State)
    requires Inv(s) && |s.random| > 0
    ensures s.nTried > 0 || s.nNew > 0
  {
    hide AddrOk, NewOk, RefOk, TriedOk, PendingOk;
    var id := s.random[0];
    assert NewIds(s.infos) - {} == NewIds(s.infos);
    if s.infos[id].inTried { MemberCounts(TriedIds(s.infos), id); } else { MemberCounts(NewIds(s.infos), id); }
  }

  /** Select_ through its branches: nothing, or the first candidate taken. */
  function Select(s: State, newOnly: bool, coin: bool, slots: nat -> nat, draws: nat -> nat, now: int): Option<int>
    requires forall j :: slots(j) < |Searched(s, newOnly, coin)|
  {
    if NothingToSelect(s, newOnly) then None
    else Search(s, Searched(s, newOnly, coin), slots, draws, now, 0, 44)
  }

  /**
   Unless there is nothing to select, one of the first 45 candidates is selected: an entry of the manager,
   which is tried if and only if the tried table is searched, and never when only new ones are wanted.
   */
  lemma SelectFinds(s: State, newOnly: bool, coin: bool, slots: nat -> nat, draws: nat -> nat, now: int)
    requires Inv(s) && (forall j :: draws(j) < DRAWS)
    requires forall j :: slots(j) < |Searched(s, newOnly, coin)|
    requires !NothingToSelect(s, newOnly) ==> forall j :: Searched(s, newOnly, coin)[slots(j)] != EMPTY
    ensures Select(s, newOnly, coin, slots, draws, now).None? <==> |s.random| == 0 || (newOnly && s.nNew == 0)
    ensures var r := Select(s, newOnly, coin, slots, draws, now);
            r.Some? ==> r.value in s.infos && s.infos[r.value].inTried == SearchesTried(s, newOnly, coin)
  {
    hide PendingOk, TriedSlot, Accepted, Search, Ok, Inv;
    if !NothingToSelect(s, newOnly) {
      var n := SearchFinds(s, Searched(s, newOnly, coin), slots, draws, now, 0);
      HeldEntries(s, slots(n));
    }
  }

  lemma HeldEntries(s: State, i: nat)
    requires Inv(s)
    ensures i < |s.triedTab| && s.triedTab[i] != EMPTY ==> s.triedTab[i] in s.infos && s.infos[s.triedTab[i]].inTried
    ensures i < |s.newTab| && s.newTab[i] != EMPTY ==> s.newTab[i] in s.infos && !s.infos[s.newTab[i]].inTried
  {
    hide IdentityOk, RefOk, CountOk, PendingOk, TriedSlot, NewSlot;
  }
}
