/**
 What GetAddr_ answers: the entries of good quality that come first in some order of all entries, and
 every order is the outcome of some random choices.
 */
module AddrManSample {
  import opened Basics
  import opened AddrManModel
  import opened AddrManInvariant
  import opened AddrManOperations
  import opened AddrManCheck

  /** The quality entries along `order` from position n on, after those in got, up to the limit. */
  function Along(s: State, order: seq<int>, n: nat, limit: nat, got: seq<Address>, now: int): (r: seq<Address>)
    requires n <= |order|
    decreases |order| - n
  {
    if n == |order| || |got| >= limit then got else
      var i := InfoOf(s, order[n]);
      Along(s, order, n + 1, limit, if IsTerrible(i, now) then got else got + [Address(i.service, i.services, i.time)], now)
  }

  /** Every entry exactly once. */
  ghost predicate Order(s: State, order: seq<int>) {
    && (forall i :: 0 <= i < |order| ==> order[i] in s.infos)
    && (forall i, j :: 0 <= i < j < |order| ==> order[i] != order[j])
    && (forall id :: id in s.infos ==> id in order)
  }

  ghost predicate SameSeats(s: State, t: State) {
    forall x :: (x in t.infos <==> x in s.infos) && (x in s.infos ==> SameSeat(t.infos[x], s.infos[x]))
  }

  lemma {:induction false} AlongFrame(s: State, t: State, order: seq<int>, n: nat, limit: nat, got: seq<Address>, now: int)
    requires SameSeats(s, t) && n <= |order|
    ensures Along(t, order, n, limit, got, now) == Along(s, order, n, limit, got, now)
    decreases |order| - n
  {
    if n < |order| && |got| < limit {
      var i := InfoOf(s, order[n]);
      AlongFrame(s, t, order, n + 1, limit,
                 if IsTerrible(i, now) then got else got + [Address(i.service, i.services, i.time)], now);
    }
  }

  lemma OrderFrame(s: State, t: State, order: seq<int>)
    requires SameSeats(s, t) && Order(s, order)
    ensures Order(t, order)
  {
    forall id | id in t.infos ensures id in order {
      assert id in s.infos;
    }
  }

  lemma OrderHas(s: State, order: seq<int>, id: int)
    requires Order(s, order) && id in s.infos
    ensures id in order
  {
  }

  lemma OrderAt(s: State, order: seq<int>, n: nat)
    requires Order(s, order) && n < |order|
    ensures order[n] in s.infos && forall i :: 0 <= i < n ==> order[i] != order[n]
  {
  }

  lemma SwapSeats(s: State, i: nat, j: nat)
    requires Inv(s) && i < |s.random| && j < |s.random|
    ensures var t := SwapRandom(s, i, j);
            Inv(t) && SameSeats(s, t) && t.random == s.random[i := s.random[j]][j := s.random[i]]
  {
    hide Ok, PendingOk, TriedSlot;
    OkRandom(s, {}, {});
    SwapRandomInv(s, i, j);
    SwapRandomKeeps(s, i, j);
    var t := SwapRandom(s, i, j);
    forall x ensures x in t.infos <==> x in s.infos {
      assert x in t.infos.Keys <==> x in s.infos.Keys;
    }
  }

  lemma RandomIsOrder(s: State)
    requires Inv(s)
    ensures Order(s, s.random)
  {
    OkRandom(s, {}, {});
    hide Ok, PendingOk;
    forall id | id in s.infos ensures id in s.random {
      assert s.random[s.infos[id].randomPos] == id;
    }
  }

  /** Whatever the random choices, the answer is the quality entries along the order they produce. */
  lemma {:induction false} AnswersAlong(s: State, n: nat, limit: nat, got: seq<Address>, pick: nat -> nat, now: int)
    requires Inv(s) && n <= |s.random|
    ensures var r := GetAddr(s, n, limit, got, pick, now);
            && Inv(r.0) && SameSeats(s, r.0) && |r.0.random| == |s.random|
            && (forall i :: 0 <= i < n ==> r.0.random[i] == s.random[i])
            && r.1 == Along(s, r.0.random, n, limit, got, now)
    decreases |s.random| - n
  {
    hide Inv, SwapRandom, IsTerrible, PickFrom, SameSeats;
    SeatsSelf(s);
    if n < |s.random| && |got| < limit {
      var j := PickFrom(n, |s.random|, pick(n));
      var t := SwapRandom(s, n, j);
      SwapSeats(s, n, j);
      SeatAt(s, t, t.random[n], now);
      var i := InfoOf(t, t.random[n]);
      var got' := if IsTerrible(i, now) then got else got + [Address(i.service, i.services, i.time)];
      AnswersAlong(t, n + 1, limit, got', pick, now);
      var r := GetAddr(t, n + 1, limit, got', pick, now);
      SeatsTrans(s, t, r.0);
      AlongFrame(s, t, r.0.random, n + 1, limit, got', now);
    }
  }

  lemma SeatsSelf(s: State)
    ensures SameSeats(s, s)
  {
  }

  lemma SeatsTrans(s: State, t: State, u: State)
    requires SameSeats(s, t) && SameSeats(t, u)
    ensures SameSeats(s, u)
  {
  }

  lemma SeatAt(s: State, t: State, x: int, now: int)
    requires SameSeats(s, t)
    ensures SameSeat(InfoOf(t, x), InfoOf(s, x)) && IsTerrible(InfoOf(t, x), now) == IsTerrible(InfoOf(s, x), now)
  {
  }

  /** Random choices that agree from position n on lead to the same answer. */
  lemma {:induction false} SameChoices(s: State, n: nat, limit: nat, got: seq<Address>, p: nat -> nat, q: nat -> nat, now: int)
    requires n <= |s.random| && forall m: nat :: m >= n ==> p(m) == q(m)
    ensures GetAddr(s, n, limit, got, p, now) == GetAddr(s, n, limit, got, q, now)
    decreases |s.random| - n
  {
    hide SwapRandom, IsTerrible;
    if n < |s.random| && |got| < limit {
      var t := SwapRandom(s, n, PickFrom(n, |s.random|, p(n)));
      var i := InfoOf(t, t.random[n]);
      SameChoices(t, n + 1, limit, if IsTerrible(i, now) then got else got + [Address(i.service, i.services, i.time)], p, q, now);
    }
  }

  /** Where the shuffle must reach to continue along `order`. */
  lemma NextOf(s: State, order: seq<int>, n: nat) returns (j: nat)
    requires Order(s, order) && Order(s, s.random) && n < |order| && n < |s.random|
    requires forall i :: 0 <= i < n ==> s.random[i] == order[i]
    ensures n <= j < |s.random| && s.random[j] == order[n]
  {
    hide Order;
    OrderAt(s, order, n);
    OrderHas(s, s.random, order[n]);
    j :| j < |s.random| && s.random[j] == order[n];
  }

  lemma PickReaches(n: nat, j: nat, size: nat)
    requires n <= j < size
    ensures PickFrom(n, size, j - n) == j
  {
  }

  /** Every order of the entries is produced by some random choices. */
  lemma {:induction false} AnyOrderComesOut(s: State, order: seq<int>, n: nat, limit: nat, got: seq<Address>, now: int)
    returns (pick: nat -> nat)
    requires Inv(s) && Order(s, order) && |order| == |s.random| && n <= |order|
    requires forall i :: 0 <= i < n ==> s.random[i] == order[i]
    ensures GetAddr(s, n, limit, got, pick, now).1 == Along(s, order, n, limit, got, now)
    decreases |s.random| - n
  {
    hide Inv, SwapRandom, IsTerrible, SameSeats, Order, PickFrom, SameSeat;
    if n == |s.random| || |got| >= limit {
      pick := m => 0;
    } else {
      RandomIsOrder(s);
      var j := NextOf(s, order, n);
      var t := SwapRandom(s, n, j);
      SwapSeats(s, n, j);
      OrderFrame(s, t, order);
      SeatAt(s, t, order[n], now);
      var i := InfoOf(t, t.random[n]);
      var got' := if IsTerrible(i, now) then got else got + [Address(i.service, i.services, i.time)];
      var rest := AnyOrderComesOut(t, order, n + 1, limit, got', now);
      pick := m => if m == n then j - n else rest(m);
      assert pick(n) == j - n;
      PickReaches(n, j, |s.random|);
      SameChoices(t, n + 1, limit, got', pick, rest, now);
      AlongFrame(s, t, order, n + 1, limit, got', now);
    }
  }

  lemma OrderSize(s: State, order: seq<int>)
    requires Order(s, order)
    ensures |order| == |s.infos.Keys|
  {
    ElementsSize(order);
    forall id | id in s.infos.Keys ensures id in Elements(order) {
      OrderHas(s, order, id);
    }
    forall id | id in Elements(order) ensures id in s.infos.Keys {
    }
    assert Elements(order) == s.infos.Keys;
  }

  ghost predicate ComesOut(s: State, limit: nat, now: int, answer: seq<Address>) {
    exists pick: nat -> nat :: GetAddr(s, 0, limit, [], pick, now).1 == answer
  }

  /** At most 23% of the entries, and at most 2500. */
  lemma LimitIs(s: State)
    requires Inv(s)
    ensures var n := |s.infos.Keys|;
            GetAddrLimit(s) == if n < 10870 then 23 * n / 100 else 2500
  {
    OkRandom(s, {}, {});
    RandomSize(s);
  }

  /** The possible answers of GetAddr_ are exactly the quality entries, up to the limit, of every order. */
  lemma AnswersExactly(s: State, limit: nat, now: int, answer: seq<Address>)
    requires Inv(s)
    ensures ComesOut(s, limit, now, answer) <==>
            exists order :: Order(s, order) && Along(s, order, 0, limit, [], now) == answer
  {
    hide Inv, Order, SameSeats;
    RandomIsOrder(s);
    OrderSize(s, s.random);
    if ComesOut(s, limit, now, answer) {
      var pick: nat -> nat :| GetAddr(s, 0, limit, [], pick, now).1 == answer;
      AnswersAlong(s, 0, limit, [], pick, now);
      var t := GetAddr(s, 0, limit, [], pick, now).0;
      RandomIsOrder(t);
      SeatsBack(s, t);
      OrderFrame(t, s, t.random);
    }
    if order :| Order(s, order) && Along(s, order, 0, limit, [], now) == answer {
      OrderSize(s, order);
      var pick := AnyOrderComesOut(s, order, 0, limit, [], now);
    }
  }

  lemma SeatsBack(s: State, t: State)
    requires SameSeats(s, t)
    ensures SameSeats(t, s)
  {
  }

  // ---------------------------------------------------------------- what such an answer holds

  function AddressOf(s: State, id: int): Address {
    var i := InfoOf(s, id);
    Address(i.service, i.services, i.time)
  }

  predicate IsQuality(s: State, id: int, now: int) {
    id in s.infos && !IsTerrible(s.infos[id], now)
  }

  /** got reports the quality entries among the first n of order, each once. */
  ghost predicate Reports(s: State, order: seq<int>, n: nat, got: seq<Address>, now: int) {
    && n <= |order|
    && (forall k :: 0 <= k < |got| ==> Reported(s, order, n, got[k], now))
    && (forall k, m :: 0 <= k < m < |got| ==> got[k].service.host != got[m].service.host)
    && (forall i :: 0 <= i < n && IsQuality(s, order[i], now) ==> AddressOf(s, order[i]) in got)
  }

  ghost predicate ReportedAt(s: State, order: seq<int>, n: nat, a: Address, i: int, now: int) {
    0 <= i < n <= |order| && IsQuality(s, order[i], now) && a == AddressOf(s, order[i])
  }

  ghost predicate Reported(s: State, order: seq<int>, n: nat, a: Address, now: int) {
    exists i :: ReportedAt(s, order, n, a, i, now)
  }

  lemma ReportNext(s: State, order: seq<int>, n: nat, got: seq<Address>, now: int)
    requires Inv(s) && Order(s, order) && n < |order| && Reports(s, order, n, got, now)
    ensures Reports(s, order, n + 1, if IsQuality(s, order[n], now) then got + [AddressOf(s, order[n])] else got, now)
  {
    hide Inv, IsTerrible;
    var next := if IsQuality(s, order[n], now) then got + [AddressOf(s, order[n])] else got;
    forall k | 0 <= k < |next| ensures Reported(s, order, n + 1, next[k], now) {
      if k < |got| {
        assert Reported(s, order, n, got[k], now);
        var i :| ReportedAt(s, order, n, got[k], i, now);
        assert ReportedAt(s, order, n + 1, next[k], i, now);
      } else {
        assert ReportedAt(s, order, n + 1, next[k], n, now);
      }
    }
    forall k | 0 <= k < |got| ensures IsQuality(s, order[n], now) ==> got[k].service.host != s.infos[order[n]].service.host {
      assert Reported(s, order, n, got[k], now);
      var i :| ReportedAt(s, order, n, got[k], i, now);
      if IsQuality(s, order[n], now) { OrderAt(s, order, n); HostsDiffer(s, order[i], order[n]); }
    }
    forall i | 0 <= i < n + 1 && IsQuality(s, order[i], now) ensures AddressOf(s, order[i]) in next {
      if i == n { assert next[|got|] == AddressOf(s, order[i]); }
    }
  }

  lemma HostsDiffer(s: State, x: int, y: int)
    requires Inv(s) && x in s.infos && y in s.infos && x != y
    ensures s.infos[x].service.host != s.infos[y].service.host
  {
    hide RandomOk, IdsOk, NewOk, TriedOk, RefOk, CountOk, PendingOk;
  }

  lemma {:induction false} AlongReports(s: State, order: seq<int>, n: nat, limit: nat, got: seq<Address>, now: int)
    requires Inv(s) && Order(s, order) && Reports(s, order, n, got, now) && |got| <= limit
    ensures var r := Along(s, order, n, limit, got, now);
            && |r| <= limit
            && (exists m: nat :: Reports(s, order, m, r, now) && (|r| < limit ==> m == |order|))
    decreases |order| - n
  {
    hide Inv, Order, Reports, IsTerrible;
    ReportsRange(s, order, n, got, now);
    if n < |order| && |got| < limit {
      OrderAt(s, order, n);
      ReportNext(s, order, n, got, now);
      AlongReports(s, order, n + 1, limit, if IsQuality(s, order[n], now) then got + [AddressOf(s, order[n])] else got, now);
    }
  }

  lemma ReportsRange(s: State, order: seq<int>, n: nat, got: seq<Address>, now: int)
    requires Reports(s, order, n, got, now)
    ensures n <= |order|
  {
  }

  /** The address belongs to an entry of good quality. */
  ghost predicate OfQuality(s: State, a: Address, now: int) {
    exists id :: IsQuality(s, id, now) && a == AddressOf(s, id)
  }

  /** Addresses of quality entries, no host twice. */
  ghost predicate QualityOnly(s: State, got: seq<Address>, now: int) {
    && (forall k :: 0 <= k < |got| ==> OfQuality(s, got[k], now))
    && (forall k, m :: 0 <= k < m < |got| ==> got[k].service.host != got[m].service.host)
  }

  lemma ReportsMean(s: State, order: seq<int>, m: nat, got: seq<Address>, now: int)
    requires Order(s, order) && Reports(s, order, m, got, now)
    ensures QualityOnly(s, got, now)
    ensures m == |order| ==> forall id :: IsQuality(s, id, now) ==> AddressOf(s, id) in got
  {
    hide IsTerrible, Order, AddressOf;
    forall k | 0 <= k < |got| ensures OfQuality(s, got[k], now) {
      assert Reported(s, order, m, got[k], now);
      var i :| ReportedAt(s, order, m, got[k], i, now);
      assert IsQuality(s, order[i], now);
    }
    forall id | m == |order| && IsQuality(s, id, now) ensures AddressOf(s, id) in got {
      OrderHas(s, order, id);
      var i :| 0 <= i < |order| && order[i] == id;
    }
  }

  /**
   Whatever the random choices: GetAddr_ answers with addresses of known entries of good quality, no host
   twice, no more than the limit, and with all of them if the limit is not reached.
   */
  lemma GetAddrAnswers(s: State, limit: nat, pick: nat -> nat, now: int)
    requires Inv(s)
    ensures var got := GetAddr(s, 0, limit, [], pick, now).1;
            && |got| <= limit && QualityOnly(s, got, now)
            && (|got| < limit ==> forall id :: IsQuality(s, id, now) ==> AddressOf(s, id) in got)
  {
    hide Inv, Order, SameSeats, IsQuality, QualityOnly, Reports, GetAddr, Along, AddressOf;
    var got := GetAddr(s, 0, limit, [], pick, now).1;
    assert ComesOut(s, limit, now, got);
    AnswersExactly(s, limit, now, got);
    var order :| Order(s, order) && Along(s, order, 0, limit, [], now) == got;
    NothingReported(s, order, now);
    AlongReports(s, order, 0, limit, [], now);
    var m: nat :| Reports(s, order, m, got, now) && (|got| < limit ==> m == |order|);
    ReportsMean(s, order, m, got, now);
  }

  lemma NothingReported(s: State, order: seq<int>, now: int)
    ensures Reports(s, order, 0, [], now)
  {
  }
}
