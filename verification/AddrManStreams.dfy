/**
 How the state before pruning reflects the stream it was read from: every new entry is there, every
 tried entry finds its slot taken by itself or another, and only listed entries have references.
 */
module AddrManStreams {
  import opened AddrManModel
  import opened AddrManInvariant
  import opened AddrManOperations
  import opened AddrManDisk
  import opened AddrManLoad

  // ---------------------------------------------------------------- what the sections of a stream say

  ghost predicate IsEntry(tokens: seq<Token>, k: int, a: Service) {
    0 <= k < |tokens| && tokens[k].TEntry? && tokens[k].record.service == a
  }

  /** One of the next n numbers is x. */
  ghost predicate ListRefers(rest: seq<Token>, n: int, x: int)
    decreases n
  {
    n > 0 && rest != [] && rest[0].TNum? && (rest[0].num == x || ListRefers(rest[1..], n - 1, x))
  }

  function Behind(rest: seq<Token>, n: int): seq<Token> { if n <= 0 then rest else if n <= |rest| then rest[n..] else [] }

  /** One of the buckets from b on lists x. */
  ghost predicate BucketsRefer(rest: seq<Token>, b: nat, count: int, x: int)
    decreases count - b
  {
    b < count && rest != [] && rest[0].TNum?
    && (ListRefers(rest[1..], rest[0].num, x) || BucketsRefer(Behind(rest[1..], rest[0].num), b + 1, count, x))
  }

  // ---------------------------------------------------------------- the new entries

  /** Entry x has the address of its place in the stream, counted from n. */
  ghost predicate ReadAt(t: State, rest: seq<Token>, n: int, x: int) {
    0 <= x - n < |rest| && rest[x - n].TEntry? && x in t.infos && t.infos[x].service == rest[x - n].record.service
  }

  /** Entries n to count come from the stream in order; earlier ones stay. */
  ghost predicate NewTrace(s: State, rest: seq<Token>, n: nat, count: nat, usable: bool, r: Reading) {
    && r.Read? && n <= count && count - n <= |rest| && r.rest == rest[count - n..]
    && r.s.nNew == s.nNew && r.s.nTried == s.nTried && r.s.env == s.env && r.s.key == s.key
    && (forall x :: n <= x < count ==> ReadAt(r.s, rest, n, x) && (usable ==> r.s.infos[x].refCount == 0))
    && (forall x :: x in s.infos && x < n && usable ==> x in r.s.infos && r.s.infos[x] == s.infos[x])
    && (forall x :: x in s.infos && x < n ==> x in r.s.infos && r.s.infos[x].service == s.infos[x].service)
  }

  lemma {:induction false} ReadNewTrace(s: State, rest: seq<Token>, n: nat, count: nat, usable: bool)
    requires NewPhase(s, n) && n <= count && ReadNew(s, rest, n, count, usable).Read?
    ensures var r := ReadNew(s, rest, n, count, usable); NewPhase(r.s, count) && NewTrace(s, rest, n, count, usable, r)
    decreases count - n
  {
    hide NewPhase, LoadNew;
    if n < count {
      var e := rest[0].record;
      LoadNewPhase(s, n, e, usable);
      var t := LoadNew(s, n, e, usable);
      ReadNewTrace(t, rest[1..], n + 1, count, usable);
      hide ReadNew;
      LoadNewEffect(s, n, e, usable);
      NewTraceStep(s, t, rest, n, count, usable, ReadNew(t, rest[1..], n + 1, count, usable));
      ReadNewUnfold(s, rest, n, count, usable);
    }
  }

  lemma ReadNewUnfold(s: State, rest: seq<Token>, n: nat, count: int, usable: bool)
    requires n < count && rest != [] && rest[0].TEntry?
    ensures ReadNew(s, rest, n, count, usable) == ReadNew(LoadNew(s, n, rest[0].record, usable), rest[1..], n + 1, count, usable)
  {
    hide LoadNew;
  }

  lemma LoadNewEffect(s: State, n: nat, e: Record, usable: bool)
    requires Shape(s)
    ensures var t := LoadNew(s, n, e, usable);
            && t.nNew == s.nNew && t.nTried == s.nTried && t.env == s.env && t.key == s.key
            && n in t.infos && t.infos[n].service == e.service && !t.infos[n].inTried && (usable ==> t.infos[n].refCount == 0)
            && (forall x :: x in s.infos && x != n ==> x in t.infos && t.infos[x] == s.infos[x])
  {
    hide NewSlot, NewBucket;
  }

  lemma TraceReads(s: State, rest: seq<Token>, n: nat, count: nat, usable: bool, r: Reading, x: int)
    requires NewTrace(s, rest, n, count, usable, r) && n <= x < count
    ensures 0 <= x - n < |rest| && rest[x - n].TEntry? && x in r.s.infos && r.s.infos[x].service == rest[x - n].record.service
    ensures usable ==> r.s.infos[x].refCount == 0
  {
    assert ReadAt(r.s, rest, n, x);
  }

  lemma TraceKeeps(s: State, rest: seq<Token>, n: nat, count: nat, usable: bool, r: Reading, x: int)
    requires NewTrace(s, rest, n, count, usable, r) && x in s.infos && x < n
    ensures x in r.s.infos && r.s.infos[x].service == s.infos[x].service && (usable ==> r.s.infos[x] == s.infos[x])
  {
  }

  lemma NewTraceStep(s: State, t: State, rest: seq<Token>, n: nat, count: nat, usable: bool, r: Reading)
    requires n < count && rest != [] && rest[0].TEntry? && NewTrace(t, rest[1..], n + 1, count, usable, r)
    requires t.nNew == s.nNew && t.nTried == s.nTried && t.env == s.env && t.key == s.key
    requires n in t.infos && t.infos[n].service == rest[0].record.service && (usable ==> t.infos[n].refCount == 0)
    requires forall x :: x in s.infos && x != n ==> x in t.infos && t.infos[x] == s.infos[x]
    ensures NewTrace(s, rest, n, count, usable, r)
  {
    assert rest[1..][count - (n + 1)..] == rest[count - n..];
    forall x | n <= x < count ensures ReadAt(r.s, rest, n, x) && (usable ==> r.s.infos[x].refCount == 0) {
      if x > n {
        assert ReadAt(r.s, rest[1..], n + 1, x);
      } else {
        TraceKeeps(t, rest[1..], n + 1, count, usable, r, x);
      }
    }
  }

  // ---------------------------------------------------------------- the tried entries

  /** Some entry among the next m has this address. */
  ghost predicate Comes(rest: seq<Token>, m: int, a: Service) {
    exists k :: 0 <= k < m && IsEntry(rest, k, a)
  }

  /** The tried slot that e hashes to is occupied. */
  ghost predicate SlotTaken(s: State, e: Service) { Shape(s) && s.triedTab[TriedSlot(s.env, s.key, e)] != EMPTY }

  /** Known entries stay, added ones come from the stream, and every slot an entry of it hashes to is taken. */
  ghost predicate TriedTrace(s: State, rest: seq<Token>, m: nat, r: Reading)
    requires Shape(s)
  {
    && r.Read? && Shape(r.s) && m <= |rest| && r.rest == rest[m..]
    && r.s.nNew == s.nNew && r.s.env == s.env && r.s.key == s.key
    && (forall x :: x in s.infos ==> x in r.s.infos && r.s.infos[x] == s.infos[x])
    && (forall x :: x in r.s.infos && x !in s.infos ==> r.s.infos[x].inTried && Comes(rest, m, r.s.infos[x].service))
    && (forall k :: 0 <= k < m ==> rest[k].TEntry? && SlotTaken(r.s, rest[k].record.service))
    && (forall i :: 0 <= i < TRIED_SLOTS && s.triedTab[i] != EMPTY ==> r.s.triedTab[i] != EMPTY)
  }

  lemma {:induction false} ReadTriedTrace(s: State, rest: seq<Token>, n: nat, count: nat)
    requires n <= count && TriedPhase(s, count - n)
    requires Shape(s) && ReadTried(s, rest, n, count).Read?
    ensures var r := ReadTried(s, rest, n, count); TriedPhase(r.s, 0) && TriedTrace(s, rest, count - n, r)
    decreases count - n
  {
    hide TriedPhase, LoadTried;
    if n < count {
      var e := rest[0].record;
      LoadTriedPhase(s, count - n, e);
      var t := LoadTried(s, e);
      ReadTriedTrace(t, rest[1..], n + 1, count);
      PhaseFresh(s, count - n);
      hide ReadTried;
      LoadTriedEffect(s, e);
      TriedTraceStep(s, t, rest, count - n, ReadTried(t, rest[1..], n + 1, count));
      ReadTriedUnfold(s, rest, n, count);
    }
  }

  lemma ReadTriedUnfold(s: State, rest: seq<Token>, n: nat, count: int)
    requires Shape(s) && n < count && rest != [] && rest[0].TEntry?
    ensures ReadTried(s, rest, n, count) == ReadTried(LoadTried(s, rest[0].record), rest[1..], n + 1, count)
  {
    hide LoadTried;
  }

  lemma PhaseFresh(s: State, left: int)
    requires TriedPhase(s, left)
    ensures s.idCount !in s.infos && s.idCount != EMPTY
  {
    hide HostsLead, FirstAreNew, RandomOk, NewOk, TriedOk, RefOk, CountOk;
    var F: set<int> :| Placed(Remaining(s, left), F, {});
    FreshId(Remaining(s, left), F, {});
  }

  lemma LoadTriedEffect(s: State, e: Record)
    requires Shape(s) && s.idCount !in s.infos && s.idCount != EMPTY
    ensures var t := LoadTried(s, e); var i := TriedSlot(s.env, s.key, e.service);
            && t.nNew == s.nNew && t.env == s.env && t.key == s.key
            && (forall x :: x in s.infos ==> x in t.infos && t.infos[x] == s.infos[x])
            && (forall x :: x in t.infos && x !in s.infos ==> t.infos[x].inTried && t.infos[x].service == e.service)
            && t.triedTab[i] != EMPTY
            && (forall j :: 0 <= j < TRIED_SLOTS && s.triedTab[j] != EMPTY ==> t.triedTab[j] != EMPTY)
  {
    hide TriedSlot;
  }

  lemma TriedTraceStep(s: State, t: State, rest: seq<Token>, m: nat, r: Reading)
    requires Shape(s) && Shape(t) && m > 0 && rest != [] && rest[0].TEntry? && TriedTrace(t, rest[1..], m - 1, r)
    requires t.nNew == s.nNew && t.env == s.env && t.key == s.key
    requires forall x :: x in s.infos ==> x in t.infos && t.infos[x] == s.infos[x]
    requires forall x :: x in t.infos && x !in s.infos ==> t.infos[x].inTried && t.infos[x].service == rest[0].record.service
    requires t.triedTab[TriedSlot(s.env, s.key, rest[0].record.service)] != EMPTY
    requires forall j :: 0 <= j < TRIED_SLOTS && s.triedTab[j] != EMPTY ==> t.triedTab[j] != EMPTY
    ensures TriedTrace(s, rest, m, r)
  {
    hide TriedSlot;
    assert rest[1..][m - 1..] == rest[m..];
    forall x | x in r.s.infos && x !in s.infos ensures r.s.infos[x].inTried && Comes(rest, m, r.s.infos[x].service) {
      if x in t.infos {
        assert IsEntry(rest, 0, t.infos[x].service);
      } else {
        var k :| 0 <= k < m - 1 && IsEntry(rest[1..], k, r.s.infos[x].service);
        assert IsEntry(rest, k + 1, r.s.infos[x].service);
      }
    }
    forall k | 0 <= k < m
      ensures rest[k].TEntry? && SlotTaken(r.s, rest[k].record.service)
    {
      if k > 0 { assert rest[1..][k - 1] == rest[k]; }
    }
  }

  // ---------------------------------------------------------------- the references

  /** The same entries in the same tables, with no fewer references. */
  ghost predicate SameButRefs(s: State, t: State) {
    && t.infos.Keys == s.infos.Keys && t.triedTab == s.triedTab && t.env == s.env && t.key == s.key && t.nNew == s.nNew
    && forall x :: x in s.infos ==> x in t.infos && SamePlace(s.infos[x], t.infos[x]) && s.infos[x].refCount <= t.infos[x].refCount
  }

  lemma SameButRefsSelf(s: State)
    ensures SameButRefs(s, s)
  {
  }

  lemma SameButRefsTrans(s: State, t: State, u: State)
    requires SameButRefs(s, t) && SameButRefs(t, u)
    ensures SameButRefs(s, u)
  {
  }

  lemma LoadIndexEffect(s: State, b: nat, index: int, usable: bool)
    requires Referable(s) && (usable ==> b < NEW_BUCKET_COUNT)
    ensures Shape(s)
    ensures var t := LoadIndex(s, b, index, usable);
            SameButRefs(s, t) && forall x :: x in s.infos && (x != index || !usable) ==> t.infos[x] == s.infos[x]
  {
    hide NewSlot, Placed, HostsLead, PlaceNew;
    if 0 <= index < s.nNew && usable {
      var i := NewSlot(s.env, s.key, b, InfoOf(s, index).service);
      PlaceFrame(s, i, index);
      PlaceTables(s, i, index);
    }
  }

  lemma PlaceTables(s: State, i: nat, id: int)
    requires Shape(s) && i < NEW_SLOTS
    ensures PlaceNew(s, i, id).triedTab == s.triedTab
  {
  }

  ghost predicate RefTrace(s: State, usable: bool, r: Reading, x: int, refers: bool) {
    && r.Read? && SameButRefs(s, r.s)
    && (x in s.infos && !(usable && refers) ==> r.s.infos[x].refCount == s.infos[x].refCount)
  }

  lemma {:induction false} ReadIndicesTrace(s: State, rest: seq<Token>, b: nat, n: int, usable: bool, x: int)
    requires Referable(s) && (usable ==> b < NEW_BUCKET_COUNT)
    ensures Shape(s)
    ensures var r := ReadIndices(s, rest, b, n, usable);
            r.Read? ==> Referable(r.s) && RefTrace(s, usable, r, x, ListRefers(rest, n, x)) && r.rest == Behind(rest, n)
    decreases n
  {
    hide Referable, LoadIndex;
    SameButRefsSelf(s);
    hide SamePlace;
    ReferableShape(s);
    if n > 0 && rest != [] && rest[0].TNum? {
      LoadIndexPhase(s, b, rest[0].num, usable);
      LoadIndexEffect(s, b, rest[0].num, usable);
      var t := LoadIndex(s, b, rest[0].num, usable);
      ReadIndicesTrace(t, rest[1..], b, n - 1, usable, x);
      var r := ReadIndices(t, rest[1..], b, n - 1, usable);
      if r.Read? {
        SameButRefsTrans(s, t, r.s);
        BehindNext(rest, n);
      }
    }
  }

  lemma BehindNext(rest: seq<Token>, n: int)
    requires n > 0 && rest != []
    ensures Behind(rest[1..], n - 1) == Behind(rest, n)
  {
  }

  lemma ReferableShape(s: State)
    requires Referable(s)
    ensures Shape(s)
  {
  }

  lemma {:induction false} ReadBucketsTrace(s: State, rest: seq<Token>, b: nat, count: int, usable: bool, x: int)
    requires Referable(s) && (usable ==> count == NEW_BUCKET_COUNT)
    ensures Shape(s)
    ensures var r := ReadBuckets(s, rest, b, count, usable);
            r.Read? ==> Referable(r.s) && RefTrace(s, usable, r, x, BucketsRefer(rest, b, count, x))
    decreases count - b
  {
    hide Referable, ReadIndices, ListRefers;
    SameButRefsSelf(s);
    hide SamePlace;
    ReferableShape(s);
    if b < count && rest != [] && rest[0].TNum? {
      ReadIndicesTrace(s, rest[1..], b, rest[0].num, usable, x);
      var r := ReadIndices(s, rest[1..], b, rest[0].num, usable);
      if r.Read? {
        ReadBucketsTrace(r.s, r.rest, b + 1, count, usable, x);
        var t := ReadBuckets(r.s, r.rest, b + 1, count, usable);
        if t.Read? { SameButRefsTrans(s, r.s, t.s); }
      }
    }
  }

  // ---------------------------------------------------------------- everything read

  function NewEntries(tokens: seq<Token>): int
    requires HeaderFits(tokens)
  { tokens[3].num }

  function TriedEntries(tokens: seq<Token>): int
    requires HeaderFits(tokens)
  { tokens[4].num }

  /** Some bucket of the stream lists new entry x. */
  ghost predicate Refers(tokens: seq<Token>, x: int)
    requires HeaderFits(tokens)
  {
    BucketsRefer(Behind(tokens[6..], NewEntries(tokens) + TriedEntries(tokens)), 0, BucketCount(tokens), x)
  }

  /** How the state before pruning reflects the stream. */
  ghost predicate Reflects(tokens: seq<Token>, v: State)
    requires HeaderFits(tokens) && Shape(v)
  {
    var n, m := NewEntries(tokens), TriedEntries(tokens);
    && 0 <= n && 0 <= m && 6 + n + m <= |tokens|
    && (forall x :: 0 <= x < n ==> x in v.infos && !v.infos[x].inTried && IsEntry(tokens, 6 + x, v.infos[x].service))
    && (forall k :: 6 + n <= k < 6 + n + m ==>
          tokens[k].TEntry? && SlotTaken(v, tokens[k].record.service))
    && (forall x :: x in v.infos && !v.infos[x].inTried ==> 0 <= x < n)
    && (forall x :: x in v.infos && v.infos[x].inTried ==> exists k :: 6 + n <= k < 6 + n + m && IsEntry(tokens, k, v.infos[x].service))
    && (forall x :: 0 <= x < n && Usable(tokens) && v.infos[x].refCount != 0 ==> Refers(tokens, x))
  }

  lemma LoadedReflects(env: Oracle, tokens: seq<Token>)
    requires ReadTables(env, tokens).Read? && NewEntries(tokens) >= 0 && TriedEntries(tokens) >= 0
    ensures var v := ReadTables(env, tokens).s; Referable(v) && Shape(v) && v.env == env && Reflects(tokens, v)
  {
    hide ReadNew, ReadTried, ReadBuckets, FlipBit30, NewPhase, TriedPhase, Referable, NewTrace, TriedTrace, Reflects, BucketsRefer;
    var n, m := NewEntries(tokens), TriedEntries(tokens);
    var s := Empty(env, tokens[2].key).(nNew := n, nTried := m);
    StartPhase(env, tokens[2].key, n, m);
    ReadNewTrace(s, tokens[6..], 0, n, Usable(tokens));
    var a := ReadNew(s, tokens[6..], 0, n, Usable(tokens));
    TraceCounts(s, tokens[6..], n, Usable(tokens), a);
    EndOfNew(a.s, n);
    var t := a.s.(idCount := n);
    ReadTriedTrace(t, a.rest, 0, m);
    var c := ReadTried(t, a.rest, 0, m);
    EndOfTried(c.s);
    ReadBucketsTrace(c.s, c.rest, 0, BucketCount(tokens), Usable(tokens), 0);
    forall x ensures Shape(c.s) && Referable(ReadTables(env, tokens).s)
                && RefTrace(c.s, Usable(tokens), ReadTables(env, tokens), x, BucketsRefer(c.rest, 0, BucketCount(tokens), x))
    {
      ReadBucketsTrace(c.s, c.rest, 0, BucketCount(tokens), Usable(tokens), x);
    }
    NewInRange(a.s, n);
    Combine(tokens, s, a, t, c, ReadTables(env, tokens));
  }

  lemma TraceCounts(s: State, rest: seq<Token>, n: nat, usable: bool, r: Reading)
    requires NewTrace(s, rest, 0, n, usable, r)
    ensures r.s.nNew == s.nNew && r.s.nTried == s.nTried
  {
  }

  lemma NewInRange(s: State, n: nat)
    requires NewPhase(s, n)
    ensures Shape(s) && FirstAreNew(s, n) && forall x :: x in s.infos ==> 0 <= x < n
  {
    hide HostsLead, RandomOk, NewOk, TriedOk, RefOk, CountOk;
    var F: set<int> :| Placed(Counted(s, n), F, {});
  }

  /** From the new entries (a, then t) over the tried ones (c) to the references (d). */
  ghost predicate Stages(tokens: seq<Token>, s: State, a: Reading, t: State, c: Reading, d: Reading)
    requires HeaderFits(tokens)
  {
    var n, m := NewEntries(tokens), TriedEntries(tokens);
    && n >= 0 && m >= 0 && NewTrace(s, tokens[6..], 0, n, Usable(tokens), a) && t == a.s.(idCount := n) && Shape(t)
    && TriedTrace(t, a.rest, m, c) && Shape(c.s) && d.Read? && Shape(d.s)
    && (forall x :: RefTrace(c.s, Usable(tokens), d, x, BucketsRefer(c.rest, 0, BucketCount(tokens), x)))
    && FirstAreNew(a.s, n) && (forall x :: x in a.s.infos ==> 0 <= x < n)
  }

  lemma Rests(tokens: seq<Token>, s: State, a: Reading, t: State, c: Reading, d: Reading)
    requires HeaderFits(tokens) && Stages(tokens, s, a, t, c, d)
    ensures var n, m := NewEntries(tokens), TriedEntries(tokens);
            && 6 + n + m <= |tokens| && a.rest == tokens[6 + n..] && c.rest == Behind(tokens[6..], n + m) && d.s.env == s.env && d.s.key == s.key
            && a.s.env == s.env && a.s.key == s.key && SameButRefs(c.s, d.s)
  {
    hide BucketsRefer, FlipBit30, TriedSlot, SamePlace, FirstAreNew, Usable;
    assert RefTrace(c.s, Usable(tokens), d, 0, BucketsRefer(c.rest, 0, BucketCount(tokens), 0));
    var n := NewEntries(tokens);
    assert tokens[6..][n..] == tokens[6 + n..];
    assert tokens[6 + n..][TriedEntries(tokens)..] == tokens[6..][n + TriedEntries(tokens)..];
  }

  lemma CombineNew(tokens: seq<Token>, s: State, a: Reading, t: State, c: Reading, d: Reading, x: int)
    requires HeaderFits(tokens) && Stages(tokens, s, a, t, c, d) && 0 <= x < NewEntries(tokens)
    ensures x in d.s.infos && !d.s.infos[x].inTried && IsEntry(tokens, 6 + x, d.s.infos[x].service)
    ensures Usable(tokens) && d.s.infos[x].refCount != 0 ==> Refers(tokens, x)
  {
    Rests(tokens, s, a, t, c, d);
    hide BucketsRefer, FlipBit30, TriedSlot, SameButRefs, ReadAt;
    TraceReads(s, tokens[6..], 0, NewEntries(tokens), Usable(tokens), a, x);
    assert tokens[6..][x] == tokens[6 + x];
    assert x in t.infos && x in c.s.infos && c.s.infos[x] == a.s.infos[x];
    RefsOf(c.s, d.s, x);
    assert RefTrace(c.s, Usable(tokens), d, x, BucketsRefer(c.rest, 0, BucketCount(tokens), x));
  }

  lemma RefsOf(s: State, t: State, x: int)
    requires SameButRefs(s, t)
    ensures x in s.infos <==> x in t.infos
    ensures x in s.infos ==> SamePlace(s.infos[x], t.infos[x])
  {
    SameKeys(s.infos, t.infos);
  }

  lemma CombineTried(tokens: seq<Token>, s: State, a: Reading, t: State, c: Reading, d: Reading, k: int)
    requires HeaderFits(tokens) && Stages(tokens, s, a, t, c, d)
    requires 6 + NewEntries(tokens) <= k < 6 + NewEntries(tokens) + TriedEntries(tokens)
    ensures k < |tokens| && tokens[k].TEntry? && SlotTaken(d.s, tokens[k].record.service)
  {
    Rests(tokens, s, a, t, c, d);
    StagesShape(tokens, s, a, t, c, d);
    TriedReads(tokens, s, a, t, c, d, k - 6 - NewEntries(tokens));
    hide BucketsRefer, FlipBit30, TriedSlot, NewTrace, RefTrace, TriedTrace, Stages, Usable;
    var l := k - 6 - NewEntries(tokens);
    assert a.rest[l] == tokens[6 + NewEntries(tokens)..][l] == tokens[k];
  }

  lemma TriedReads(tokens: seq<Token>, s: State, a: Reading, t: State, c: Reading, d: Reading, l: nat)
    requires HeaderFits(tokens) && Stages(tokens, s, a, t, c, d) && l < TriedEntries(tokens)
    ensures l < |a.rest| && a.rest[l].TEntry? && c.Read? && SlotTaken(c.s, a.rest[l].record.service)
  {
    hide BucketsRefer, FlipBit30, SlotTaken, NewTrace, RefTrace, Usable;
  }

  lemma CombineIds(tokens: seq<Token>, s: State, a: Reading, t: State, c: Reading, d: Reading, x: int)
    requires HeaderFits(tokens) && Stages(tokens, s, a, t, c, d) && x in d.s.infos
    ensures !d.s.infos[x].inTried ==> 0 <= x < NewEntries(tokens)
    ensures d.s.infos[x].inTried ==> exists k :: 6 + NewEntries(tokens) <= k < 6 + NewEntries(tokens) + TriedEntries(tokens) && IsEntry(tokens, k, d.s.infos[x].service)
  {
    Rests(tokens, s, a, t, c, d);
    hide BucketsRefer, FlipBit30, TriedSlot, NewTrace, RefTrace, SameButRefs;
    RefsOf(c.s, d.s, x);
    if x in t.infos {
      assert x in a.s.infos && c.s.infos[x] == a.s.infos[x];
    } else {
      var k :| 0 <= k < TriedEntries(tokens) && IsEntry(a.rest, k, c.s.infos[x].service);
      assert IsEntry(tokens, 6 + NewEntries(tokens) + k, d.s.infos[x].service);
    }
  }

  lemma Combine(tokens: seq<Token>, s: State, a: Reading, t: State, c: Reading, d: Reading)
    requires HeaderFits(tokens) && Stages(tokens, s, a, t, c, d)
    ensures d.Read? && Shape(d.s) && d.s.env == s.env && Reflects(tokens, d.s)
  {
    Rests(tokens, s, a, t, c, d);
    StagesShape(tokens, s, a, t, c, d);
    hide BucketsRefer, FlipBit30, SlotTaken, Stages, Refers, Usable, IsEntry;
    var n, m := NewEntries(tokens), TriedEntries(tokens);
    forall x | 0 <= x < n
      ensures x in d.s.infos && !d.s.infos[x].inTried && IsEntry(tokens, 6 + x, d.s.infos[x].service)
      ensures Usable(tokens) && d.s.infos[x].refCount != 0 ==> Refers(tokens, x)
    {
      CombineNew(tokens, s, a, t, c, d, x);
    }
    forall k | 6 + n <= k < 6 + n + m
      ensures tokens[k].TEntry? && SlotTaken(d.s, tokens[k].record.service)
    {
      CombineTried(tokens, s, a, t, c, d, k);
    }
    forall x | x in d.s.infos
      ensures !d.s.infos[x].inTried ==> 0 <= x < n
      ensures d.s.infos[x].inTried ==> exists k :: 6 + n <= k < 6 + n + m && IsEntry(tokens, k, d.s.infos[x].service)
    {
      CombineIds(tokens, s, a, t, c, d, x);
    }
  }

  lemma StagesShape(tokens: seq<Token>, s: State, a: Reading, t: State, c: Reading, d: Reading)
    requires HeaderFits(tokens) && Stages(tokens, s, a, t, c, d)
    ensures d.Read? && Shape(d.s) && NewEntries(tokens) >= 0 && TriedEntries(tokens) >= 0
  {
  }
}
