/**
 The stream itself: where each entry and each reference is written, and what is made of the references
 when a stream of another version, or with another number of buckets, is read.
 */
module AddrManFormat {
  import opened Basics
  import opened AddrManModel
  import opened AddrManInvariant
  import opened AddrManOperations
  import opened AddrManDisk
  import opened AddrManLoad
  import opened AddrManStreams

  // ---------------------------------------------------------------- what is written

  /** The entries of the same kind with smaller ids. */
  ghost function Before(s: State, id: int): set<int>
    requires id in s.infos
  {
    set x | x in s.infos && x < id && s.infos[x].inTried == s.infos[id].inTried
  }

  /** The place of an entry in the stream: behind the header, new entries first, by ascending ids. */
  ghost function PlaceInStream(s: State, id: int): int
    requires id in s.infos
  {
    6 + (if s.infos[id].inTried then s.nNew else 0) + |Before(s, id)|
  }

  lemma BeforeIsListed(s: State, id: int)
    requires Inv(s) && id in s.infos
    ensures 0 <= id < s.idCount && |Before(s, id)| == |List(s.infos, id, s.infos[id].inTried)|
  {
    hide List, Ok, PendingOk;
    ListedFacts(s);
    var tried := s.infos[id].inTried;
    ListSize(s.infos, id, tried);
    forall x | x in Before(s, id) ensures x in ListedIds(s.infos, id, tried) {
      ListedAs(s, x);
    }
    forall x | x in ListedIds(s.infos, id, tried) ensures x in Before(s, id) {
      ListedAs(s, x);
    }
    assert Before(s, id) == ListedIds(s.infos, id, tried);
  }

  lemma ListedAs(s: State, x: int)
    requires Inv(s) && x in s.infos
    ensures Listed(false, s.infos[x]) <==> !s.infos[x].inTried
    ensures Listed(true, s.infos[x]) <==> s.infos[x].inTried
    ensures 0 <= x < s.idCount
  {
    hide Ok, PendingOk;
    ListedFacts(s);
  }

  /**
   Serialize writes version 1, the key's size and the key, both counters, and the number of new buckets
   with bit 30 flipped; then every entry at its place, without its links to the tables.
   */
  lemma StreamLayout(s: State)
    requires Inv(s)
    ensures 0 <= s.idCount
    ensures var tokens := Serialize(s);
            && |tokens| >= 6 + s.nNew + s.nTried
            && tokens[0] == TByte(1) && tokens[1] == TByte(32) && tokens[2] == TKey(s.key)
            && tokens[3] == TNum(s.nNew) && tokens[4] == TNum(s.nTried) && tokens[5] == TNum(1073742848)
            && forall id :: id in s.infos ==> EntryWritten(s, tokens, id)
  {
    hide Ok, PendingOk, Serialize, Order, Buckets;
    ListedFacts(s);
    SectionSizes(s);
    OrderEnumerates(s);
    SectionsHold(s);
    var tokens := Serialize(s);
    assert forall k :: 0 <= k < 6 ==> tokens[k] == tokens[..6][k];
    forall id | id in s.infos ensures EntryWritten(s, tokens, id) {
      EntryPlace(s, tokens, id);
    }
  }

  ghost predicate EntryWritten(s: State, tokens: seq<Token>, id: int)
    requires id in s.infos
  {
    var k := PlaceInStream(s, id);
    var i := s.infos[id];
    6 <= k < |tokens| && tokens[k] == TEntry(Record(i.service, i.services, i.time, i.source, i.lastSuccess, i.attempts))
  }

  lemma EntryPlace(s: State, tokens: seq<Token>, id: int)
    requires Inv(s) && id in s.infos && 0 <= s.idCount && Enumerates(s, Order(s)) && 0 <= s.nNew && 0 <= s.nTried
    requires tokens == Serialize(s) && |tokens| >= 6 && |Order(s)| == s.nNew + s.nTried && |tokens[6..]| >= |Order(s)|
    requires |List(s.infos, s.idCount, false)| == s.nNew && |List(s.infos, s.idCount, true)| == s.nTried
    requires Holds(s, Order(s), tokens[6..], 0, s.nNew)
    requires Holds(s, Order(s), tokens[6..][s.nNew..], s.nNew, |Order(s)|)
    ensures EntryWritten(s, tokens, id)
  {
    hide Ok, PendingOk, Serialize, List, Before;
    BeforeIsListed(s, id);
    ListedAs(s, id);
    var tried := s.infos[id].inTried;
    ListRank(s.infos, s.idCount, tried, id);
    var j := |List(s.infos, id, tried)|;
    if tried {
      assert Order(s)[s.nNew + j] == id;
      assert tokens[6..][s.nNew..][j] == TEntry(ToRecord(s.infos[id]));
      assert tokens[6..][s.nNew..][j] == tokens[6 + s.nNew + j];
    } else {
      assert Order(s)[j] == id;
      assert tokens[6..][j] == TEntry(ToRecord(s.infos[id]));
    }
  }

  /** The occupied slots among newTab[from..end]. */
  ghost function OccupiedIn(s: State, from: int, end: int): set<int>
    requires Shape(s)
  {
    set i | 0 <= i < NEW_SLOTS && from <= i < end && s.newTab[i] != EMPTY
  }

  lemma OccupiedNext(s: State, from: nat, end: int)
    requires Shape(s) && from < end && from < NEW_SLOTS
    ensures |OccupiedIn(s, from, end)| == |OccupiedIn(s, from + 1, end)| + if s.newTab[from] != EMPTY then 1 else 0
  {
    assert OccupiedIn(s, from, end) == OccupiedIn(s, from + 1, end) + if s.newTab[from] != EMPTY then {from} else {};
  }

  lemma NoneOccupied(s: State, from: int)
    requires Shape(s)
    ensures |OccupiedIn(s, from, from)| == 0
  {
    assert OccupiedIn(s, from, from) == {};
  }

  lemma {:induction false} IndicesSize(s: State, from: nat, end: nat)
    requires Shape(s) && from <= end <= NEW_SLOTS
    ensures |Indices(s, from, end)| == |OccupiedIn(s, from, end)|
    decreases end - from
  {
    hide OccupiedIn;
    if from == end {
      NoneOccupied(s, from);
    } else {
      IndicesSize(s, from + 1, end);
      OccupiedNext(s, from, end);
    }
  }

  lemma {:induction false} IndexAt(s: State, from: nat, end: nat, i: nat)
    requires Shape(s) && from <= i < end <= NEW_SLOTS && s.newTab[i] != EMPTY
    ensures var k := |OccupiedIn(s, from, i)|;
            k < |Indices(s, from, end)| && Indices(s, from, end)[k] == TNum(Rank(s.infos, s.newTab[i]))
    decreases end - from
  {
    hide OccupiedIn, Rank;
    if from == i {
      NoneOccupied(s, from);
    } else {
      IndexAt(s, from + 1, end, i);
      OccupiedNext(s, from, i);
    }
  }

  /**
   A bucket is written as the number of its occupied slots and then, slot by slot, the number of each
   entry: its place among the new entries of the stream.
   */
  lemma BucketLayout(s: State, b: nat, i: nat)
    requires Inv(s) && b < NEW_BUCKET_COUNT && i / BUCKET_SIZE == b && i < NEW_SLOTS
    ensures var tokens := BucketTokens(s, b);
            && |tokens| == 1 + |OccupiedIn(s, b * BUCKET_SIZE, (b + 1) * BUCKET_SIZE)|
            && tokens[0] == TNum(|tokens| - 1)
            && (s.newTab[i] != EMPTY ==>
                  && s.newTab[i] in s.infos
                  && |OccupiedIn(s, b * BUCKET_SIZE, i)| + 1 < |tokens|
                  && tokens[|OccupiedIn(s, b * BUCKET_SIZE, i)| + 1] == TNum(PlaceInStream(s, s.newTab[i]) - 6))
  {
    hide OccupiedIn, Before, Ok, PendingOk;
    IndicesSize(s, b * BUCKET_SIZE, (b + 1) * BUCKET_SIZE);
    if s.newTab[i] != EMPTY {
      IndexAt(s, b * BUCKET_SIZE, (b + 1) * BUCKET_SIZE, i);
      HeldIsNew(s, i);
      BeforeIsListed(s, s.newTab[i]);
    }
  }

  lemma HeldIsNew(s: State, i: nat)
    requires Inv(s) && i < NEW_SLOTS && s.newTab[i] != EMPTY
    ensures s.newTab[i] in s.infos && !s.infos[s.newTab[i]].inTried
  {
    hide IdentityOk, TriedOk, RefOk, CountOk, PendingOk;
  }

  /**
   Only a key of 32 bytes is read. The references are used in version 1 with 1024 buckets; version 0 writes
   the number of buckets as it is, every later one with bit 30 flipped.
   */
  lemma HeaderMeans(env: Oracle, tokens: seq<Token>)
    ensures |tokens| < 6 || tokens[1] != TByte(32) ==> Unserialize(env, tokens).Failed?
    ensures HeaderFits(tokens) ==>
              && (Usable(tokens) <==> tokens[0] == TByte(1) && tokens[5] == TNum(1073742848))
              && (tokens[0] == TByte(0) ==> BucketCount(tokens) == tokens[5].num)
              && (tokens[0] != TByte(0) && 0 <= tokens[5].num < 1073741824 ==> BucketCount(tokens) == tokens[5].num + 1073741824)
              && (tokens[0] != TByte(0) && 1073741824 <= tokens[5].num < 2147483648 ==> BucketCount(tokens) == tokens[5].num - 1073741824)
  {
    hide ReadNew, ReadTried, ReadBuckets, Prune;
  }

  // ---------------------------------------------------------------- streams without usable references

  /** The slot an entry of the stream has by its own source. */
  function PrimarySlot(s: State, r: Record): (i: nat)
    ensures i < NEW_SLOTS
  {
    NewSlot(s.env, s.key, NewBucket(s.env, s.key, r.service.host, r.source), r.service)
  }

  /** Entry x of the stream has this slot. */
  ghost predicate Wants(s: State, all: seq<Token>, x: int, i: int) {
    0 <= x < |all| && all[x].TEntry? && PrimarySlot(s, all[x].record) == i
  }

  /** Of the first n entries each that is the first to want its slot has it, with one reference, and no other has any. */
  ghost predicate FirstServed(s: State, all: seq<Token>, n: int)
    requires Shape(s)
  {
    && n <= |all|
    && (forall i :: 0 <= i < NEW_SLOTS && s.newTab[i] != EMPTY ==> 0 <= s.newTab[i] < n && Wants(s, all, s.newTab[i], i))
    && (forall x :: 0 <= x < n ==> Served(s, all, x))
  }

  /** The slot of entry x has gone to x or to an earlier entry. */
  ghost predicate Served(s: State, all: seq<Token>, x: int)
    requires Shape(s)
  {
    && 0 <= x < |all| && all[x].TEntry? && x in s.infos && !s.infos[x].inTried
    && var h := s.newTab[PrimarySlot(s, all[x].record)];
    && EMPTY != h <= x && s.infos[x].refCount == if h == x then 1 else 0
  }

  lemma LoadNewServes(s: State, all: seq<Token>, n: nat)
    requires Shape(s) && FirstServed(s, all, n) && n < |all| && all[n].TEntry?
    ensures FirstServed(LoadNew(s, n, all[n].record, false), all, n + 1)
  {
    hide NewSlot, NewBucket;
    var t := LoadNew(s, n, all[n].record, false);
    assert t.env == s.env && t.key == s.key;
    forall x | 0 <= x < n ensures Served(t, all, x) {
      assert Served(s, all, x);
    }
    forall i | 0 <= i < NEW_SLOTS && t.newTab[i] != EMPTY ensures 0 <= t.newTab[i] < n + 1 && Wants(t, all, t.newTab[i], i) {
      if s.newTab[i] != EMPTY { assert Wants(s, all, s.newTab[i], i); }
    }
  }

  lemma {:induction false} ReadNewServes(s: State, all: seq<Token>, n: nat, count: int)
    requires Shape(s) && FirstServed(s, all, n) && n <= count && ReadNew(s, all[n..], n, count, false).Read?
    ensures var r := ReadNew(s, all[n..], n, count, false); Shape(r.s) && FirstServed(r.s, all, count)
    decreases count - n
  {
    hide FirstServed, LoadNew;
    ServedLength(s, all, n);
    if n < count {
      LoadNewServes(s, all, n);
      assert all[n..][1..] == all[n + 1..];
      ReadNewServes(LoadNew(s, n, all[n].record, false), all, n + 1, count);
    }
  }

  lemma ServedLength(s: State, all: seq<Token>, n: int)
    requires Shape(s) && FirstServed(s, all, n)
    ensures n <= |all|
  {
  }

  lemma LoadTriedServes(s: State, all: seq<Token>, n: int, r: Record)
    requires Shape(s) && FirstServed(s, all, n) && s.idCount >= n
    ensures FirstServed(LoadTried(s, r), all, n) && LoadTried(s, r).idCount >= n
  {
    hide NewSlot, NewBucket, TriedSlot;
    var t := LoadTried(s, r);
    forall x | 0 <= x < n ensures Served(t, all, x) {
      assert Served(s, all, x);
    }
    forall i | 0 <= i < NEW_SLOTS && t.newTab[i] != EMPTY ensures 0 <= t.newTab[i] < n && Wants(t, all, t.newTab[i], i) {
      assert Wants(s, all, s.newTab[i], i);
    }
  }

  lemma {:induction false} ReadTriedServes(s: State, all: seq<Token>, n: int, rest: seq<Token>, m: nat, count: int)
    requires Shape(s) && FirstServed(s, all, n) && s.idCount >= n && ReadTried(s, rest, m, count).Read?
    ensures var r := ReadTried(s, rest, m, count); Shape(r.s) && FirstServed(r.s, all, n)
    decreases count - m
  {
    hide FirstServed, LoadTried;
    if m < count {
      LoadTriedServes(s, all, n, rest[0].record);
      ReadTriedServes(LoadTried(s, rest[0].record), all, n, rest[1..], m + 1, count);
    }
  }

  lemma {:induction false} UnusableIndices(s: State, rest: seq<Token>, b: nat, n: int)
    requires Shape(s) && ReadIndices(s, rest, b, n, false).Read?
    ensures ReadIndices(s, rest, b, n, false).s == s
    decreases n
  {
    if n > 0 { UnusableIndices(s, rest[1..], b, n - 1); }
  }

  lemma {:induction false} UnusableBuckets(s: State, rest: seq<Token>, b: nat, count: int)
    requires Shape(s) && ReadBuckets(s, rest, b, count, false).Read?
    ensures ReadBuckets(s, rest, b, count, false).s == s
    decreases count - b
  {
    if b < count {
      UnusableIndices(s, rest[1..], b, rest[0].num);
      UnusableBuckets(s, ReadIndices(s, rest[1..], b, rest[0].num, false).rest, b + 1, count);
    }
  }

  lemma EmptyServes(env: Oracle, key: Key, all: seq<Token>)
    ensures FirstServed(Empty(env, key), all, 0)
  {
  }

  lemma CountedServes(s: State, t: State, all: seq<Token>, n: int)
    requires Shape(s) && FirstServed(s, all, n) && t == s.(nNew := t.nNew, nTried := t.nTried, idCount := t.idCount)
    ensures Shape(t) && FirstServed(t, all, n)
  {
    forall x | 0 <= x < n ensures Served(t, all, x) {
      assert Served(s, all, x);
    }
    forall i | 0 <= i < NEW_SLOTS && t.newTab[i] != EMPTY ensures 0 <= t.newTab[i] < n && Wants(t, all, t.newTab[i], i) {
      assert Wants(s, all, s.newTab[i], i);
    }
  }

  /** Of another version or bucket count only the first entry for each slot is given it. */
  lemma OldStreamServes(env: Oracle, tokens: seq<Token>)
    requires ReadTables(env, tokens).Read? && HeaderFits(tokens) && !Usable(tokens) && tokens[3].num >= 0
    ensures var v := ReadTables(env, tokens).s; Shape(v) && FirstServed(v, tokens[6..], tokens[3].num)
  {
    hide ReadNew, ReadTried, ReadBuckets, FirstServed, FlipBit30;
    var n, all := tokens[3].num, tokens[6..];
    var e := Empty(env, tokens[2].key);
    var s := e.(nNew := n, nTried := tokens[4].num);
    EmptyServes(env, tokens[2].key, all);
    CountedServes(e, s, all, 0);
    assert all[0..] == all;
    ReadNewServes(s, all, 0, n);
    var a := ReadNew(s, all, 0, n, false);
    var t := a.s.(idCount := a.s.nNew);
    CountedServes(a.s, t, all, n);
    ReadNewCount(s, all, 0, n);
    ReadTriedServes(t, all, n, a.rest, 0, s.nTried);
    var c := ReadTried(t, a.rest, 0, s.nTried);
    UnusableBuckets(c.s, c.rest, 0, BucketCount(tokens));
  }

  lemma {:induction false} ReadNewCount(s: State, rest: seq<Token>, n: nat, count: int)
    requires ReadNew(s, rest, n, count, false).Read?
    ensures ReadNew(s, rest, n, count, false).s.nNew == s.nNew
    decreases count - n
  {
    hide NewSlot, NewBucket;
    if n < count { ReadNewCount(LoadNew(s, n, rest[0].record, false), rest[1..], n + 1, count); }
  }

  /**
   Reading a stream of another version or bucket count keeps exactly those new entries that no earlier one
   competes with for the slot of their own source.
   */
  lemma OldStreamKeepsFirst(env: Oracle, tokens: seq<Token>, x: int)
    requires ReadTables(env, tokens).Read? && HeaderFits(tokens) && !Usable(tokens)
    requires 0 <= x < tokens[3].num && tokens[4].num >= 0
    ensures var v := ReadTables(env, tokens).s;
            && 6 + x < |tokens| && tokens[6 + x].TEntry?
            && (x in Unserialize(env, tokens).s.infos <==> !Forestalled(v, tokens[6..], x))
  {
    hide ReadTables, FirstServed, Prune, Reflects, Referable, PrimarySlot;
    var v := ReadTables(env, tokens).s;
    var all := tokens[6..];
    OldStreamServes(env, tokens);
    LoadedReflects(env, tokens);
    ReferableIsPrunable(v);
    NoneBelowZero(v);
    PruneEffect(v, 0);
    ServedAt(v, all, tokens[3].num, x);
    var i := PrimarySlot(v, all[x].record);
    HolderWants(v, all, tokens[3].num, i);
    if y :| 0 <= y < x && Wants(v, all, y, i) {
      ServedAt(v, all, tokens[3].num, y);
    }
    SurvivesIff(v, Prune(v, 0, v.idCount), x);
  }

  /** An earlier entry of the stream wants the same slot. */
  ghost predicate Forestalled(s: State, all: seq<Token>, x: int)
    requires 0 <= x < |all| && all[x].TEntry?
  {
    var i := PrimarySlot(s, all[x].record);
    exists y :: 0 <= y < x && Wants(s, all, y, i)
  }

  lemma ServedAt(v: State, all: seq<Token>, n: int, x: int)
    requires Shape(v) && FirstServed(v, all, n) && 0 <= x < n
    ensures Served(v, all, x)
  {
  }

  lemma HolderWants(v: State, all: seq<Token>, n: int, i: nat)
    requires Shape(v) && FirstServed(v, all, n) && i < NEW_SLOTS && v.newTab[i] != EMPTY
    ensures 0 <= v.newTab[i] < n && Wants(v, all, v.newTab[i], i)
  {
  }

  lemma ReferableIsPrunable(v: State)
    requires Referable(v)
    ensures Prunable(v)
  {
    hide Placed, HostsLead;
  }

  lemma NoneBelowZero(v: State)
    requires Referable(v)
    ensures SurvivorsBelow(v, 0)
  {
    hide RandomOk, NewOk, TriedOk, RefOk, CountOk, HostsLead;
  }

  lemma SurvivesIff(v: State, t: State, x: int)
    requires Referable(v) && x in v.infos && SurvivorsBelow(t, t.idCount) && t.idCount == v.idCount
    requires forall y :: y in t.infos ==> y in v.infos && SameSeat(t.infos[y], v.infos[y])
    requires Survives(v.infos[x]) ==> x in t.infos
    ensures x in t.infos <==> Survives(v.infos[x])
  {
    hide RandomOk, NewOk, TriedOk, RefOk, CountOk, HostsLead;
  }
}
