/**
 Which streams are harmless: for every choice of hashes the manager read from them is sound. The
 condition is on the stream alone. Both counters must not be negative, and two entries may share a host
 only if both are always pruned, or if the second of them is always lost.
 */
module AddrManHarmless {
  import opened AddrManModel
  import opened AddrManInvariant
  import opened AddrManOperations
  import opened AddrManDisk
  import opened AddrManLoad
  import opened AddrManStreams

  // ---------------------------------------------------------------- negative counters

  lemma {:induction false} ReadNewCounts(s: State, rest: seq<Token>, n: nat, count: int, usable: bool)
    ensures var r := ReadNew(s, rest, n, count, usable); r.Read? ==> r.s.nNew == s.nNew && r.s.nTried == s.nTried
    decreases count - n
  {
    hide LoadNew;
    if n < count && rest != [] && rest[0].TEntry? {
      var e := rest[0].record;
      LoadNewCounts(s, n, e, usable);
      ReadNewCounts(LoadNew(s, n, e, usable), rest[1..], n + 1, count, usable);
    }
  }

  lemma LoadNewCounts(s: State, n: nat, e: Record, usable: bool)
    ensures LoadNew(s, n, e, usable).nNew == s.nNew && LoadNew(s, n, e, usable).nTried == s.nTried
  {
    hide NewSlot, NewBucket;
  }

  lemma {:induction false} ReadTriedCounts(s: State, rest: seq<Token>, n: nat, count: int)
    requires Shape(s)
    ensures var r := ReadTried(s, rest, n, count); r.Read? ==> r.s.nNew == s.nNew && r.s.nTried <= s.nTried
    decreases count - n
  {
    hide TriedSlot;
    if n < count && rest != [] && rest[0].TEntry? { ReadTriedCounts(LoadTried(s, rest[0].record), rest[1..], n + 1, count); }
  }

  lemma LoadIndexCounts(s: State, b: nat, index: int, usable: bool)
    requires Shape(s) && (usable ==> b < NEW_BUCKET_COUNT)
    ensures LoadIndex(s, b, index, usable).nNew == s.nNew && LoadIndex(s, b, index, usable).nTried == s.nTried
  {
    hide NewSlot;
  }

  lemma {:induction false} ReadIndicesCounts(s: State, rest: seq<Token>, b: nat, n: int, usable: bool)
    requires Shape(s) && (usable ==> b < NEW_BUCKET_COUNT)
    ensures var r := ReadIndices(s, rest, b, n, usable); r.Read? ==> r.s.nNew == s.nNew && r.s.nTried == s.nTried
    decreases n
  {
    hide LoadIndex;
    if n > 0 && rest != [] && rest[0].TNum? {
      LoadIndexCounts(s, b, rest[0].num, usable);
      ReadIndicesCounts(LoadIndex(s, b, rest[0].num, usable), rest[1..], b, n - 1, usable);
    }
  }

  lemma {:induction false} ReadBucketsCounts(s: State, rest: seq<Token>, b: nat, count: int, usable: bool)
    requires Shape(s) && (usable ==> count == NEW_BUCKET_COUNT)
    ensures var r := ReadBuckets(s, rest, b, count, usable); r.Read? ==> r.s.nNew == s.nNew && r.s.nTried == s.nTried
    decreases count - b
  {
    hide ReadIndices;
    if b < count && rest != [] && rest[0].TNum? {
      ReadIndicesCounts(s, rest[1..], b, rest[0].num, usable);
      var r := ReadIndices(s, rest[1..], b, rest[0].num, usable);
      if r.Read? { ReadBucketsCounts(r.s, r.rest, b + 1, count, usable); }
    }
  }

  lemma {:induction false} PruneCounts(s: State, id: int, stop: int)
    requires Shape(s)
    ensures Prune(s, id, stop).nNew <= s.nNew && Prune(s, id, stop).nTried == s.nTried
    decreases stop - id
  {
    hide Delete;
    if id < stop {
      if id in s.infos { DeleteCountsDown(s, id); }
      PruneCounts(Pruned(s, id), id + 1, stop);
    }
  }

  lemma DeleteCountsDown(s: State, id: int)
    ensures Delete(s, id).nNew <= s.nNew && Delete(s, id).nTried == s.nTried
  {
    hide SwapRandom;
    SwapRandomCounts(s, InfoOf(s, id).randomPos, |s.random| - 1);
  }

  lemma SwapRandomCounts(s: State, i: int, j: int)
    ensures SwapRandom(s, i, j).nNew == s.nNew && SwapRandom(s, i, j).nTried == s.nTried
  {
  }

  lemma ReadCounts(env: Oracle, tokens: seq<Token>)
    requires Unserialize(env, tokens).Read?
    ensures var t := Unserialize(env, tokens).s; t.nNew <= NewEntries(tokens) && t.nTried <= TriedEntries(tokens)
  {
    hide ReadNew, ReadTried, ReadBuckets, Prune, FlipBit30;
    var s := Empty(env, tokens[2].key).(nNew := tokens[3].num, nTried := tokens[4].num);
    ReadNewCounts(s, tokens[6..], 0, s.nNew, Usable(tokens));
    var a := ReadNew(s, tokens[6..], 0, s.nNew, Usable(tokens));
    var t := a.s.(idCount := a.s.nNew);
    ReadTriedCounts(t, a.rest, 0, s.nTried);
    var c := ReadTried(t, a.rest, 0, s.nTried);
    ReadBucketsCounts(c.s, c.rest, 0, BucketCount(tokens), Usable(tokens));
    var v := ReadTables(env, tokens).s;
    PruneCounts(v, 0, v.idCount);
  }

  lemma CountersNotNegative(t: State)
    requires Inv(t)
    ensures t.nNew >= 0 && t.nTried >= 0
  {
    hide IdentityOk, NewOk, TriedOk, RefOk;
  }

  // ---------------------------------------------------------------- exactly when one reading is sound

  /** A stream is read into a sound manager if and only if its counters are not negative and no survivor shares its host. */
  lemma LoadedSoundIff(env: Oracle, tokens: seq<Token>)
    requires Unserialize(env, tokens).Read?
    ensures HeaderFits(tokens) && ReadTables(env, tokens).Read?
    ensures Inv(Unserialize(env, tokens).s) <==>
              NewEntries(tokens) >= 0 && TriedEntries(tokens) >= 0 && SurvivorsAlone(ReadTables(env, tokens).s)
  {
    HeaderRead(env, tokens);
    hide Inv, SurvivorsAlone, ReadTables, Prune;
    if NewEntries(tokens) >= 0 && TriedEntries(tokens) >= 0 {
      LoadedReflects(env, tokens);
      PruneIff(ReadTables(env, tokens).s);
    } else if Inv(Unserialize(env, tokens).s) {
      ReadCounts(env, tokens);
      CountersNotNegative(Unserialize(env, tokens).s);
    }
  }

  lemma HeaderRead(env: Oracle, tokens: seq<Token>)
    requires ReadTables(env, tokens).Read?
    ensures HeaderFits(tokens)
  {
  }

  // ---------------------------------------------------------------- harmless streams

  /** Two entries with one host: new ones that nothing refers to, or tried ones that collide whatever the hash. */
  ghost predicate HarmlessPair(tokens: seq<Token>, i: int, j: int)
    requires HeaderFits(tokens)
  {
    var n := NewEntries(tokens);
    || (j < 6 + n && Usable(tokens) && !Refers(tokens, i - 6) && !Refers(tokens, j - 6))
    || (6 + n <= i && 0 <= i < |tokens| && 0 <= j < |tokens| && tokens[i].TEntry? && tokens[j].TEntry?
        && tokens[i].record.service == tokens[j].record.service)
  }

  ghost predicate SameHost(tokens: seq<Token>, i: int, j: int) {
    0 <= i < |tokens| && 0 <= j < |tokens| && tokens[i].TEntry? && tokens[j].TEntry?
    && tokens[i].record.service.host == tokens[j].record.service.host
  }

  ghost predicate Harmless(tokens: seq<Token>)
    requires HeaderFits(tokens)
  {
    var n, m := NewEntries(tokens), TriedEntries(tokens);
    && n >= 0 && m >= 0
    && forall i, j :: 6 <= i < j < 6 + n + m && SameHost(tokens, i, j) ==> HarmlessPair(tokens, i, j)
  }

  /** The place in the stream an entry was read from. */
  lemma PlaceOf(tokens: seq<Token>, v: State, x: int) returns (k: int)
    requires HeaderFits(tokens) && Shape(v) && Reflects(tokens, v) && x in v.infos
    ensures IsEntry(tokens, k, v.infos[x].service) && 6 <= k < 6 + NewEntries(tokens) + TriedEntries(tokens)
    ensures !v.infos[x].inTried ==> k == 6 + x && 0 <= x < NewEntries(tokens)
    ensures v.infos[x].inTried ==> k >= 6 + NewEntries(tokens)
  {
    hide TriedSlot, Refers;
    if v.infos[x].inTried {
      k :| 6 + NewEntries(tokens) <= k < 6 + NewEntries(tokens) + TriedEntries(tokens) && IsEntry(tokens, k, v.infos[x].service);
    } else {
      k := 6 + x;
    }
  }

  lemma TriedAreUnique(v: State, x: int, y: int)
    requires Shape(v) && TriedOk(v) && x in v.infos && y in v.infos && v.infos[x].inTried && v.infos[y].inTried
    requires v.infos[x].service == v.infos[y].service
    ensures x == y
  {
    hide TriedSlot;
  }

  lemma ReferableTables(v: State)
    requires Referable(v)
    ensures Shape(v) && NewOk(v) && TriedOk(v) && forall i :: 0 <= i < NEW_SLOTS && v.newTab[i] != EMPTY ==> v.newTab[i] in v.infos && v.infos[v.newTab[i]].refCount != 0
  {
    hide HostsLead, Ordered, CountOk;
    var F: set<int> :| Placed(v, F, {});
    forall i | 0 <= i < NEW_SLOTS && v.newTab[i] != EMPTY ensures v.newTab[i] in v.infos && v.infos[v.newTab[i]].refCount != 0 {
      assert i in Slots(v.newTab, v.newTab[i]);
    }
  }

  lemma HarmlessIsAlone(tokens: seq<Token>, v: State)
    requires HeaderFits(tokens) && Harmless(tokens) && Referable(v) && Shape(v) && Reflects(tokens, v)
    ensures SurvivorsAlone(v)
  {
    ReferableTables(v);
    hide Referable, TriedOk, NewOk, Refers, FlipBit30, Reflects, Harmless;
    forall x, y | x in v.infos && y in v.infos && x != y && v.infos[x].service.host == v.infos[y].service.host
      ensures !Survives(v.infos[x])
    {
      var i := PlaceOf(tokens, v, x);
      var j := PlaceOf(tokens, v, y);
      if v.infos[x].inTried && v.infos[y].inTried && v.infos[x].service == v.infos[y].service { TriedAreUnique(v, x, y); }
      NotReferred(tokens, v, x);
      AloneAt(tokens, v.infos[x], v.infos[y], x, y, i, j);
    }
  }

  lemma AloneAt(tokens: seq<Token>, a: Info, b: Info, x: int, y: int, i: int, j: int)
    requires HeaderFits(tokens) && Harmless(tokens) && x != y && a.service.host == b.service.host
    requires IsEntry(tokens, i, a.service) && IsEntry(tokens, j, b.service)
    requires 6 <= i < 6 + NewEntries(tokens) + TriedEntries(tokens) && 6 <= j < 6 + NewEntries(tokens) + TriedEntries(tokens)
    requires if a.inTried then i >= 6 + NewEntries(tokens) else i == 6 + x < 6 + NewEntries(tokens)
    requires if b.inTried then j >= 6 + NewEntries(tokens) else j == 6 + y < 6 + NewEntries(tokens)
    requires a.inTried && b.inTried ==> a.service != b.service
    requires !a.inTried && Usable(tokens) && !Refers(tokens, x) ==> a.refCount == 0
    ensures !Survives(a)
  {
    hide Refers, FlipBit30, Usable;
    assert i != j;
    if i < j { PairIsHarmless(tokens, i, j); } else { PairIsHarmless(tokens, j, i); }
  }

  lemma PairIsHarmless(tokens: seq<Token>, i: int, j: int)
    requires HeaderFits(tokens) && Harmless(tokens) && SameHost(tokens, i, j)
    requires 6 <= i < j < 6 + NewEntries(tokens) + TriedEntries(tokens)
    ensures HarmlessPair(tokens, i, j)
  {
    hide HarmlessPair;
  }

  lemma NotReferred(tokens: seq<Token>, v: State, x: int)
    requires HeaderFits(tokens) && Shape(v) && Reflects(tokens, v) && x in v.infos
    ensures !v.infos[x].inTried && Usable(tokens) && !Refers(tokens, x) ==> v.infos[x].refCount == 0
  {
    hide TriedSlot, Refers, FlipBit30;
  }

  // ---------------------------------------------------------------- hashes that keep addresses apart

  /** Entries of host h have their own slot in every new bucket, a and b their own tried slots. */
  function Apart(h: NetAddr, a: Service, b: Service): Oracle {
    Oracle((key: Key, s: Service) => 0, (key: Key, host: NetAddr, source: NetAddr) => 0,
           (key: Key, isNew: bool, bucket: nat, s: Service) =>
             if isNew then (if s.host == h then 1 else 0) else if s == a then 1 else if s == b then 2 else 0,
           (host: NetAddr) => true, (host: NetAddr) => true)
  }

  lemma NewApart(key: Key, bucket: nat, h: NetAddr, a: Service, b: Service, s: Service, t: Service)
    requires bucket < NEW_BUCKET_COUNT && NewSlot(Apart(h, a, b), key, bucket, s) == NewSlot(Apart(h, a, b), key, bucket, t)
    ensures s.host == h <==> t.host == h
  {
  }

  lemma TriedApart(key: Key, h: NetAddr, a: Service, b: Service, s: Service)
    ensures TriedSlot(Apart(h, a, b), key, s) == TriedSlot(Apart(h, a, b), key, a) <==> s == a
    ensures TriedSlot(Apart(h, a, b), key, s) == TriedSlot(Apart(h, a, b), key, b) <==> s == b
  {
  }

  /** Some new entry of host h has a reference. */
  ghost predicate HostReferred(s: State, h: NetAddr) {
    exists z :: z in s.infos && !s.infos[z].inTried && s.infos[z].refCount != 0 && s.infos[z].service.host == h
  }

  /** Whoever holds a slot that an entry of host h hashes to is of host h too. */
  lemma HolderOfHost(s: State, i: nat, h: NetAddr, a: Service, b: Service, e: Service)
    requires Shape(s) && NewOk(s) && s.env == Apart(h, a, b) && i < NEW_SLOTS && s.newTab[i] != EMPTY
    requires NewSlot(s.env, s.key, i / BUCKET_SIZE, e) == i && e.host == h
    requires s.newTab[i] in s.infos ==> s.infos[s.newTab[i]].refCount != 0
    ensures HostReferred(s, h)
  {
    var z := s.newTab[i];
    NewApart(s.key, i / BUCKET_SIZE, h, a, b, s.infos[z].service, e);
  }

  // ---------------------------------------------------------------- a reference without usable buckets

  lemma PhaseTables(s: State, n: nat)
    requires NewPhase(s, n)
    ensures Shape(s) && NewOk(s) && n !in s.infos
    ensures forall i :: 0 <= i < NEW_SLOTS && s.newTab[i] != EMPTY ==> s.newTab[i] in s.infos && s.infos[s.newTab[i]].refCount != 0
  {
    var v := Counted(s, n);
    var F: set<int> :| Placed(v, F, {});
    FreshId(v, F, {});
    hide HostsLead, Ordered, CountOk, TriedOk;
    assert NewOk(s);
    forall i | 0 <= i < NEW_SLOTS && s.newTab[i] != EMPTY ensures s.newTab[i] in s.infos && s.infos[s.newTab[i]].refCount != 0 {
      assert i in Slots(v.newTab, v.newTab[i]);
    }
  }

  lemma LoadNewRefers(s: State, n: nat, e: Record, h: NetAddr, a: Service, b: Service)
    requires NewPhase(s, n) && s.env == Apart(h, a, b) && e.service.host == h
    ensures Shape(s) && HostReferred(LoadNew(s, n, e, false), h)
  {
    PhaseTables(s, n);
    hide NewPhase, NewOk, LoadNew, HostReferred, Apart;
    var i := PrimarySlot(s, e);
    if s.newTab[i] == EMPTY {
      FirstReference(s, n, e);
    } else {
      HolderOfHost(s, i, h, a, b, e.service);
      LoadNewEffect(s, n, e, false);
      KeepsReferred(s, LoadNew(s, n, e, false), h);
    }
  }

  lemma FirstReference(s: State, n: nat, e: Record)
    requires Shape(s) && s.newTab[PrimarySlot(s, e)] == EMPTY
    ensures HostReferred(LoadNew(s, n, e, false), e.service.host)
  {
    hide NewSlot, NewBucket;
    var t := LoadNew(s, n, e, false);
    assert n in t.infos && t.infos[n].refCount == 1 && !t.infos[n].inTried && t.infos[n].service == e.service;
  }

  lemma KeepsReferred(s: State, t: State, h: NetAddr)
    requires HostReferred(s, h)
    requires forall z :: z in s.infos && s.infos[z].refCount != 0 ==>
               z in t.infos && SamePlace(s.infos[z], t.infos[z]) && t.infos[z].refCount != 0
    ensures HostReferred(t, h)
  {
    var z :| z in s.infos && !s.infos[z].inTried && s.infos[z].refCount != 0 && s.infos[z].service.host == h;
    assert z in t.infos;
  }

  lemma {:induction false} ReadNewRefers(s: State, rest: seq<Token>, n: nat, count: nat, h: NetAddr, a: Service, b: Service)
    requires NewPhase(s, n) && n <= count && s.env == Apart(h, a, b) && ReadNew(s, rest, n, count, false).Read?
    requires HostReferred(s, h) || exists k :: 0 <= k < count - n && k < |rest| && rest[k].TEntry? && rest[k].record.service.host == h
    ensures HostReferred(ReadNew(s, rest, n, count, false).s, h)
    decreases count - n
  {
    hide NewPhase, LoadNew, HostReferred, Apart;
    if n < count {
      var e := rest[0].record;
      LoadNewPhase(s, n, e, false);
      var t := LoadNew(s, n, e, false);
      LoadNewEffect(s, n, e, false);
      if e.service.host == h {
        LoadNewRefers(s, n, e, h, a, b);
      } else if HostReferred(s, h) {
        PhaseTables(s, n);
        KeepsReferred(s, t, h);
      } else {
        var k :| 0 <= k < count - n && k < |rest| && rest[k].TEntry? && rest[k].record.service.host == h;
        assert rest[1..][k - 1] == rest[k];
      }
      ReadNewRefers(t, rest[1..], n + 1, count, h, a, b);
      ReadNewUnfold(s, rest, n, count, false);
    }
  }

  // ---------------------------------------------------------------- a reference from a bucket

  lemma LoadIndexRefers(s: State, b: nat, index: int, h: NetAddr, p: Service, q: Service)
    requires Referable(s) && s.env == Apart(h, p, q) && b < NEW_BUCKET_COUNT
    requires 0 <= index < s.nNew && index in s.infos && !s.infos[index].inTried && s.infos[index].service.host == h
    ensures Shape(s) && HostReferred(LoadIndex(s, b, index, true), h)
  {
    ReferableTables(s);
    hide Referable, NewOk, TriedOk, Apart;
    var e := s.infos[index].service;
    var i := NewSlot(s.env, s.key, b, e);
    if s.newTab[i] != EMPTY {
      HolderOfHost(s, i, h, p, q, e);
    } else if s.infos[index].refCount >= NEW_BUCKETS_PER_ADDRESS {
      assert HostReferred(s, h);
    } else {
      PlaceFrame(s, i, index);
      hide PlaceNew, NewSlot;
      CountedUp(s, PlaceNew(s, i, index), index, h);
    }
  }

  lemma CountedUp(s: State, t: State, x: int, h: NetAddr)
    requires x in s.infos && !s.infos[x].inTried && s.infos[x].service.host == h
    requires x in t.infos && SamePlace(s.infos[x], t.infos[x]) && t.infos[x].refCount == s.infos[x].refCount + 1 && s.infos[x].refCount >= 0
    ensures HostReferred(t, h)
  {
  }

  /** The next numbers list a new entry of host h. */
  ghost predicate ListHost(s: State, rest: seq<Token>, n: int, h: NetAddr) {
    exists x :: 0 <= x < s.nNew && x in s.infos && !s.infos[x].inTried && s.infos[x].service.host == h && ListRefers(rest, n, x)
  }

  lemma ListHostStep(s: State, t: State, rest: seq<Token>, n: int, h: NetAddr)
    requires ListHost(s, rest, n, h) && SameButRefs(s, t)
    ensures n > 0 && rest != [] && rest[0].TNum?
    ensures var x := rest[0].num;
            (0 <= x < s.nNew && x in s.infos && !s.infos[x].inTried && s.infos[x].service.host == h) || ListHost(t, rest[1..], n - 1, h)
  {
    var x :| 0 <= x < s.nNew && x in s.infos && !s.infos[x].inTried && s.infos[x].service.host == h && ListRefers(rest, n, x);
    assert x in t.infos && SamePlace(s.infos[x], t.infos[x]);
  }

  lemma ReferredStays(s: State, t: State, h: NetAddr)
    requires Referable(s) && HostReferred(s, h) && SameButRefs(s, t)
    ensures HostReferred(t, h)
  {
    RefsNotNegative(s);
    hide Referable;
    KeepsReferred(s, t, h);
  }

  lemma RefsNotNegative(s: State)
    requires Referable(s)
    ensures forall x :: x in s.infos ==> s.infos[x].refCount >= 0
  {
    hide HostsLead, Ordered, CountOk, NewOk, TriedOk;
    var F: set<int> :| Placed(s, F, {});
  }

  lemma {:induction false} ReadIndicesRefers(s: State, rest: seq<Token>, b: nat, n: int, h: NetAddr, p: Service, q: Service)
    requires Referable(s) && s.env == Apart(h, p, q) && b < NEW_BUCKET_COUNT
    requires Shape(s) && ReadIndices(s, rest, b, n, true).Read? && (HostReferred(s, h) || ListHost(s, rest, n, h))
    ensures HostReferred(ReadIndices(s, rest, b, n, true).s, h)
    decreases n
  {
    hide Referable, LoadIndex, HostReferred, ListHost, Apart, SameButRefs;
    if n <= 0 {
      NothingListed(s, rest, n, h);
    } else {
      var x := rest[0].num;
      LoadIndexPhase(s, b, x, true);
      LoadIndexEffect(s, b, x, true);
      var t := LoadIndex(s, b, x, true);
      if HostReferred(s, h) {
        ReferredStays(s, t, h);
      } else {
        ListHostStep(s, t, rest, n, h);
        if 0 <= x < s.nNew && x in s.infos && !s.infos[x].inTried && s.infos[x].service.host == h {
          LoadIndexRefers(s, b, x, h, p, q);
        }
      }
      SameEnv(s, t);
      ReadIndicesRefers(t, rest[1..], b, n - 1, h, p, q);
    }
  }

  lemma NothingListed(s: State, rest: seq<Token>, n: int, h: NetAddr)
    requires n <= 0
    ensures !ListHost(s, rest, n, h)
  {
  }

  lemma SameEnv(s: State, t: State)
    requires SameButRefs(s, t)
    ensures t.env == s.env
  {
  }

  /** The buckets from b on list a new entry of host h. */
  ghost predicate BucketsHost(s: State, rest: seq<Token>, b: nat, count: int, h: NetAddr) {
    exists x :: 0 <= x < s.nNew && x in s.infos && !s.infos[x].inTried && s.infos[x].service.host == h && BucketsRefer(rest, b, count, x)
  }

  lemma BucketsHostStep(s: State, t: State, rest: seq<Token>, b: nat, count: int, h: NetAddr)
    requires BucketsHost(s, rest, b, count, h) && SameButRefs(s, t)
    ensures b < count && rest != [] && rest[0].TNum?
    ensures ListHost(s, rest[1..], rest[0].num, h) || BucketsHost(t, Behind(rest[1..], rest[0].num), b + 1, count, h)
  {
    var x :| 0 <= x < s.nNew && x in s.infos && !s.infos[x].inTried && s.infos[x].service.host == h && BucketsRefer(rest, b, count, x);
    assert x in t.infos && SamePlace(s.infos[x], t.infos[x]);
  }

  lemma {:induction false} ReadBucketsRefers(s: State, rest: seq<Token>, b: nat, h: NetAddr, p: Service, q: Service)
    requires Referable(s) && s.env == Apart(h, p, q)
    requires Shape(s) && ReadBuckets(s, rest, b, NEW_BUCKET_COUNT, true).Read? && (HostReferred(s, h) || BucketsHost(s, rest, b, NEW_BUCKET_COUNT, h))
    ensures HostReferred(ReadBuckets(s, rest, b, NEW_BUCKET_COUNT, true).s, h)
    decreases NEW_BUCKET_COUNT - b
  {
    hide Referable, ReadIndices, HostReferred, ListHost, BucketsHost, Apart, SameButRefs;
    if b >= NEW_BUCKET_COUNT {
      NoBuckets(s, rest, b, h);
    } else {
      ReadIndicesTrace(s, rest[1..], b, rest[0].num, true, 0);
      var r := ReadIndices(s, rest[1..], b, rest[0].num, true);
      if HostReferred(s, h) {
        ReferredStays(s, r.s, h);
      } else {
        BucketsHostStep(s, r.s, rest, b, NEW_BUCKET_COUNT, h);
        if ListHost(s, rest[1..], rest[0].num, h) { ReadIndicesRefers(s, rest[1..], b, rest[0].num, h, p, q); }
      }
      SameEnv(s, r.s);
      ReadBucketsRefers(r.s, r.rest, b + 1, h, p, q);
    }
  }

  lemma NoBuckets(s: State, rest: seq<Token>, b: nat, h: NetAddr)
    requires b >= NEW_BUCKET_COUNT
    ensures !BucketsHost(s, rest, b, NEW_BUCKET_COUNT, h)
  {
  }

  // ---------------------------------------------------------------- a stream that is not harmless

  /** The state and the rest of the stream when the buckets begin. */
  lemma BeforeBuckets(env: Oracle, tokens: seq<Token>) returns (a: Reading, c: Reading)
    requires ReadTables(env, tokens).Read? && NewEntries(tokens) >= 0 && TriedEntries(tokens) >= 0
    ensures var n, m := NewEntries(tokens), TriedEntries(tokens);
            var s := Empty(env, tokens[2].key).(nNew := n, nTried := m);
            && NewPhase(s, 0) && a == ReadNew(s, tokens[6..], 0, n, Usable(tokens)) && NewTrace(s, tokens[6..], 0, n, Usable(tokens), a)
            && Shape(a.s.(idCount := n)) && FirstAreNew(a.s, n)
            && TriedTrace(a.s.(idCount := n), a.rest, m, c) && Referable(c.s) && Shape(c.s)
            && ReadTables(env, tokens) == ReadBuckets(c.s, c.rest, 0, BucketCount(tokens), Usable(tokens))
  {
    hide ReadNew, ReadTried, ReadBuckets, FlipBit30, NewPhase, TriedPhase, Referable, NewTrace, TriedTrace, BucketsRefer;
    var n, m := NewEntries(tokens), TriedEntries(tokens);
    var s := Empty(env, tokens[2].key).(nNew := n, nTried := m);
    StartPhase(env, tokens[2].key, n, m);
    ReadNewTrace(s, tokens[6..], 0, n, Usable(tokens));
    a := ReadNew(s, tokens[6..], 0, n, Usable(tokens));
    TraceCounts(s, tokens[6..], n, Usable(tokens), a);
    EndOfNew(a.s, n);
    NewInRange(a.s, n);
    ReadTriedTrace(a.s.(idCount := n), a.rest, 0, m);
    c := ReadTried(a.s.(idCount := n), a.rest, 0, m);
    EndOfTried(c.s);
    SoundParts(c.s);
  }

  /** When the buckets begin, the new entries are known and stand as read. */
  lemma NewEntriesStand(tokens: seq<Token>, s: State, a: Reading, c: Reading)
    requires HeaderFits(tokens) && NewEntries(tokens) >= 0 && TriedEntries(tokens) >= 0 && s.nNew == NewEntries(tokens)
    requires var n, m := NewEntries(tokens), TriedEntries(tokens);
             NewTrace(s, tokens[6..], 0, n, Usable(tokens), a) && FirstAreNew(a.s, n)
             && Shape(a.s.(idCount := n)) && TriedTrace(a.s.(idCount := n), a.rest, m, c)
    ensures a.Read? && c.Read? && c.s.nNew == NewEntries(tokens) && c.s.env == s.env
    ensures c.rest == Behind(tokens[6..], NewEntries(tokens) + TriedEntries(tokens))
    ensures forall x :: 0 <= x < NewEntries(tokens) ==>
              x in c.s.infos && !c.s.infos[x].inTried && IsEntry(tokens, 6 + x, c.s.infos[x].service)
  {
    hide TriedSlot, FlipBit30;
    var n := NewEntries(tokens);
    forall x | 0 <= x < n ensures x in c.s.infos && !c.s.infos[x].inTried && IsEntry(tokens, 6 + x, c.s.infos[x].service) {
      TraceReads(s, tokens[6..], 0, n, Usable(tokens), a, x);
      assert tokens[6..][x] == tokens[6 + x];
      assert x in a.s.infos && x in c.s.infos && c.s.infos[x] == a.s.infos[x];
    }
  }

  /** With addresses kept apart, an entry that may be referred to gives its host a reference. */
  lemma HostGetsReference(tokens: seq<Token>, h: NetAddr, p: Service, q: Service, x: int)
    requires ReadTables(Apart(h, p, q), tokens).Read? && NewEntries(tokens) >= 0 && TriedEntries(tokens) >= 0
    requires 0 <= x < NewEntries(tokens) && 6 + x < |tokens| && tokens[6 + x].TEntry? && tokens[6 + x].record.service.host == h
    requires !Usable(tokens) || Refers(tokens, x)
    ensures HostReferred(ReadTables(Apart(h, p, q), tokens).s, h)
  {
    hide ReadNew, ReadBuckets, ReadTables, FlipBit30, NewPhase, Referable, TriedTrace, NewTrace, HostReferred, BucketsRefer, Apart, BucketsHost, Usable;
    var env := Apart(h, p, q);
    HeaderRead(env, tokens);
    var n := NewEntries(tokens);
    var s := Empty(env, tokens[2].key).(nNew := n, nTried := TriedEntries(tokens));
    var a, c := BeforeBuckets(env, tokens);
    NewEntriesStand(tokens, s, a, c);
    if Usable(tokens) {
      BucketsAre(tokens);
      ListedHost(tokens, c.s, c.rest, x, h);
      ReadBucketsRefers(c.s, c.rest, 0, h, p, q);
    } else {
      assert tokens[6..][x] == tokens[6 + x];
      TraceRead(s, tokens[6..], n, a);
      ReadNewRefers(s, tokens[6..], 0, n, h, p, q);
      TriedKeeps(a.s, a.s.(idCount := n), a.rest, TriedEntries(tokens), c, h);
      ReadBucketsTrace(c.s, c.rest, 0, BucketCount(tokens), false, 0);
      ReferredStays(c.s, ReadTables(env, tokens).s, h);
    }
  }

  lemma BucketsAre(tokens: seq<Token>)
    requires HeaderFits(tokens) && Usable(tokens)
    ensures BucketCount(tokens) == NEW_BUCKET_COUNT
  {
  }

  lemma TraceRead(s: State, rest: seq<Token>, n: nat, a: Reading)
    requires NewTrace(s, rest, 0, n, false, a)
    ensures a.Read?
  {
  }

  lemma ListedHost(tokens: seq<Token>, s: State, rest: seq<Token>, x: int, h: NetAddr)
    requires HeaderFits(tokens) && Usable(tokens) && Refers(tokens, x) && 0 <= x < s.nNew && x in s.infos && !s.infos[x].inTried
    requires rest == Behind(tokens[6..], NewEntries(tokens) + TriedEntries(tokens)) && s.infos[x].service.host == h
    ensures BucketsHost(s, rest, 0, NEW_BUCKET_COUNT, h)
  {
    hide BucketsRefer, FlipBit30;
    assert BucketsRefer(rest, 0, NEW_BUCKET_COUNT, x);
  }

  lemma TriedKeeps(r: State, s: State, rest: seq<Token>, m: nat, c: Reading, h: NetAddr)
    requires Shape(s) && TriedTrace(s, rest, m, c) && HostReferred(r, h) && s.infos == r.infos
    ensures HostReferred(c.s, h)
  {
    hide TriedSlot;
    KeepsReferred(s, c.s, h);
  }

  /** With addresses kept apart, either of the two is in the tried table if the stream has it there. */
  lemma TriedFound(tokens: seq<Token>, v: State, h: NetAddr, p: Service, q: Service, k: int) returns (z: int)
    requires HeaderFits(tokens) && Shape(v) && Reflects(tokens, v) && TriedOk(v) && v.env == Apart(h, p, q)
    requires 6 + NewEntries(tokens) <= k < 6 + NewEntries(tokens) + TriedEntries(tokens)
    ensures k < |tokens| && tokens[k].TEntry?
    ensures tokens[k].record.service == p || tokens[k].record.service == q ==>
              z in v.infos && v.infos[z].inTried && v.infos[z].service == tokens[k].record.service
  {
    hide Refers, TriedSlot, FlipBit30;
    var e := tokens[k].record.service;
    var i := TriedSlot(v.env, v.key, e);
    z := v.triedTab[i];
    assert z != EMPTY;
    TriedApart(v.key, h, p, q, v.infos[z].service);
  }

  lemma HostAt(tokens: seq<Token>, h: NetAddr, p: Service, q: Service, i: int)
    requires ReadTables(Apart(h, p, q), tokens).Read? && NewEntries(tokens) >= 0 && TriedEntries(tokens) >= 0
    requires 6 <= i < 6 + NewEntries(tokens) && i < |tokens| && tokens[i].TEntry? && tokens[i].record.service.host == h
    requires !Usable(tokens) || Refers(tokens, i - 6)
    ensures HostReferred(ReadTables(Apart(h, p, q), tokens).s, h)
  {
    HeaderRead(Apart(h, p, q), tokens);
    hide ReadTables, FlipBit30, Apart, Refers, HostReferred, Usable;
    assert 6 + (i - 6) == i;
    HostGetsReference(tokens, h, p, q, i - 6);
  }

  /** Two new entries of one host, one of which may be referred to. */
  lemma NewShare(tokens: seq<Token>, i: int, j: int, h: NetAddr, p: Service, q: Service)
    requires ReadTables(Apart(h, p, q), tokens).Read? && NewEntries(tokens) >= 0 && TriedEntries(tokens) >= 0
    requires 6 <= i < j < 6 + NewEntries(tokens) && SameHost(tokens, i, j) && tokens[i].record.service.host == h
    requires !Usable(tokens) || Refers(tokens, i - 6) || Refers(tokens, j - 6)
    ensures !SurvivorsAlone(ReadTables(Apart(h, p, q), tokens).s)
  {
    HeaderRead(Apart(h, p, q), tokens);
    hide ReadTables, Referable, Reflects, FlipBit30, Apart, Refers, SurvivorsAlone, HostReferred, Usable;
    if !Usable(tokens) || Refers(tokens, i - 6) { HostAt(tokens, h, p, q, i); } else { HostAt(tokens, h, p, q, j); }
    LoadedReflects(Apart(h, p, q), tokens);
    NewPair(tokens, ReadTables(Apart(h, p, q), tokens).s, i, j, h);
  }

  lemma NewPair(tokens: seq<Token>, v: State, i: int, j: int, h: NetAddr)
    requires HeaderFits(tokens) && Shape(v) && Reflects(tokens, v) && HostReferred(v, h)
    requires 6 <= i < j < 6 + NewEntries(tokens) && SameHost(tokens, i, j) && tokens[i].record.service.host == h
    ensures !SurvivorsAlone(v)
  {
    hide Reflects, HostReferred, SurvivorsAlone;
    NewStands(tokens, v, i);
    NewStands(tokens, v, j);
    TwoOfHost(v, i - 6, j - 6, h);
  }

  /** A tried entry and another of its host, which is new or has a different address. */
  lemma TriedShare(tokens: seq<Token>, i: int, j: int, p: Service, q: Service)
    requires ReadTables(Apart(p.host, p, q), tokens).Read? && NewEntries(tokens) >= 0 && TriedEntries(tokens) >= 0
    requires 6 <= i < j < 6 + NewEntries(tokens) + TriedEntries(tokens) && j >= 6 + NewEntries(tokens) && SameHost(tokens, i, j)
    requires p == tokens[i].record.service && q == tokens[j].record.service && (i >= 6 + NewEntries(tokens) ==> p != q)
    ensures !SurvivorsAlone(ReadTables(Apart(p.host, p, q), tokens).s)
  {
    HeaderRead(Apart(p.host, p, q), tokens);
    hide ReadTables, Referable, Reflects, FlipBit30, Apart, Refers, TriedOk, NewOk, SurvivorsAlone;
    LoadedReflects(Apart(p.host, p, q), tokens);
    var v := ReadTables(Apart(p.host, p, q), tokens).s;
    ReferableTables(v);
    TriedPair(tokens, v, i, j, p, q);
  }

  lemma TriedPair(tokens: seq<Token>, v: State, i: int, j: int, p: Service, q: Service)
    requires HeaderFits(tokens) && Shape(v) && Reflects(tokens, v) && TriedOk(v) && v.env == Apart(p.host, p, q)
    requires 6 <= i < j < 6 + NewEntries(tokens) + TriedEntries(tokens) && j >= 6 + NewEntries(tokens) && SameHost(tokens, i, j)
    requires p == tokens[i].record.service && q == tokens[j].record.service && (i >= 6 + NewEntries(tokens) ==> p != q)
    ensures !SurvivorsAlone(v)
  {
    hide Reflects, Apart, TriedOk, SurvivorsAlone;
    var z := TriedFound(tokens, v, p.host, p, q, j);
    var y;
    if i < 6 + NewEntries(tokens) {
      NewStands(tokens, v, i);
      y := i - 6;
    } else {
      y := TriedFound(tokens, v, p.host, p, q, i);
    }
    TriedShares(v, z, y);
  }

  /** Two entries that make a stream harmful share a host with a survivor, if addresses are kept apart. */
  lemma ApartShares(tokens: seq<Token>, i: int, j: int)
    requires HeaderFits(tokens) && NewEntries(tokens) >= 0 && TriedEntries(tokens) >= 0
    requires 6 <= i < j < 6 + NewEntries(tokens) + TriedEntries(tokens) && SameHost(tokens, i, j) && !HarmlessPair(tokens, i, j)
    requires var p, q := tokens[i].record.service, tokens[j].record.service; ReadTables(Apart(p.host, p, q), tokens).Read?
    ensures var p, q := tokens[i].record.service, tokens[j].record.service; !SurvivorsAlone(ReadTables(Apart(p.host, p, q), tokens).s)
  {
    hide ReadTables, FlipBit30, Apart, Refers, SurvivorsAlone, Usable;
    var p, q := tokens[i].record.service, tokens[j].record.service;
    if j < 6 + NewEntries(tokens) { NewShare(tokens, i, j, p.host, p, q); } else { TriedShare(tokens, i, j, p, q); }
  }

  lemma TriedShares(v: State, z: int, y: int)
    requires z in v.infos && y in v.infos && v.infos[z].inTried && z != y && v.infos[z].service.host == v.infos[y].service.host
    ensures !SurvivorsAlone(v)
  {
    assert Survives(v.infos[z]);
  }

  lemma NewStands(tokens: seq<Token>, v: State, i: int)
    requires HeaderFits(tokens) && Shape(v) && Reflects(tokens, v) && 6 <= i < 6 + NewEntries(tokens)
    ensures i - 6 in v.infos && !v.infos[i - 6].inTried && IsEntry(tokens, i, v.infos[i - 6].service)
  {
    hide TriedSlot, Refers, FlipBit30;
    assert 6 + (i - 6) == i;
  }

  lemma TwoOfHost(v: State, x: int, y: int, h: NetAddr)
    requires HostReferred(v, h) && x in v.infos && y in v.infos && x != y && v.infos[x].service.host == h && v.infos[y].service.host == h
    ensures !SurvivorsAlone(v)
  {
    var z :| z in v.infos && !v.infos[z].inTried && v.infos[z].refCount != 0 && v.infos[z].service.host == h;
    assert Survives(v.infos[z]);
    var other := if z == x then y else x;
    assert other in v.infos && other != z && v.infos[other].service.host == h;
  }

  // ---------------------------------------------------------------- whether a stream can be read does not depend on the hashes

  /** Both can be read, and then the same is left over; or neither can. */
  ghost predicate Alike(r: Reading, u: Reading) { (r.Read? <==> u.Read?) && (r.Read? ==> r.rest == u.rest) }

  lemma {:induction false} ReadNewAlike(s: State, t: State, rest: seq<Token>, n: nat, count: int, usable: bool)
    ensures Alike(ReadNew(s, rest, n, count, usable), ReadNew(t, rest, n, count, usable))
    decreases count - n
  {
    hide LoadNew;
    if n < count && rest != [] && rest[0].TEntry? {
      ReadNewAlike(LoadNew(s, n, rest[0].record, usable), LoadNew(t, n, rest[0].record, usable), rest[1..], n + 1, count, usable);
    }
  }

  lemma {:induction false} ReadTriedAlike(s: State, t: State, rest: seq<Token>, n: nat, count: int)
    requires Shape(s) && Shape(t)
    ensures Alike(ReadTried(s, rest, n, count), ReadTried(t, rest, n, count))
    decreases count - n
  {
    hide LoadTried;
    if n < count && rest != [] && rest[0].TEntry? {
      ReadTriedAlike(LoadTried(s, rest[0].record), LoadTried(t, rest[0].record), rest[1..], n + 1, count);
    }
  }

  lemma {:induction false} ReadIndicesAlike(s: State, t: State, rest: seq<Token>, b: nat, n: int, usable: bool)
    requires Shape(s) && Shape(t) && (usable ==> b < NEW_BUCKET_COUNT)
    ensures Alike(ReadIndices(s, rest, b, n, usable), ReadIndices(t, rest, b, n, usable))
    decreases n
  {
    hide LoadIndex;
    if n > 0 && rest != [] && rest[0].TNum? {
      ReadIndicesAlike(LoadIndex(s, b, rest[0].num, usable), LoadIndex(t, b, rest[0].num, usable), rest[1..], b, n - 1, usable);
    }
  }

  lemma {:induction false} ReadBucketsAlike(s: State, t: State, rest: seq<Token>, b: nat, count: int, usable: bool)
    requires Shape(s) && Shape(t) && (usable ==> count == NEW_BUCKET_COUNT)
    ensures Alike(ReadBuckets(s, rest, b, count, usable), ReadBuckets(t, rest, b, count, usable))
    decreases count - b
  {
    hide ReadIndices;
    if b < count && rest != [] && rest[0].TNum? {
      ReadIndicesAlike(s, t, rest[1..], b, rest[0].num, usable);
      var r := ReadIndices(s, rest[1..], b, rest[0].num, usable);
      var u := ReadIndices(t, rest[1..], b, rest[0].num, usable);
      if r.Read? { ReadBucketsAlike(r.s, u.s, r.rest, b + 1, count, usable); }
    }
  }

  lemma TablesAlike(env: Oracle, other: Oracle, tokens: seq<Token>)
    requires ReadTables(env, tokens).Read?
    ensures ReadTables(other, tokens).Read?
  {
    hide ReadNew, ReadTried, ReadBuckets, FlipBit30;
    var n, m := tokens[3].num, tokens[4].num;
    var s := Empty(env, tokens[2].key).(nNew := n, nTried := m);
    var t := Empty(other, tokens[2].key).(nNew := n, nTried := m);
    ReadNewAlike(s, t, tokens[6..], 0, n, Usable(tokens));
    var a, b := ReadNew(s, tokens[6..], 0, n, Usable(tokens)), ReadNew(t, tokens[6..], 0, n, Usable(tokens));
    var c, d := a.s.(idCount := a.s.nNew), b.s.(idCount := b.s.nNew);
    ReadTriedAlike(c, d, a.rest, 0, m);
    ReadBucketsAlike(ReadTried(c, a.rest, 0, m).s, ReadTried(d, b.rest, 0, m).s, ReadTried(c, a.rest, 0, m).rest, 0, BucketCount(tokens), Usable(tokens));
  }

  // ---------------------------------------------------------------- exactly which streams are harmless

  /** Some manager reads the stream to its end; by TablesAlike every manager then does. */
  ghost predicate Readable(tokens: seq<Token>) { exists env: Oracle :: Unserialize(env, tokens).Read? }

  /** Whatever the hashes, reading the stream gives a sound manager. */
  ghost predicate AlwaysSound(tokens: seq<Token>) {
    forall env: Oracle :: Unserialize(env, tokens).Read? ==> Inv(Unserialize(env, tokens).s)
  }

  /** A harmless stream is read into a sound manager, whatever the hashes. */
  lemma LoadedIsSound(env: Oracle, tokens: seq<Token>)
    requires Unserialize(env, tokens).Read? && HeaderFits(tokens) && Harmless(tokens)
    ensures Inv(Unserialize(env, tokens).s)
  {
    LoadedSoundIff(env, tokens);
    hide Inv, ReadTables, SurvivorsAlone, FlipBit30, Referable, Reflects;
    LoadedReflects(env, tokens);
    HarmlessIsAlone(tokens, ReadTables(env, tokens).s);
  }

  /** A stream that can be read gives a sound manager for all hashes if and only if it is harmless. */
  lemma HarmlessIff(tokens: seq<Token>)
    requires Readable(tokens)
    ensures HeaderFits(tokens) && (AlwaysSound(tokens) <==> Harmless(tokens))
  {
    var env: Oracle :| Unserialize(env, tokens).Read?;
    LoadedSoundIff(env, tokens);
    hide Inv, Unserialize, ReadTables, SurvivorsAlone, FlipBit30, HarmlessPair, Apart;
    if Harmless(tokens) {
      forall other: Oracle | Unserialize(other, tokens).Read? ensures Inv(Unserialize(other, tokens).s) {
        LoadedIsSound(other, tokens);
      }
    } else if NewEntries(tokens) >= 0 && TriedEntries(tokens) >= 0 {
      var i, j :| 6 <= i < j < 6 + NewEntries(tokens) + TriedEntries(tokens) && SameHost(tokens, i, j) && !HarmlessPair(tokens, i, j);
      var p, q := tokens[i].record.service, tokens[j].record.service;
      var apart := Apart(p.host, p, q);
      TablesAlike(env, apart, tokens);
      ApartShares(tokens, i, j);
      TablesRead(apart, tokens);
      LoadedSoundIff(apart, tokens);
    }
  }

  lemma TablesRead(env: Oracle, tokens: seq<Token>)
    requires ReadTables(env, tokens).Read?
    ensures Unserialize(env, tokens).Read?
  {
  }

  // ---------------------------------------------------------------- two harmful streams

  /** A stream of the current version with no buckets, hence unusable references. */
  function WithoutBuckets(key: Key, n: int, entries: seq<Token>): seq<Token> {
    [TByte(FORMAT_VERSION), TByte(KEY_SIZE), TKey(key), TNum(n), TNum(0), TNum(BIT30)] + entries
  }

  /** A negative counter breaks the structure, whatever else the stream holds. */
  lemma NegativeCountIsUnsound(env: Oracle, tokens: seq<Token>)
    requires Unserialize(env, tokens).Read? && (tokens[3].num < 0 || tokens[4].num < 0)
    ensures !Inv(Unserialize(env, tokens).s)
  {
    hide Inv, SurvivorsAlone, ReadTables, Prune;
    LoadedSoundIff(env, tokens);
  }

  /** The same entry twice is read without complaint and leaves it unreachable by its host. */
  lemma RepeatedHostIsUnsound(env: Oracle, key: Key, e: Record)
    ensures var r := Unserialize(env, WithoutBuckets(key, 2, [TEntry(e), TEntry(e)])); r.Read? && !Inv(r.s)
  {
    hide NewSlot, NewBucket, LoadNew, Prune, ReadNew, Inv;
    var tokens := WithoutBuckets(key, 2, [TEntry(e), TEntry(e)]);
    assert tokens[6..] == [TEntry(e), TEntry(e)];
    assert FlipBit30(BIT30) == 0;
    var s := Empty(env, key).(nNew := 2);
    ReadTwice(s, e);
    TwiceLoaded(s, e);
    LoadedSoundIff(env, tokens);
    var v := ReadTables(env, tokens).s;
    assert 0 in v.infos && 1 in v.infos && Survives(v.infos[0]);
  }

  /** The same record as entries 0 and 1. */
  function Twice(s: State, e: Record): State { LoadNew(LoadNew(s, 0, e, false), 1, e, false) }

  lemma ReadTwice(s: State, e: Record)
    ensures ReadNew(s, [TEntry(e), TEntry(e)], 0, 2, false) == Read(Twice(s, e), [])
  {
    hide LoadNew;
    assert [TEntry(e), TEntry(e)][1..] == [TEntry(e)] && [TEntry(e)][1..] == [];
  }

  /** Both want the same slot, so only the first gets a reference. */
  lemma TwiceLoaded(s: State, e: Record)
    requires Shape(s) && s.random == [] && s.infos == map[] && forall i :: 0 <= i < NEW_SLOTS ==> s.newTab[i] == EMPTY
    ensures var u := Twice(s, e);
            && u.nNew == s.nNew && u.nTried == s.nTried && Shape(u) && 0 in u.infos && 1 in u.infos
            && u.infos[0].service == e.service && u.infos[1].service == e.service && u.infos[0].refCount == 1
  {
    hide NewSlot, NewBucket;
  }
}
