/**
 The address manager on disk: Serialize as a token stream, Unserialize as its reader, and the
 proof that reading back what was written restores the manager up to a renaming of ids.
 */
module AddrManDisk {
  import opened Basics
  import opened AddrManModel
  import opened AddrManInvariant
  import opened AddrManOperations

  /** The fields of CAddrInfo that are written out. */
  datatype Record = Record(
    service: Service, services: bv64, time: nat, source: NetAddr, lastSuccess: int, attempts: int)

  datatype Token = TByte(byte: nat) | TKey(key: Key) | TNum(num: int) | TEntry(record: Record)

  const FORMAT_VERSION: nat := 1
  const KEY_SIZE: nat := 32
  const BIT30: int := 0x4000_0000

  function ToRecord(i: Info): Record {
    Record(i.service, i.services, i.time, i.source, i.lastSuccess, i.attempts)
  }

  /** A freshly constructed entry filled from a record. */
  function FromRecord(r: Record): Info {
    Info(r.service, r.services, r.time, r.source, r.lastSuccess, r.attempts, 0, 0, 0, false, -1)
  }

  /** Exclusive-or with 2^30. */
  function FlipBit30(n: int): (r: int) {
    if n / BIT30 % 2 == 0 then n + BIT30 else n - BIT30
  }

  // ---------------------------------------------------------------- writing

  /** Which section an entry is written to: the "new" one goes by reference count. */
  predicate Listed(tried: bool, i: Info) {
    if tried then i.inTried else i.refCount != 0
  }

  /** The ids below k of one section, in ascending order. */
  function List(m: map<int, Info>, k: nat, tried: bool): seq<int> {
    if k == 0 then []
    else List(m, k - 1, tried) + if k - 1 in m && Listed(tried, m[k - 1]) then [k - 1] else []
  }

  /** mapUnkIds: how many referenced ids precede id. */
  function Rank(m: map<int, Info>, id: int): nat {
    if id < 0 then 0 else |List(m, id, false)|
  }

  function Entries(s: State, ids: seq<int>): seq<Token> {
    if ids == [] then [] else Entries(s, ids[..|ids| - 1]) + [TEntry(ToRecord(InfoOf(s, ids[|ids| - 1])))]
  }

  /** The indices written for the occupied slots of newTab[from..end]. */
  function Indices(s: State, from: nat, end: nat): seq<Token>
    requires Shape(s) && from <= end <= NEW_SLOTS
    decreases end - from
  {
    if from == end then []
    else (if s.newTab[from] != EMPTY then [TNum(Rank(s.infos, s.newTab[from]))] else []) + Indices(s, from + 1, end)
  }

  function BucketTokens(s: State, b: nat): seq<Token>
    requires Shape(s) && b < NEW_BUCKET_COUNT
  {
    var indices := Indices(s, b * BUCKET_SIZE, (b + 1) * BUCKET_SIZE);
    [TNum(|indices|)] + indices
  }

  function Buckets(s: State, b: nat): seq<Token>
    requires Shape(s) && b <= NEW_BUCKET_COUNT
    decreases NEW_BUCKET_COUNT - b
  {
    if b == NEW_BUCKET_COUNT then [] else BucketTokens(s, b) + Buckets(s, b + 1)
  }

  function Header(s: State): seq<Token> {
    [TByte(FORMAT_VERSION), TByte(KEY_SIZE), TKey(s.key), TNum(s.nNew), TNum(s.nTried),
     TNum(FlipBit30(NEW_BUCKET_COUNT))]
  }

  function Serialize(s: State): seq<Token>
    requires Shape(s) && 0 <= s.idCount
  {
    Header(s)
    + (Entries(s, List(s.infos, s.idCount, false))
       + (Entries(s, List(s.infos, s.idCount, true))
          + Buckets(s, 0)))
  }

  // ---------------------------------------------------------------- reading

  datatype Reading = Read(s: State, rest: seq<Token>) | Failed

  /** Add entry n, read from the "new" section; without usable bucket data it gets its primary slot. */
  function LoadNew(s: State, n: int, r: Record, usable: bool): (t: State)
    ensures Shape(s) ==> Shape(t)
  {
    var t := s.(infos := s.infos[n := FromRecord(r).(randomPos := |s.random|)],
                addrs := s.addrs[r.service.host := n], random := s.random + [n]);
    if usable || !Shape(t) then t else
      var i := NewSlot(s.env, s.key, NewBucket(s.env, s.key, r.service.host, r.source), r.service);
      if t.newTab[i] == EMPTY then PlaceNew(t, i, n) else t
  }

  function ReadNew(s: State, rest: seq<Token>, n: nat, count: int, usable: bool): (r: Reading)
    ensures r.Read? && Shape(s) ==> Shape(r.s)
    decreases count - n
  {
    if n >= count then Read(s, rest)
    else if rest == [] || !rest[0].TEntry? then Failed
    else ReadNew(LoadNew(s, n, rest[0].record, usable), rest[1..], n + 1, count, usable)
  }

  /** Add an entry read from the "tried" section, unless its slot is taken: then it is lost. */
  function LoadTried(s: State, r: Record): (t: State)
    requires Shape(s)
    ensures Shape(t)
  {
    var i := TriedSlot(s.env, s.key, r.service);
    if s.triedTab[i] != EMPTY then s.(nTried := s.nTried - 1) else
      s.(infos := s.infos[s.idCount := FromRecord(r).(randomPos := |s.random|, inTried := true)],
         random := s.random + [s.idCount], addrs := s.addrs[r.service.host := s.idCount],
         triedTab := s.triedTab[i := s.idCount], idCount := s.idCount + 1)
  }

  function ReadTried(s: State, rest: seq<Token>, n: nat, count: int): (r: Reading)
    requires Shape(s)
    ensures r.Read? ==> Shape(r.s)
    decreases count - n
  {
    if n >= count then Read(s, rest)
    else if rest == [] || !rest[0].TEntry? then Failed
    else ReadTried(LoadTried(s, rest[0].record), rest[1..], n + 1, count)
  }

  /** One index read for bucket b. */
  function LoadIndex(s: State, b: nat, index: int, usable: bool): (t: State)
    requires Shape(s) && (usable ==> b < NEW_BUCKET_COUNT)
    ensures Shape(t)
  {
    if !(0 <= index < s.nNew && usable) then s else
      var i := NewSlot(s.env, s.key, b, InfoOf(s, index).service);
      if s.newTab[i] == EMPTY && InfoOf(s, index).refCount < NEW_BUCKETS_PER_ADDRESS then PlaceNew(s, i, index) else s
  }

  function ReadIndices(s: State, rest: seq<Token>, b: nat, n: int, usable: bool): (r: Reading)
    requires Shape(s) && (usable ==> b < NEW_BUCKET_COUNT)
    ensures r.Read? ==> Shape(r.s)
    decreases n
  {
    if n <= 0 then Read(s, rest)
    else if rest == [] || !rest[0].TNum? then Failed
    else ReadIndices(LoadIndex(s, b, rest[0].num, usable), rest[1..], b, n - 1, usable)
  }

  function ReadBuckets(s: State, rest: seq<Token>, b: nat, count: int, usable: bool): (r: Reading)
    requires Shape(s) && (usable ==> count == NEW_BUCKET_COUNT)
    ensures r.Read? ==> Shape(r.s)
    decreases count - b
  {
    if b >= count then Read(s, rest)
    else if rest == [] || !rest[0].TNum? then Failed
    else
      match ReadIndices(s, rest[1..], b, rest[0].num, usable)
      case Failed => Failed
      case Read(t, more) => ReadBuckets(t, more, b + 1, count, usable)
  }

  /** Delete every untried entry without a reference, in ascending order of ids. */
  function Prune(s: State, id: int, stop: int): (t: State)
    requires Shape(s)
    ensures Shape(t)
    decreases stop - id
  {
    if id >= stop then s
    else Prune(if id in s.infos && !s.infos[id].inTried && s.infos[id].refCount == 0 then Delete(s, id) else s,
               id + 1, stop)
  }

  predicate HeaderFits(tokens: seq<Token>) {
    |tokens| >= 6 && tokens[0].TByte? && tokens[1].TByte? && tokens[1].byte == KEY_SIZE && tokens[2].TKey?
    && tokens[3].TNum? && tokens[4].TNum? && tokens[5].TNum?
  }

  /** The number of buckets; its bit 30 marks the newer formats. */
  function BucketCount(tokens: seq<Token>): int
    requires HeaderFits(tokens)
  {
    if tokens[0].byte != 0 then FlipBit30(tokens[5].num) else tokens[5].num
  }

  /** Whether the references of the stream can be used. */
  predicate Usable(tokens: seq<Token>)
    requires HeaderFits(tokens)
  {
    tokens[0].byte == FORMAT_VERSION && BucketCount(tokens) == NEW_BUCKET_COUNT
  }

  /** Everything Unserialize reads, before it prunes. */
  function ReadTables(env: Oracle, tokens: seq<Token>): (r: Reading)
    ensures r.Read? ==> Shape(r.s)
  {
    if !HeaderFits(tokens) then Failed else
      var s := Empty(env, tokens[2].key).(nNew := tokens[3].num, nTried := tokens[4].num);
      match ReadNew(s, tokens[6..], 0, s.nNew, Usable(tokens))
      case Failed => Failed
      case Read(t, afterNew) =>
        match ReadTried(t.(idCount := t.nNew), afterNew, 0, s.nTried)
        case Failed => Failed
        case Read(u, afterTried) => ReadBuckets(u, afterTried, 0, BucketCount(tokens), Usable(tokens))
  }

  /** Unserialize into a newly constructed manager. */
  function Unserialize(env: Oracle, tokens: seq<Token>): (r: Reading)
    ensures r.Read? ==> Shape(r.s)
  {
    match ReadTables(env, tokens)
    case Failed => Failed
    case Read(v, rest) => Read(Prune(v, 0, v.idCount), rest)
  }

  // ---------------------------------------------------------------- the lists

  ghost predicate Ascending(q: seq<int>) {
    forall i, j :: 0 <= i < j < |q| ==> q[i] < q[j]
  }

  lemma {:induction false} ListMembers(m: map<int, Info>, k: nat, tried: bool)
    ensures Ascending(List(m, k, tried))
    ensures forall j :: 0 <= j < |List(m, k, tried)| ==>
              var id := List(m, k, tried)[j]; 0 <= id < k && id in m && Listed(tried, m[id])
  {
    if k > 0 {
      ListMembers(m, k - 1, tried);
    }
  }

  lemma {:induction false} ListGrows(m: map<int, Info>, j: nat, k: nat, tried: bool)
    requires j <= k
    ensures List(m, j, tried) <= List(m, k, tried)
    decreases k - j
  {
    if j < k {
      ListGrows(m, j, k - 1, tried);
    }
  }

  /** The rank of a listed id is its place in the list. */
  lemma ListRank(m: map<int, Info>, k: nat, tried: bool, id: int)
    requires 0 <= id < k && id in m && Listed(tried, m[id])
    ensures |List(m, id, tried)| < |List(m, k, tried)| && List(m, k, tried)[|List(m, id, tried)|] == id
  {
    ListGrows(m, id + 1, k, tried);
    assert List(m, id + 1, tried) == List(m, id, tried) + [id];
  }

  ghost function ListedIds(m: map<int, Info>, k: nat, tried: bool): set<int> {
    set id | id in m && 0 <= id < k && Listed(tried, m[id])
  }

  lemma {:induction false} ListSize(m: map<int, Info>, k: nat, tried: bool)
    ensures |List(m, k, tried)| == |ListedIds(m, k, tried)|
  {
    if k == 0 {
      assert ListedIds(m, k, tried) == {};
    } else {
      ListSize(m, k - 1, tried);
      if k - 1 in m && Listed(tried, m[k - 1]) {
        assert ListedIds(m, k, tried) == ListedIds(m, k - 1, tried) + {k - 1};
      } else {
        assert ListedIds(m, k, tried) == ListedIds(m, k - 1, tried);
      }
    }
  }

  lemma ListedFacts(s: State)
    requires Shape(s) && Ok(s, {}, {})
    ensures 0 <= s.idCount
    ensures forall id :: id in s.infos ==>
              0 <= id < s.idCount && (Listed(false, s.infos[id]) <==> !s.infos[id].inTried)
  {
    hide RandomOk, AddrOk, NewOk, TriedOk, CountOk, Slots;
  }

  /** Serialize's assertions on nNew and nTried hold: the sections have exactly the counted sizes. */
  lemma SectionSizes(s: State)
    requires Shape(s) && Ok(s, {}, {})
    ensures 0 <= s.idCount
    ensures |List(s.infos, s.idCount, false)| == s.nNew
    ensures |List(s.infos, s.idCount, true)| == s.nTried
  {
    hide IdentityOk, NewOk, TriedOk, RefOk;
    ListedFacts(s);
    ListSize(s.infos, s.idCount, false);
    ListSize(s.infos, s.idCount, true);
    forall id | id in NewIds(s.infos) ensures id in ListedIds(s.infos, s.idCount, false) {}
    forall id | id in ListedIds(s.infos, s.idCount, false) ensures id in NewIds(s.infos) {}
    forall id | id in TriedIds(s.infos) ensures id in ListedIds(s.infos, s.idCount, true) {}
    forall id | id in ListedIds(s.infos, s.idCount, true) ensures id in TriedIds(s.infos) {}
    assert NewIds(s.infos) == ListedIds(s.infos, s.idCount, false);
    assert TriedIds(s.infos) == ListedIds(s.infos, s.idCount, true);
    assert NewIds(s.infos) - {} == NewIds(s.infos);
  }

  // ---------------------------------------------------------------- loading the entries

  /** All ids in the order in which Serialize writes them. */
  ghost function Order(s: State): seq<int>
    requires 0 <= s.idCount
  {
    List(s.infos, s.idCount, false) + List(s.infos, s.idCount, true)
  }

  /** What an entry looks like when read back as number x. */
  function Loaded(i: Info, x: int): Info {
    FromRecord(ToRecord(i)).(randomPos := x, inTried := i.inTried)
  }

  /** The new entry number of every old id. */
  ghost function Renamed(s: State, id: int): int
    requires 0 <= s.idCount
  {
    if id == EMPTY then EMPTY
    else if id in s.infos && s.infos[id].inTried && 0 <= id
    then |List(s.infos, s.idCount, false)| + |List(s.infos, id, true)|
    else Rank(s.infos, id)
  }

  /** A list of distinct known ids, none left out. */
  ghost predicate Enumerates(s: State, A: seq<int>) {
    && (forall x :: 0 <= x < |A| ==> A[x] in s.infos)
    && (forall x, y :: 0 <= x < y < |A| ==> A[x] != A[y])
  }

  lemma OrderEnumerates(s: State)
    requires Shape(s) && Ok(s, {}, {}) && 0 <= s.idCount
    ensures Enumerates(s, Order(s))
    ensures |Order(s)| == s.nNew + s.nTried
    ensures forall x :: 0 <= x < s.nNew ==> !s.infos[Order(s)[x]].inTried
    ensures forall x :: s.nNew <= x < |Order(s)| ==> s.infos[Order(s)[x]].inTried
  {
    hide Ok, List;
    ListedFacts(s);
    SectionSizes(s);
    ListMembers(s.infos, s.idCount, false);
    ListMembers(s.infos, s.idCount, true);
  }

  lemma OrderRenames(s: State, id: int)
    requires Shape(s) && Ok(s, {}, {}) && 0 <= s.idCount && id in s.infos
    ensures 0 <= Renamed(s, id) < |Order(s)| && Order(s)[Renamed(s, id)] == id
    ensures s.infos[id].inTried <==> s.nNew <= Renamed(s, id)
  {
    hide Ok, List;
    ListedFacts(s);
    SectionSizes(s);
    ListRank(s.infos, s.idCount, s.infos[id].inTried, id);
  }

  /** The first k entries of A have been read into t; no index has been read yet. */
  ghost predicate Loading(s: State, A: seq<int>, t: State, k: nat)
    requires Enumerates(s, A) && Shape(t)
  {
    && k <= |A| && t.env == s.env && t.key == s.key && t.nNew == s.nNew && t.nTried == s.nTried
    && t.collisions == {} && t.lastGood == 1
    && |t.random| == k && (forall x :: 0 <= x < k ==> t.random[x] == x)
    && (forall x :: x in t.infos <==> 0 <= x < k)
    && (forall x :: 0 <= x < k ==> t.infos[x] == Loaded(s.infos[A[x]], x))
    && (forall x :: 0 <= x < k ==> s.infos[A[x]].service.host in t.addrs && t.addrs[s.infos[A[x]].service.host] == x)
    && (forall h :: h in t.addrs ==> 0 <= t.addrs[h] < k && s.infos[A[t.addrs[h]]].service.host == h)
    && (forall i :: 0 <= i < NEW_SLOTS ==> t.newTab[i] == EMPTY)
  }

  /** The tried entries among them occupy their slots, and nothing else does. */
  ghost predicate TriedLoaded(s: State, A: seq<int>, t: State, k: nat)
    requires Enumerates(s, A) && Shape(t) && k <= |A|
  {
    && (forall x :: 0 <= x < k && s.infos[A[x]].inTried ==>
          t.triedTab[TriedSlot(s.env, s.key, s.infos[A[x]].service)] == x)
    && (forall i :: 0 <= i < TRIED_SLOTS && t.triedTab[i] != EMPTY ==>
          0 <= t.triedTab[i] < k && s.infos[A[t.triedTab[i]]].inTried
          && TriedSlot(s.env, s.key, s.infos[A[t.triedTab[i]]].service) == i)
  }

  ghost predicate DistinctHosts(s: State) {
    forall x, y :: x in s.infos && y in s.infos && s.infos[x].service.host == s.infos[y].service.host ==> x == y
  }

  lemma HostsDistinct(s: State)
    requires Shape(s) && Ok(s, {}, {})
    ensures DistinctHosts(s)
  {
    hide RandomOk, IdsOk, NewOk, TriedOk, RefOk, CountOk;
  }

  lemma LoadNewStep(s: State, A: seq<int>, t: State, k: nat)
    requires Enumerates(s, A) && Shape(t) && DistinctHosts(s) && Loading(s, A, t, k) && TriedLoaded(s, A, t, k)
    requires k < |A| && !s.infos[A[k]].inTried
    ensures var u := LoadNew(t, k, ToRecord(s.infos[A[k]]), true);
            Loading(s, A, u, k + 1) && TriedLoaded(s, A, u, k + 1) && u.idCount == t.idCount
  {
    hide TriedSlot;
  }

  /** No tried entry is lost: the slot of the next one is still free. */
  lemma TriedSlotFree(s: State, A: seq<int>, t: State, k: nat)
    requires Enumerates(s, A) && Shape(t) && Shape(s) && TriedOk(s) && k < |A| && s.infos[A[k]].inTried
    requires TriedLoaded(s, A, t, k)
    ensures t.triedTab[TriedSlot(s.env, s.key, s.infos[A[k]].service)] == EMPTY
  {
    hide TriedSlot;
  }

  lemma LoadTriedEntry(s: State, A: seq<int>, t: State, k: nat)
    requires Enumerates(s, A) && Shape(t) && DistinctHosts(s) && Loading(s, A, t, k)
    requires k < |A| && s.infos[A[k]].inTried && t.idCount == k
    requires t.triedTab[TriedSlot(t.env, t.key, s.infos[A[k]].service)] == EMPTY
    ensures var u := LoadTried(t, ToRecord(s.infos[A[k]]));
            Loading(s, A, u, k + 1) && u.idCount == k + 1
  {
    hide TriedSlot;
    LoadTriedHosts(s, A, t, k);
    hide DistinctHosts;
  }

  lemma LoadTriedHosts(s: State, A: seq<int>, t: State, k: nat)
    requires Enumerates(s, A) && Shape(t) && DistinctHosts(s) && Loading(s, A, t, k)
    requires k < |A| && s.infos[A[k]].inTried && t.idCount == k
    requires t.triedTab[TriedSlot(t.env, t.key, s.infos[A[k]].service)] == EMPTY
    ensures var u := LoadTried(t, ToRecord(s.infos[A[k]]));
            && (forall x :: 0 <= x < k + 1 ==> s.infos[A[x]].service.host in u.addrs && u.addrs[s.infos[A[x]].service.host] == x)
            && (forall h :: h in u.addrs ==> 0 <= u.addrs[h] < k + 1 && s.infos[A[u.addrs[h]]].service.host == h)
  {
    hide TriedSlot;
  }

  lemma LoadTriedSlots(s: State, A: seq<int>, t: State, k: nat)
    requires Enumerates(s, A) && Shape(t) && k < |A| && s.infos[A[k]].inTried && TriedLoaded(s, A, t, k)
    requires t.idCount == k && t.env == s.env && t.key == s.key
    requires t.triedTab[TriedSlot(s.env, s.key, s.infos[A[k]].service)] == EMPTY
    ensures TriedLoaded(s, A, LoadTried(t, ToRecord(s.infos[A[k]])), k + 1)
  {
    hide TriedSlot;
  }

  lemma LoadTriedStep(s: State, A: seq<int>, t: State, k: nat)
    requires Enumerates(s, A) && Shape(t) && DistinctHosts(s) && Loading(s, A, t, k) && TriedLoaded(s, A, t, k)
    requires Shape(s) && TriedOk(s)
    requires k < |A| && s.infos[A[k]].inTried && t.idCount == k
    ensures var u := LoadTried(t, ToRecord(s.infos[A[k]]));
            Loading(s, A, u, k + 1) && TriedLoaded(s, A, u, k + 1) && u.idCount == k + 1
  {
    assert t.env == s.env && t.key == s.key;
    hide TriedSlot, Loading, TriedLoaded, LoadTried, TriedOk;
    TriedSlotFree(s, A, t, k);
    LoadTriedEntry(s, A, t, k);
    LoadTriedSlots(s, A, t, k);
  }

  lemma {:induction false} EntriesAt(s: State, ids: seq<int>)
    ensures |Entries(s, ids)| == |ids|
    ensures forall j :: 0 <= j < |ids| ==> Entries(s, ids)[j] == TEntry(ToRecord(InfoOf(s, ids[j])))
  {
    if ids != [] {
      EntriesAt(s, ids[..|ids| - 1]);
    }
  }

  /** rest starts with the records of A[k..n]. */
  ghost predicate Holds(s: State, A: seq<int>, rest: seq<Token>, k: nat, n: nat)
    requires Enumerates(s, A)
  {
    && k <= n <= |A| && n - k <= |rest|
    && forall j :: 0 <= j < n - k ==> rest[j] == TEntry(ToRecord(s.infos[A[k + j]]))
  }

  lemma HoldsNext(s: State, A: seq<int>, rest: seq<Token>, k: nat, n: nat)
    requires Enumerates(s, A) && Holds(s, A, rest, k, n) && k < n
    ensures rest != [] && rest[0] == TEntry(ToRecord(s.infos[A[k]])) && Holds(s, A, rest[1..], k + 1, n)
    ensures rest[1..][n - (k + 1)..] == rest[n - k..]
  {
    forall j | 0 <= j < n - (k + 1) ensures rest[1..][j] == TEntry(ToRecord(s.infos[A[k + 1 + j]])) {
      assert rest[1..][j] == rest[j + 1];
    }
  }

  lemma {:induction false} ReadNewSection(s: State, A: seq<int>, t: State, rest: seq<Token>, k: nat, n: nat)
    requires Enumerates(s, A) && Shape(t) && DistinctHosts(s) && Holds(s, A, rest, k, n)
    requires Loading(s, A, t, k) && TriedLoaded(s, A, t, k)
    requires forall x :: k <= x < n ==> !s.infos[A[x]].inTried
    ensures var r := ReadNew(t, rest, k, n, true);
            && r.Read? && Shape(r.s) && r.rest == rest[n - k..] && r.s.idCount == t.idCount
            && Loading(s, A, r.s, n) && TriedLoaded(s, A, r.s, n)
    decreases n - k
  {
    hide Loading, TriedLoaded, LoadNew, DistinctHosts, Holds;
    if k == n {
      HoldsBounds(s, A, rest, k, n);
      assert rest[0..] == rest;
    } else {
      HoldsBounds(s, A, rest, k, n);
      HoldsNext(s, A, rest, k, n);
      LoadNewStep(s, A, t, k);
      ReadNewSection(s, A, LoadNew(t, k, rest[0].record, true), rest[1..], k + 1, n);
    }
  }

  lemma HoldsBounds(s: State, A: seq<int>, rest: seq<Token>, k: nat, n: nat)
    requires Enumerates(s, A) && Holds(s, A, rest, k, n)
    ensures k <= n <= |A| && n - k <= |rest|
  {
  }

  lemma {:induction false} ReadTriedSection(s: State, A: seq<int>, t: State, rest: seq<Token>, k: nat, n: nat, c: nat)
    requires Enumerates(s, A) && Shape(t) && DistinctHosts(s) && Holds(s, A, rest, k, n)
    requires Loading(s, A, t, k) && TriedLoaded(s, A, t, k) && Shape(s) && TriedOk(s) && t.idCount == k
    requires forall x :: k <= x < n ==> s.infos[A[x]].inTried
    ensures var r := ReadTried(t, rest, c, c + n - k);
            && r.Read? && Shape(r.s) && r.rest == rest[n - k..] && r.s.idCount == n
            && Loading(s, A, r.s, n) && TriedLoaded(s, A, r.s, n)
    decreases n - k
  {
    hide Loading, TriedLoaded, LoadTried, DistinctHosts, Holds, TriedOk;
    HoldsBounds(s, A, rest, k, n);
    if k == n {
      assert rest[0..] == rest;
    } else {
      HoldsNext(s, A, rest, k, n);
      LoadTriedStep(s, A, t, k);
      ReadTriedSection(s, A, LoadTried(t, rest[0].record), rest[1..], k + 1, n, c + 1);
    }
  }

  // ---------------------------------------------------------------- placing the references

  /** Slots 0..k of the "new" table have been restored on top of the loaded entries u. */
  ghost predicate Placing(s: State, A: seq<int>, u: State, t: State, k: nat)
    requires Shape(s) && Shape(t) && Shape(u) && 0 <= s.idCount && k <= NEW_SLOTS
  {
    && t == u.(newTab := t.newTab, infos := t.infos)
    && (forall x :: x in t.infos <==> 0 <= x < |A|)
    && (forall x :: x in u.infos <==> 0 <= x < |A|)
    && (forall x :: 0 <= x < |A| ==> t.infos[x] == u.infos[x].(refCount := |Slots(s.newTab[..k], A[x])|))
    && (forall i :: 0 <= i < k ==> t.newTab[i] == Renamed(s, s.newTab[i]))
    && (forall i :: k <= i < NEW_SLOTS ==> t.newTab[i] == EMPTY)
  }

  lemma SlotsStep(q: seq<int>, k: nat, id: int)
    requires k < |q|
    ensures Slots(q[..k + 1], id) == Slots(q[..k], id) + if q[k] == id then {k} else {}
    ensures |Slots(q[..k + 1], id)| == |Slots(q[..k], id)| + if q[k] == id then 1 else 0
    ensures |Slots(q[..k + 1], id)| <= |Slots(q, id)|
  {
    assert Slots(q[..k + 1], id) == Slots(q[..k], id) + if q[k] == id then {k} else {};
    assert Slots(q[..k + 1], id) <= Slots(q, id);
    SubsetSize(Slots(q[..k + 1], id), Slots(q, id));
  }

  /** The state of the entries while references are being placed. */
  ghost predicate Base(s: State, A: seq<int>, u: State) {
    && Shape(s) && Shape(u) && 0 <= s.idCount && |A| == |u.random| && EMPTY !in s.infos
    && u.env == s.env && u.key == s.key && u.nNew == s.nNew
    && (forall x :: 0 <= x < |A| ==> A[x] in s.infos)
    && (forall x :: 0 <= x < |A| ==> x in u.infos && u.infos[x] == Loaded(s.infos[A[x]], x))
  }

  /** What is known about the holder of slot k and its new name. */
  ghost predicate Holder(s: State, A: seq<int>, k: nat)
    requires Shape(s) && 0 <= s.idCount && k < NEW_SLOTS
  {
    var id := s.newTab[k];
    id != EMPTY ==>
      && id in s.infos && |Slots(s.newTab, id)| <= NEW_BUCKETS_PER_ADDRESS
      && NewSlot(s.env, s.key, k / BUCKET_SIZE, s.infos[id].service) == k
      && 0 <= Renamed(s, id) < s.nNew && Renamed(s, id) < |A| && A[Renamed(s, id)] == id
      && Renamed(s, id) == Rank(s.infos, id)
  }

  lemma HolderKnown(s: State, k: nat)
    requires Shape(s) && Ok(s, {}, {}) && 0 <= s.idCount && k < NEW_SLOTS
    ensures Holder(s, Order(s), k)
  {
    if s.newTab[k] != EMPTY {
      var id := s.newTab[k];
      HolderFacts(s, k);
      hide Ok, NewSlot, Order, Slots, List;
      OrderRenames(s, id);
      ListedFacts(s);
      OrderSize(s);
    }
  }

  lemma OrderSize(s: State)
    requires Shape(s) && Ok(s, {}, {}) && 0 <= s.idCount
    ensures |Order(s)| == s.nNew + s.nTried && 0 <= s.nNew && 0 <= s.nTried
  {
    hide Ok, List;
    SectionSizes(s);
  }

  lemma HolderFacts(s: State, k: nat)
    requires Shape(s) && Ok(s, {}, {}) && k < NEW_SLOTS && s.newTab[k] != EMPTY
    ensures var id := s.newTab[k];
            && id in s.infos && !s.infos[id].inTried && |Slots(s.newTab, id)| <= NEW_BUCKETS_PER_ADDRESS
            && NewSlot(s.env, s.key, k / BUCKET_SIZE, s.infos[id].service) == k
  {
    hide IdentityOk, TriedOk, CountOk, Slots, NewSlot;
  }

  lemma PlaceStep(s: State, A: seq<int>, u: State, t: State, k: nat)
    requires Base(s, A, u) && Enumerates(s, A) && Shape(t) && k < NEW_SLOTS && Placing(s, A, u, t, k) && Holder(s, A, k)
    requires s.newTab[k] != EMPTY
    ensures Placing(s, A, u, LoadIndex(t, k / BUCKET_SIZE, Rank(s.infos, s.newTab[k]), true), k + 1)
  {
    var id := s.newTab[k];
    var x := Renamed(s, id);
    SlotsStep(s.newTab, k, id);
    assert t.infos[x].refCount < NEW_BUCKETS_PER_ADDRESS;
    hide Renamed, Slots, Rank, NewSlot;
    var r := LoadIndex(t, k / BUCKET_SIZE, x, true);
    assert r == PlaceNew(t, k, x);
    forall y | 0 <= y < |A|
      ensures r.infos[y] == u.infos[y].(refCount := |Slots(s.newTab[..k + 1], A[y])|)
    {
      SlotsStep(s.newTab, k, A[y]);
    }
  }

  lemma SkipStep(s: State, A: seq<int>, u: State, t: State, k: nat)
    requires Base(s, A, u) && Enumerates(s, A) && Shape(t) && k < NEW_SLOTS && Placing(s, A, u, t, k)
    requires s.newTab[k] == EMPTY
    ensures Placing(s, A, u, t, k + 1)
  {
    hide Slots, Rank, NewSlot;
    forall y | 0 <= y < |A| ensures |Slots(s.newTab[..k + 1], A[y])| == |Slots(s.newTab[..k], A[y])| {
      SlotsStep(s.newTab, k, A[y]);
    }
  }

  lemma {:induction false} ReadIndicesOf(s: State, A: seq<int>, u: State, t: State, rest: seq<Token>, k: nat, end: nat, b: nat)
    requires Base(s, A, u) && Enumerates(s, A) && Shape(t) && k <= end <= NEW_SLOTS && Placing(s, A, u, t, k)
    requires b < NEW_BUCKET_COUNT && forall i :: k <= i < end ==> Holder(s, A, i) && i / BUCKET_SIZE == b
    ensures var indices := Indices(s, k, end);
            var r := ReadIndices(t, indices + rest, b, |indices|, true);
            r.Read? && r.rest == rest && Placing(s, A, u, r.s, end)
    decreases end - k
  {
    hide Base, Enumerates, Placing, Holder, LoadIndex, Rank, NewSlot;
    BaseShape(s, A, u);
    var indices := Indices(s, k, end);
    if k == end {
      assert indices + rest == rest;
    } else {
      assert Holder(s, A, k);
      if s.newTab[k] == EMPTY {
        SkipStep(s, A, u, t, k);
        assert indices == Indices(s, k + 1, end);
        ReadIndicesOf(s, A, u, t, rest, k + 1, end, b);
      } else {
        PlaceStep(s, A, u, t, k);
        var t' := LoadIndex(t, b, Rank(s.infos, s.newTab[k]), true);
        assert (indices + rest)[1..] == Indices(s, k + 1, end) + rest;
        ReadIndicesOf(s, A, u, t', rest, k + 1, end, b);
      }
    }
  }

  lemma BaseShape(s: State, A: seq<int>, u: State)
    requires Base(s, A, u)
    ensures Shape(s) && Shape(u) && 0 <= s.idCount
  {
  }

  lemma {:induction false} ReadBucketsOf(s: State, A: seq<int>, u: State, t: State, b: nat)
    requires Base(s, A, u) && Enumerates(s, A) && Shape(t) && b <= NEW_BUCKET_COUNT && Placing(s, A, u, t, b * BUCKET_SIZE)
    requires forall i :: 0 <= i < NEW_SLOTS ==> Holder(s, A, i)
    ensures var r := ReadBuckets(t, Buckets(s, b), b, NEW_BUCKET_COUNT, true);
            r.Read? && r.rest == [] && Placing(s, A, u, r.s, NEW_SLOTS)
    decreases NEW_BUCKET_COUNT - b
  {
    hide Base, Enumerates, Placing, Holder, ReadIndices, Indices, Rank;
    BaseShape(s, A, u);
    if b < NEW_BUCKET_COUNT {
      var indices := Indices(s, b * BUCKET_SIZE, (b + 1) * BUCKET_SIZE);
      var more := Buckets(s, b + 1);
      assert Buckets(s, b) == [TNum(|indices|)] + indices + more;
      assert Buckets(s, b)[1..] == indices + more;
      ReadIndicesOf(s, A, u, t, more, b * BUCKET_SIZE, (b + 1) * BUCKET_SIZE, b);
      ReadBucketsOf(s, A, u, ReadIndices(t, indices + more, b, |indices|, true).s, b + 1);
    }
  }

  lemma {:induction false} PruneNothing(s: State, id: int, stop: int)
    requires Shape(s) && forall x :: x in s.infos ==> s.infos[x].inTried || s.infos[x].refCount != 0
    ensures Prune(s, id, stop) == s
    decreases stop - id
  {
    if id < stop {
      PruneNothing(s, id + 1, stop);
    }
  }

  // ---------------------------------------------------------------- the round trip

  /** t is s with every id replaced by its new name; memory-only statistics are reset. */
  ghost predicate Isomorphic(s: State, t: State)
    requires Shape(s) && Shape(t) && 0 <= s.idCount
  {
    && t.env == s.env && t.key == s.key && t.nNew == s.nNew && t.nTried == s.nTried
    && (forall id :: id in s.infos ==>
          && Renamed(s, id) in t.infos
          && ToRecord(t.infos[Renamed(s, id)]) == ToRecord(s.infos[id])
          && t.infos[Renamed(s, id)].refCount == s.infos[id].refCount
          && t.infos[Renamed(s, id)].inTried == s.infos[id].inTried)
    && (forall x :: x in t.infos ==> 0 <= x < |Order(s)| && Order(s)[x] in s.infos && Renamed(s, Order(s)[x]) == x)
    && (forall i :: 0 <= i < NEW_SLOTS ==> t.newTab[i] == Renamed(s, s.newTab[i]))
    && (forall i :: 0 <= i < TRIED_SLOTS ==> t.triedTab[i] == Renamed(s, s.triedTab[i]))
    && (forall h :: h in s.addrs <==> h in t.addrs)
    && (forall h :: h in s.addrs ==> t.addrs[h] == Renamed(s, s.addrs[h]))
  }

  /** Everything known about the state after the last index has been read. */
  ghost predicate Restored(s: State, t: State)
    requires Shape(s) && Shape(t) && 0 <= s.idCount
  {
    var A := Order(s);
    && t.env == s.env && t.key == s.key && t.nNew == s.nNew && t.nTried == s.nTried
    && t.collisions == {} && t.idCount == |A| == |t.random|
    && (forall x :: 0 <= x < |A| ==> t.random[x] == x)
    && (forall x :: x in t.infos <==> 0 <= x < |A|)
    && (forall x :: 0 <= x < |A| ==>
          A[x] in s.infos && t.infos[x] == Loaded(s.infos[A[x]], x).(refCount := s.infos[A[x]].refCount))
    && (forall x :: 0 <= x < |A| ==> s.infos[A[x]].service.host in t.addrs && t.addrs[s.infos[A[x]].service.host] == x)
    && (forall h :: h in t.addrs ==> 0 <= t.addrs[h] < |A| && s.infos[A[t.addrs[h]]].service.host == h)
    && (forall i :: 0 <= i < NEW_SLOTS ==> t.newTab[i] == Renamed(s, s.newTab[i]))
    && Enumerates(s, A) && TriedLoaded(s, A, t, |A|)
  }

  /** Order and Renamed are mutually inverse. */
  ghost predicate Renaming(s: State)
    requires 0 <= s.idCount
  {
    && Enumerates(s, Order(s)) && EMPTY !in s.infos && 0 <= s.nNew && |Order(s)| == s.nNew + s.nTried
    && (forall id :: id in s.infos ==>
          && 0 <= Renamed(s, id) < |Order(s)| && Order(s)[Renamed(s, id)] == id
          && (s.infos[id].inTried <==> s.nNew <= Renamed(s, id)))
    && (forall x :: 0 <= x < |Order(s)| ==>
          && Renamed(s, Order(s)[x]) == x && (s.infos[Order(s)[x]].inTried <==> s.nNew <= x))
  }

  lemma RenamingHolds(s: State)
    requires Shape(s) && Ok(s, {}, {}) && 0 <= s.idCount
    ensures Renaming(s)
  {
    hide Ok, List, Order, Renamed;
    OrderEnumerates(s);
    OrderSize(s);
    FloatingKnown(s, {}, {});
    forall id | id in s.infos
      ensures 0 <= Renamed(s, id) < |Order(s)| && Order(s)[Renamed(s, id)] == id
      ensures s.infos[id].inTried <==> s.nNew <= Renamed(s, id)
    {
      OrderRenames(s, id);
    }
    forall x | 0 <= x < |Order(s)| ensures Renamed(s, Order(s)[x]) == x {
      OrderRenames(s, Order(s)[x]);
    }
  }

  lemma RestoredIdentity(s: State, t: State)
    requires Shape(s) && Shape(t) && 0 <= s.idCount && Restored(s, t)
    ensures IdentityOk(t)
  {
    hide Order, Renamed, TriedLoaded, Enumerates;
  }

  lemma RestoredSlots(s: State, t: State, x: int)
    requires Shape(s) && Shape(t) && 0 <= s.idCount && Restored(s, t) && Renaming(s) && NewOk(s)
    requires 0 <= x < |Order(s)|
    ensures Slots(t.newTab, x) == Slots(s.newTab, Order(s)[x])
  {
    hide Order, TriedLoaded, Enumerates, NewSlot, Rank, List;
    forall i | 0 <= i < NEW_SLOTS ensures t.newTab[i] == x <==> s.newTab[i] == Order(s)[x] {
      if t.newTab[i] == x {
        assert s.newTab[i] != EMPTY;
        assert s.newTab[i] in s.infos;
      }
    }
  }

  lemma RestoredTables(s: State, t: State)
    requires Shape(s) && Shape(t) && 0 <= s.idCount && Restored(s, t) && Renaming(s) && NewOk(s)
    ensures NewOk(t) && TriedOk(t)
  {
    hide Order, Enumerates, NewSlot, TriedSlot, Rank, List;
    forall i | 0 <= i < NEW_SLOTS && t.newTab[i] != EMPTY
      ensures t.newTab[i] in t.infos && !t.infos[t.newTab[i]].inTried
      ensures NewSlot(t.env, t.key, i / BUCKET_SIZE, t.infos[t.newTab[i]].service) == i
    {
      var id := s.newTab[i];
      assert id != EMPTY && id in s.infos && Order(s)[Renamed(s, id)] == id;
    }
  }

  lemma RestoredRefs(s: State, t: State)
    requires Shape(s) && Shape(t) && 0 <= s.idCount && Restored(s, t) && Renaming(s) && NewOk(s) && RefOk(s, {})
    ensures RefOk(t, {})
  {
    hide Order, Enumerates, TriedLoaded, NewSlot, Renamed, Slots, NewOk;
    forall x | x in t.infos
      ensures t.infos[x].refCount == |Slots(t.newTab, x)| <= NEW_BUCKETS_PER_ADDRESS
      ensures t.infos[x].refCount == 0 <==> t.infos[x].inTried
    {
      RestoredSlots(s, t, x);
    }
  }

  ghost function Range(lo: int, hi: int): set<int>
    decreases hi - lo
  {
    if lo >= hi then {} else Range(lo, hi - 1) + {hi - 1}
  }

  lemma {:induction false} RangeIs(lo: int, hi: int)
    requires lo <= hi
    ensures forall x :: x in Range(lo, hi) <==> lo <= x < hi
    ensures |Range(lo, hi)| == hi - lo
    decreases hi - lo
  {
    if lo < hi { RangeIs(lo, hi - 1); }
  }

  lemma CountsByRange(t: State, split: int, total: int)
    requires 0 <= split <= total && t.nNew == split && t.nTried == total - split
    requires forall x :: x in t.infos <==> 0 <= x < total
    requires forall x :: 0 <= x < total ==> (t.infos[x].inTried <==> split <= x)
    ensures CountOk(t, {})
  {
    RangeIs(0, split);
    RangeIs(split, total);
    forall x | x in NewIds(t.infos) ensures x in Range(0, split) {}
    forall x | x in Range(0, split) ensures x in NewIds(t.infos) {}
    forall x | x in TriedIds(t.infos) ensures x in Range(split, total) {}
    forall x | x in Range(split, total) ensures x in TriedIds(t.infos) {}
    assert NewIds(t.infos) == Range(0, split) && TriedIds(t.infos) == Range(split, total);
    assert NewIds(t.infos) - {} == NewIds(t.infos);
  }

  lemma RestoredCounts(s: State, t: State)
    requires Shape(s) && Shape(t) && 0 <= s.idCount && Restored(s, t) && Renaming(s) && 0 <= s.nTried
    ensures CountOk(t, {})
  {
    hide Order, Enumerates, TriedLoaded, NewSlot, Renamed, CountOk;
    CountsByRange(t, s.nNew, |Order(s)|);
  }

  /** The restored manager satisfies the whole invariant. */
  lemma RestoredInv(s: State, t: State)
    requires Inv(s) && Shape(t) && 0 <= s.idCount && Restored(s, t)
    ensures Inv(t)
  {
    assert NewOk(s) && RefOk(s, {});
    hide IdentityOk, NewOk, TriedOk, RefOk, CountOk, TriedSlot, NewSlot, Order, Renamed, Renaming, TriedLoaded, Enumerates;
    RenamingHolds(s);
    OrderSize(s);
    RestoredIdentity(s, t);
    RestoredTables(s, t);
    RestoredRefs(s, t);
    RestoredCounts(s, t);
  }

  lemma RestoredTriedSlot(s: State, t: State, i: nat)
    requires Shape(s) && Shape(t) && 0 <= s.idCount && Restored(s, t) && Renaming(s) && TriedOk(s) && i < TRIED_SLOTS
    ensures t.triedTab[i] == Renamed(s, s.triedTab[i])
  {
    hide Order, Enumerates, TriedSlot, List, Rank;
    if s.triedTab[i] != EMPTY {
      assert Order(s)[Renamed(s, s.triedTab[i])] == s.triedTab[i];
    }
  }

  lemma RestoredEntries(s: State, t: State)
    requires Shape(s) && Shape(t) && 0 <= s.idCount && Restored(s, t) && Renaming(s)
    ensures forall id :: id in s.infos ==>
              && Renamed(s, id) in t.infos
              && t.infos[Renamed(s, id)] == Loaded(s.infos[id], Renamed(s, id)).(refCount := s.infos[id].refCount)
  {
    hide Order, Enumerates, Renamed, TriedLoaded;
    forall id | id in s.infos
      ensures Renamed(s, id) in t.infos
      ensures t.infos[Renamed(s, id)] == Loaded(s.infos[id], Renamed(s, id)).(refCount := s.infos[id].refCount)
    {
      assert Order(s)[Renamed(s, id)] == id;
    }
  }

  lemma RestoredAddrs(s: State, t: State)
    requires Shape(s) && Shape(t) && 0 <= s.idCount && Restored(s, t) && Renaming(s) && AddrOk(s)
    ensures forall h :: h in s.addrs <==> h in t.addrs
    ensures forall h :: h in s.addrs ==> t.addrs[h] == Renamed(s, s.addrs[h])
  {
    hide Order, Enumerates, Renamed, TriedLoaded;
    forall h | h in s.addrs ensures h in t.addrs && t.addrs[h] == Renamed(s, s.addrs[h]) {
      assert Order(s)[Renamed(s, s.addrs[h])] == s.addrs[h];
    }
    forall h | h in t.addrs ensures h in s.addrs {
      assert Order(s)[t.addrs[h]] in s.infos;
    }
  }

  lemma RestoredIsIsomorphic(s: State, t: State)
    requires Shape(s) && Shape(t) && 0 <= s.idCount && Restored(s, t) && Renaming(s) && TriedOk(s) && AddrOk(s)
    ensures Isomorphic(s, t)
  {
    hide Order, Enumerates, TriedSlot, TriedLoaded, Renamed, TriedOk, AddrOk;
    forall i | 0 <= i < TRIED_SLOTS ensures t.triedTab[i] == Renamed(s, s.triedTab[i]) {
      RestoredTriedSlot(s, t, i);
    }
    RestoredEntries(s, t);
    RestoredAddrs(s, t);
  }

  lemma EmptyLoading(s: State, A: seq<int>)
    requires Enumerates(s, A)
    ensures var e := Empty(s.env, s.key).(nNew := s.nNew, nTried := s.nTried);
            Shape(e) && Loading(s, A, e, 0) && TriedLoaded(s, A, e, 0)
  {
  }

  lemma SetIdCount(s: State, A: seq<int>, t: State, k: nat, c: int)
    requires Enumerates(s, A) && Shape(t) && Loading(s, A, t, k) && TriedLoaded(s, A, t, k)
    ensures var u := t.(idCount := c); Shape(u) && Loading(s, A, u, k) && TriedLoaded(s, A, u, k)
  {
    hide TriedSlot;
  }

  lemma StartPlacing(s: State, A: seq<int>, u: State)
    requires Shape(s) && Shape(u) && 0 <= s.idCount && EMPTY !in s.infos && Enumerates(s, A) && Loading(s, A, u, |A|)
    ensures Base(s, A, u) && Placing(s, A, u, u, 0)
  {
    hide Renamed;
    forall x | 0 <= x < |A| ensures |Slots(s.newTab[..0], A[x])| == 0 {
      assert Slots(s.newTab[..0], A[x]) == {};
    }
  }

  lemma FinishPlacing(s: State, u: State, t: State)
    requires Shape(s) && Shape(u) && Shape(t) && 0 <= s.idCount && RefOk(s, {}) && Enumerates(s, Order(s))
    requires Loading(s, Order(s), u, |Order(s)|) && TriedLoaded(s, Order(s), u, |Order(s)|)
    requires u.idCount == |Order(s)| && Placing(s, Order(s), u, t, NEW_SLOTS)
    ensures Restored(s, t)
    ensures forall x :: x in t.infos ==> t.infos[x].inTried || t.infos[x].refCount != 0
  {
    hide Order, Renamed, Slots, TriedSlot;
    assert s.newTab[..NEW_SLOTS] == s.newTab;
  }

  /** Reading the entry sections of what Serialize wrote. */
  lemma SectionsHold(s: State)
    requires Shape(s) && Ok(s, {}, {}) && 0 <= s.idCount && Enumerates(s, Order(s)) && 0 <= s.nNew && 0 <= s.nTried
    requires |Order(s)| == s.nNew + s.nTried
    ensures var body := Serialize(s)[6..];
            && |body| >= |Order(s)|
            && Holds(s, Order(s), body, 0, s.nNew)
            && Holds(s, Order(s), body[s.nNew..], s.nNew, |Order(s)|)
            && body[s.nNew..][s.nTried..] == Buckets(s, 0)
            && Serialize(s)[..6] == Header(s) && |Serialize(s)| >= 6
  {
    hide Ok, Buckets, List;
    SectionSizes(s);
    var N, T := List(s.infos, s.idCount, false), List(s.infos, s.idCount, true);
    EntriesAt(s, N);
    EntriesAt(s, T);
    var tail := Entries(s, T) + Buckets(s, 0);
    assert Serialize(s)[6..] == Entries(s, N) + tail;
    assert (Entries(s, N) + tail)[|N|..] == tail;
    assert tail[|T|..] == Buckets(s, 0);
    assert Serialize(s)[..6] == Header(s);
    forall j | 0 <= j < |N| ensures (Entries(s, N) + tail)[j] == TEntry(ToRecord(s.infos[Order(s)[j]])) {
      assert Order(s)[j] == N[j];
    }
    forall j | 0 <= j < |T| ensures tail[j] == TEntry(ToRecord(s.infos[Order(s)[|N| + j]])) {
      assert Order(s)[|N| + j] == T[j];
    }
  }

  /** The state in which both entry sections have been read back. */
  ghost predicate SectionsRead(s: State, u: State)
    requires 0 <= s.idCount && Enumerates(s, Order(s))
  {
    && Shape(u) && u.idCount == |Order(s)|
    && Loading(s, Order(s), u, |Order(s)|) && TriedLoaded(s, Order(s), u, |Order(s)|)
  }

  lemma ReadSections(s: State)
    requires Inv(s) && 0 <= s.idCount && 0 <= s.nNew && 0 <= s.nTried && |Order(s)| == s.nNew + s.nTried
    requires Enumerates(s, Order(s)) && TriedOk(s) && DistinctHosts(s)
    requires forall x :: 0 <= x < s.nNew ==> !s.infos[Order(s)[x]].inTried
    requires forall x :: s.nNew <= x < |Order(s)| ==> s.infos[Order(s)[x]].inTried
    ensures var e := Empty(s.env, s.key).(nNew := s.nNew, nTried := s.nTried);
            && |Serialize(s)| >= 6 && Serialize(s)[..6] == Header(s)
            && var r := ReadNew(e, Serialize(s)[6..], 0, s.nNew, true);
               && r.Read? && Shape(r.s) && r.s.nNew == s.nNew
               && var q := ReadTried(r.s.(idCount := r.s.nNew), r.rest, 0, s.nTried);
                  && q.Read? && q.rest == Buckets(s, 0) && SectionsRead(s, q.s)
  {
    hide Ok, TriedOk, PendingOk, Order, Serialize, Loading, TriedLoaded, Holds, ReadNew, ReadTried, Buckets, Empty,
         DistinctHosts, Enumerates, Header;
    var A := Order(s);
    SectionsHold(s);
    var e := Empty(s.env, s.key).(nNew := s.nNew, nTried := s.nTried);
    EmptyLoading(s, A);
    var body := Serialize(s)[6..];
    ReadNewSection(s, A, e, body, 0, s.nNew);
    var t := ReadNew(e, body, 0, s.nNew, true).s;
    LoadingCounts(s, A, t, s.nNew);
    SetIdCount(s, A, t, s.nNew, s.nNew);
    ReadTriedSection(s, A, t.(idCount := s.nNew), body[s.nNew..], s.nNew, |A|, 0);
  }

  lemma LoadingCounts(s: State, A: seq<int>, t: State, k: nat)
    requires Enumerates(s, A) && Shape(t) && Loading(s, A, t, k)
    ensures t.nNew == s.nNew && t.nTried == s.nTried
  {
  }

  lemma ReadReferences(s: State, u: State)
    requires Inv(s) && 0 <= s.idCount && EMPTY !in s.infos && Enumerates(s, Order(s)) && RefOk(s, {}) && SectionsRead(s, u)
    ensures var r := ReadBuckets(u, Buckets(s, 0), 0, NEW_BUCKET_COUNT, true);
            r.Read? && r.rest == [] && Restored(s, r.s) && Prune(r.s, 0, r.s.idCount) == r.s
  {
    hide Ok, PendingOk, Order, Loading, TriedLoaded, ReadBuckets, Prune, Enumerates, Restored, Buckets, Placing, Base, Holder, RefOk;
    StartPlacing(s, Order(s), u);
    forall i | 0 <= i < NEW_SLOTS ensures Holder(s, Order(s), i) { HolderKnown(s, i); }
    ReadBucketsOf(s, Order(s), u, u, 0);
    var t := ReadBuckets(u, Buckets(s, 0), 0, NEW_BUCKET_COUNT, true).s;
    FinishPlacing(s, u, t);
    PruneNothing(t, 0, t.idCount);
  }

  lemma ReadBack(s: State)
    requires Inv(s) && 0 <= s.idCount
    ensures var r := Unserialize(s.env, Serialize(s));
            r.Read? && r.rest == [] && Restored(s, r.s)
  {
    hide Ok, PendingOk, Order, Serialize, ReadNew, ReadTried, ReadBuckets, Prune, RandomOk, IdsOk, NewOk,
         Empty, Renamed, Enumerates, Restored, Buckets, SectionsRead, AddrOk, TriedOk, RefOk, DistinctHosts, HeaderFits, Header, FlipBit30;
    OkParts(s);
    OrderEnumerates(s);
    OrderSize(s);
    HostsDistinct(s);
    ReadSections(s);
    var e := Empty(s.env, s.key).(nNew := s.nNew, nTried := s.nTried);
    var r := ReadNew(e, Serialize(s)[6..], 0, s.nNew, true);
    var u := ReadTried(r.s.(idCount := r.s.nNew), r.rest, 0, s.nTried).s;
    ReadReferences(s, u);
    HeaderReads(s, Serialize(s));
  }

  /** Unserialize after Serialize: nothing is lost or pruned, and only the ids change. */
  lemma RoundTrip(s: State)
    requires Inv(s)
    ensures 0 <= s.idCount
    ensures var r := Unserialize(s.env, Serialize(s));
            r.Read? && r.rest == [] && Isomorphic(s, r.s) && Inv(r.s)
  {
    hide Ok, PendingOk, Unserialize, Serialize, Restored, Isomorphic, Renaming, TriedOk, AddrOk, RefOk;
    IdsInRange(s);
    OkParts(s);
    ReadBack(s);
    var t := Unserialize(s.env, Serialize(s)).s;
    RenamingHolds(s);
    RestoredInv(s, t);
    RestoredIsIsomorphic(s, t);
  }

  lemma OkParts(s: State)
    requires Inv(s)
    ensures AddrOk(s) && TriedOk(s) && RefOk(s, {}) && EMPTY !in s.infos
  {
  }

  lemma HeaderReads(s: State, tokens: seq<Token>)
    requires |tokens| >= 6 && tokens[..6] == Header(s)
    ensures HeaderFits(tokens) && tokens[0].byte == FORMAT_VERSION && tokens[2].key == s.key
    ensures tokens[3].num == s.nNew && tokens[4].num == s.nTried && FlipBit30(tokens[5].num) == NEW_BUCKET_COUNT
  {
    assert forall i :: 0 <= i < 6 ==> tokens[i] == tokens[..6][i];
  }
}
