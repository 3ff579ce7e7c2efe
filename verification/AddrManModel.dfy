/**
 The address manager as a value: the linked tables of CAddrMan and, as functions from
 state to state, the steps its methods take. The bucket and position hashes are an
 arbitrary `Oracle`, random choices and clock readings are parameters.

 A table slot (bucket, position) is the flat index bucket * BUCKET_SIZE + position.
 */
module AddrManModel {
  import opened Basics

  const TRIED_BUCKET_COUNT: nat := 256
  const NEW_BUCKET_COUNT: nat := 1024
  const BUCKET_SIZE: nat := 64
  const NEW_BUCKETS_PER_ADDRESS: nat := 8
  const HORIZON_DAYS: int := 30
  const RETRIES: int := 3
  const MAX_FAILURES: int := 10
  const MIN_FAIL_DAYS: int := 7
  const REPLACEMENT_HOURS: int := 4
  const GETADDR_MAX_PCT: nat := 23
  const GETADDR_MAX: nat := 2500
  const TRIED_COLLISION_SIZE: nat := 10
  const EMPTY: int := -1
  const NEW_SLOTS: nat := NEW_BUCKET_COUNT * BUCKET_SIZE
  const TRIED_SLOTS: nat := TRIED_BUCKET_COUNT * BUCKET_SIZE

  datatype NetAddr = NetAddr(ip: nat)
  datatype Service = Service(host: NetAddr, port: nat)
  datatype Address = Address(service: Service, services: bv64, time: nat)

  datatype Key = Key(bits: nat)

  /** CAddrInfo: an address with its source and statistics. */
  datatype Info = Info(
    service: Service, services: bv64, time: nat, source: NetAddr,
    lastSuccess: int, attempts: int,
    lastTry: int, lastCountAttempt: int,
    refCount: int, inTried: bool, randomPos: int)

  function NewInfo(a: Address, source: NetAddr): Info {
    Info(a.service, a.services, a.time, source, 0, 0, 0, 0, 0, false, -1)
  }

  /** The default-constructed entry that C++'s map indexing would insert for a missing id. */
  const NO_INFO: Info := NewInfo(Address(Service(NetAddr(0), 0), 0, 0), NetAddr(0))

  /** The hashes and address predicates the manager is built on: any functions at all. */
  datatype Oracle = Oracle(
    triedHash: (Key, Service) -> nat,
    newHash: (Key, NetAddr, NetAddr) -> nat,
    positionHash: (Key, bool, nat, Service) -> nat,
    isRoutable: NetAddr -> bool,
    isValid: NetAddr -> bool)

  datatype State = State(
    env: Oracle, key: Key,
    idCount: int,
    infos: map<int, Info>,
    addrs: map<NetAddr, int>,
    random: seq<int>,
    nTried: int, triedTab: seq<int>,
    nNew: int, newTab: seq<int>,
    lastGood: int,
    collisions: set<int>)

  predicate Shape(s: State) {
    |s.newTab| == NEW_SLOTS && |s.triedTab| == TRIED_SLOTS
  }

  function Empty(env: Oracle, key: Key): (s: State)
    ensures Shape(s)
  {
    State(env, key, 0, map[], map[], [], 0, seq(TRIED_SLOTS, _ => EMPTY),
          0, seq(NEW_SLOTS, _ => EMPTY), 1, {})
  }

  // ---------------------------------------------------------------- hash places

  function TriedSlot(env: Oracle, key: Key, a: Service): (i: nat)
    ensures i < TRIED_SLOTS
  {
    var b := env.triedHash(key, a) % TRIED_BUCKET_COUNT;
    b * BUCKET_SIZE + env.positionHash(key, false, b, a) % BUCKET_SIZE
  }

  function NewBucket(env: Oracle, key: Key, host: NetAddr, source: NetAddr): (b: nat)
    ensures b < NEW_BUCKET_COUNT
  {
    env.newHash(key, host, source) % NEW_BUCKET_COUNT
  }

  /** The one slot of "new" bucket b in which address a may be stored. */
  function NewSlot(env: Oracle, key: Key, b: nat, a: Service): (i: nat)
    requires b < NEW_BUCKET_COUNT
    ensures i < NEW_SLOTS && i / BUCKET_SIZE == b
  {
    b * BUCKET_SIZE + env.positionHash(key, true, b, a) % BUCKET_SIZE
  }

  // ---------------------------------------------------------------- queries

  function InfoOf(s: State, id: int): Info {
    if id in s.infos then s.infos[id] else NO_INFO
  }

  function Find(s: State, host: NetAddr): Option<int> {
    if host in s.addrs && s.addrs[host] in s.infos then Some(s.addrs[host]) else None
  }

  /** Find, then the check that the port agrees as well. */
  function FindExact(s: State, a: Service): Option<int> {
    match Find(s, a.host)
    case None => None
    case Some(id) => if s.infos[id].service == a then Some(id) else None
  }

  predicate IsTerrible(i: Info, now: int) {
    if i.lastTry != 0 && i.lastTry >= now - 60 then false
    else if i.time > now + 10 * 60 then true
    else if i.time == 0 || now - i.time > HORIZON_DAYS * 24 * 60 * 60 then true
    else if i.lastSuccess == 0 && i.attempts >= RETRIES then true
    else now - i.lastSuccess > MIN_FAIL_DAYS * 24 * 60 * 60 && i.attempts >= MAX_FAILURES
  }

  /** Some "new" bucket holds id at its hash position: what Good_'s search looks for. */
  predicate InSomeBucket(s: State, id: int, a: Service)
    requires Shape(s)
  {
    exists b: nat | b < NEW_BUCKET_COUNT :: s.newTab[NewSlot(s.env, s.key, b, a)] == id
  }

  // ---------------------------------------------------------------- single steps

  function SetInfo(s: State, id: int, i: Info): (r: State)
    ensures Shape(s) ==> Shape(r)
  {
    s.(infos := s.infos[id := i])
  }

  function Create(s: State, a: Address, source: NetAddr): (r: State)
    ensures Shape(s) ==> Shape(r)
  {
    s.(idCount := s.idCount + 1,
       infos := s.infos[s.idCount := NewInfo(a, source).(randomPos := |s.random|)],
       addrs := s.addrs[a.service.host := s.idCount],
       random := s.random + [s.idCount])
  }

  /** Out-of-range positions trip an assertion in the source; Manager proves they never occur. */
  function SwapRandom(s: State, i: int, j: int): (r: State)
    ensures Shape(s) ==> Shape(r)
    ensures |r.random| == |s.random|
  {
    if i == j || !(0 <= i < |s.random| && 0 <= j < |s.random|) then s else
      var x, y := s.random[i], s.random[j];
      var moved := SetInfo(s, x, InfoOf(s, x).(randomPos := j));
      SetInfo(moved, y, InfoOf(moved, y).(randomPos := i)).(random := s.random[i := y][j := x])
  }

  function Delete(s: State, id: int): (r: State)
    ensures Shape(s) ==> Shape(r)
  {
    if s.random == [] then s else
      var t := SwapRandom(s, InfoOf(s, id).randomPos, |s.random| - 1);
      t.(random := t.random[..|t.random| - 1],
         addrs := t.addrs - {InfoOf(s, id).service.host},
         infos := t.infos - {id},
         nNew := t.nNew - 1)
  }

  /** Empty slot i of the "new" table, dropping one reference from the entry it held. */
  function DropSlot(s: State, i: nat): (r: State)
    requires Shape(s) && i < NEW_SLOTS
    ensures Shape(r)
  {
    var id := s.newTab[i];
    SetInfo(s, id, InfoOf(s, id).(refCount := InfoOf(s, id).refCount - 1)).(newTab := s.newTab[i := EMPTY])
  }

  function PlaceNew(s: State, i: nat, id: int): (r: State)
    requires Shape(s) && i < NEW_SLOTS
    ensures Shape(r)
  {
    SetInfo(s, id, InfoOf(s, id).(refCount := InfoOf(s, id).refCount + 1)).(newTab := s.newTab[i := id])
  }

  function ClearNew(s: State, i: nat): (r: State)
    requires Shape(s) && i < NEW_SLOTS
    ensures Shape(r)
  {
    if s.newTab[i] == EMPTY then s else
      var t := DropSlot(s, i);
      if InfoOf(t, s.newTab[i]).refCount == 0 then Delete(t, s.newTab[i]) else t
  }

  // ---------------------------------------------------------------- MakeTried

  /** The loop of MakeTried from bucket b on: take id out of every "new" bucket. */
  function Scrub(s: State, id: int, b: nat): (r: State)
    requires Shape(s) && b <= NEW_BUCKET_COUNT
    ensures Shape(r)
    decreases NEW_BUCKET_COUNT - b
  {
    if b == NEW_BUCKET_COUNT then s else
      var i := NewSlot(s.env, s.key, b, InfoOf(s, id).service);
      Scrub(if s.newTab[i] == id then DropSlot(s, i) else s, id, b + 1)
  }

  function Demote(s: State, i: nat): (r: State)
    requires Shape(s) && i < TRIED_SLOTS
    ensures Shape(r)
  {
    var id := s.triedTab[i];
    SetInfo(s, id, InfoOf(s, id).(inTried := false)).(triedTab := s.triedTab[i := EMPTY], nTried := s.nTried - 1)
  }

  function Promote(s: State, i: nat, id: int): (r: State)
    requires Shape(s) && i < TRIED_SLOTS
    ensures Shape(r)
  {
    SetInfo(s, id, InfoOf(s, id).(inTried := true)).(triedTab := s.triedTab[i := id], nTried := s.nTried + 1)
  }

  /** Make room in tried slot i: its entry goes back to the "new" table under its own source. */
  function EvictTried(s: State, i: nat): (r: State)
    requires Shape(s) && i < TRIED_SLOTS
    ensures Shape(r)
  {
    var id := s.triedTab[i];
    if id == EMPTY then s else
      var prior := InfoOf(s, id);
      var j := NewSlot(s.env, s.key, NewBucket(s.env, s.key, prior.service.host, prior.source), prior.service);
      var t := ClearNew(Demote(s, i), j);
      SetInfo(t, id, InfoOf(t, id).(refCount := 1)).(newTab := t.newTab[j := id], nNew := t.nNew + 1)
  }

  function MakeTried(s: State, id: int): (r: State)
    requires Shape(s)
    ensures Shape(r)
  {
    var i := TriedSlot(s.env, s.key, InfoOf(s, id).service);
    var t := Scrub(s, id, 0);
    Promote(EvictTried(t.(nNew := t.nNew - 1), i), i, id)
  }

  // ---------------------------------------------------------------- the operations

  function Good(s: State, a: Service, testBeforeEvict: bool, now: int): (r: State)
    requires Shape(s)
    ensures Shape(r)
  {
    var s0 := s.(lastGood := now);
    match FindExact(s0, a)
    case None => s0
    case Some(id) =>
      var s1 := SetInfo(s0, id, s0.infos[id].(lastSuccess := now, lastTry := now, attempts := 0));
      if s1.infos[id].inTried || !InSomeBucket(s1, id, a) then s1
      else if testBeforeEvict && s1.triedTab[TriedSlot(s.env, s.key, a)] != EMPTY then
        if |s1.collisions| < TRIED_COLLISION_SIZE then s1.(collisions := s1.collisions + {id}) else s1
      else MakeTried(s1, id)
  }

  function ToUint32(x: int): nat {
    x % 0x1_0000_0000
  }

  /** How a repeated announcement updates the stored time and services. */
  function Refresh(i: Info, a: Address, penalty: int, now: int): Info {
    var interval := if now - a.time < 24 * 60 * 60 then 60 * 60 else 24 * 60 * 60;
    var time := if a.time != 0 && (i.time == 0 || i.time < a.time - interval - penalty)
                then ToUint32(Max(0, a.time - penalty)) else i.time;
    i.(time := time, services := i.services | a.services)
  }

  /** Put id into the "new" bucket its address and source select, if the slot can be had. */
  function Insert(s: State, id: int, source: NetAddr, now: int): (r: State)
    requires Shape(s)
    ensures Shape(r)
  {
    var info := InfoOf(s, id);
    var i := NewSlot(s.env, s.key, NewBucket(s.env, s.key, info.service.host, source), info.service);
    var holder := s.newTab[i];
    if holder == id then s
    else if holder == EMPTY || IsTerrible(InfoOf(s, holder), now)
            || (InfoOf(s, holder).refCount > 1 && info.refCount == 0)
    then PlaceNew(ClearNew(s, i), i, id)
    else if info.refCount == 0 then Delete(s, id)
    else s
  }

  /** Add_; `dice` is the value RandomInt(2^refCount) returned. */
  function Add(s: State, a: Address, source: NetAddr, timePenalty: int, now: int, dice: int): (r: (State, bool))
    requires Shape(s)
    ensures Shape(r.0)
  {
    var penalty := if a.service.host == source then 0 else timePenalty;
    if !s.env.isRoutable(a.service.host) then (s, false) else
    match Find(s, a.service.host)
    case Some(id) =>
      var info := Refresh(s.infos[id], a, penalty, now);
      var t := SetInfo(s, id, info);
      if a.time == 0 || (info.time != 0 && a.time <= info.time) || info.inTried
         || info.refCount == NEW_BUCKETS_PER_ADDRESS || (info.refCount > 0 && dice != 0)
      then (t, false)
      else (Insert(t, id, source, now), false)
    case None =>
      var t := Create(s, a, source);
      var info := t.infos[s.idCount];
      var u := SetInfo(t, s.idCount, info.(time := ToUint32(Max(0, info.time - penalty)))).(nNew := t.nNew + 1);
      (Insert(u, s.idCount, source, now), true)
  }

  function Attempt(s: State, a: Service, countFailure: bool, now: int): State {
    match FindExact(s, a)
    case None => s
    case Some(id) =>
      var i := s.infos[id].(lastTry := now);
      SetInfo(s, id, if countFailure && i.lastCountAttempt < s.lastGood
                     then i.(lastCountAttempt := now, attempts := i.attempts + 1) else i)
  }

  function Connected(s: State, a: Service, now: nat): State {
    match FindExact(s, a)
    case None => s
    case Some(id) =>
      if now - s.infos[id].time > 20 * 60 then SetInfo(s, id, s.infos[id].(time := ToUint32(now))) else s
  }

  function SetServices(s: State, a: Service, services: bv64): State {
    match FindExact(s, a)
    case None => s
    case Some(id) => SetInfo(s, id, s.infos[id].(services := services))
  }

  /** RandomInt(size - n) + n, for the random value r. */
  function PickFrom(n: nat, size: nat, r: nat): (j: nat)
    requires n < size
    ensures n <= j < size
  {
    n + r % (size - n)
  }

  /** GetAddr_ from position n on: `pick(n)` is what the random source delivered for position n. */
  function GetAddr(s: State, n: nat, limit: nat, got: seq<Address>, pick: nat -> nat, now: int): (State, seq<Address>)
    requires n <= |s.random|
    decreases |s.random| - n
  {
    if n == |s.random| || |got| >= limit then (s, got) else
      var t := SwapRandom(s, n, PickFrom(n, |s.random|, pick(n)));
      var i := InfoOf(t, t.random[n]);
      GetAddr(t, n + 1, limit,
              if IsTerrible(i, now) then got else got + [Address(i.service, i.services, i.time)], pick, now)
  }

  function GetAddrLimit(s: State): nat {
    var n := GETADDR_MAX_PCT * |s.random| / 100;
    if n > GETADDR_MAX then GETADDR_MAX else n
  }

  /** One iteration of ResolveCollisions_ for the pending id. */
  function Resolve(s: State, id: int, now: int): (r: State)
    requires Shape(s)
    ensures Shape(r)
  {
    var gone := s.(collisions := s.collisions - {id});
    if id !in s.infos || !s.env.isValid(s.infos[id].service.host) then gone
    else
      var a := s.infos[id].service;
      var holder := s.triedTab[TriedSlot(s.env, s.key, a)];
      if holder == EMPTY then
        var t := Good(s, a, false, now);
        t.(collisions := t.collisions - {id})
      else
        var prior := InfoOf(s, holder);
        if now - prior.lastSuccess < REPLACEMENT_HOURS * 60 * 60 then gone
        else if now - prior.lastTry < REPLACEMENT_HOURS * 60 * 60 && now - prior.lastTry > 60 then
          var t := Good(s, a, false, now);
          t.(collisions := t.collisions - {id})
        else s
  }

  /** ResolveCollisions_: the pending ids in ascending order, from `id` up to but excluding `stop`. */
  function ResolveFrom(s: State, id: int, stop: int, now: int): (r: State)
    requires Shape(s)
    ensures Shape(r)
    decreases stop - id
  {
    if id >= stop then s
    else ResolveFrom(if id in s.collisions then Resolve(s, id, now) else s, id + 1, stop, now)
  }

  /** SelectTriedCollision_ on the element `id` the random choice landed on. */
  function SelectTriedCollision(s: State, id: int): (State, Info)
    requires Shape(s)
  {
    if id !in s.infos then (s.(collisions := s.collisions - {id}), NO_INFO)
    else (s, InfoOf(s, s.triedTab[TriedSlot(s.env, s.key, s.infos[id].service)]))
  }
}
