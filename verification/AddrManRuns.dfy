/**
 Whole runs of the address manager: from an empty manager, every sequence of operations keeps
 the invariant, passes Check_, and never empties a tried slot once it is occupied.
 */
module AddrManRuns {
  import opened AddrManModel
  import opened AddrManInvariant
  import opened AddrManOperations

  datatype Op =
    | OpAdd(address: Address, source: NetAddr, timePenalty: int, now: int, dice: int)
    | OpGood(service: Service, testBeforeEvict: bool, now: int)
    | OpAttempt(service: Service, countFailure: bool, now: int)
    | OpConnected(service: Service, seen: nat)
    | OpSetServices(service: Service, services: bv64)
    | OpResolveCollisions(now: int)
    | OpSelectCollision(id: int)
    | OpGetAddr(pick: nat -> nat, now: int)

  function Step(s: State, op: Op): (r: State)
    requires Shape(s)
  {
    match op
    case OpAdd(a, source, penalty, now, dice) => Add(s, a, source, penalty, now, dice).0
    case OpGood(a, test, now) => Good(s, a, test, now)
    case OpAttempt(a, count, now) => Attempt(s, a, count, now)
    case OpConnected(a, seen) => Connected(s, a, seen)
    case OpSetServices(a, services) => SetServices(s, a, services)
    case OpResolveCollisions(now) => ResolveFrom(s, 0, s.idCount, now)
    case OpSelectCollision(id) => SelectTriedCollision(s, id).0
    case OpGetAddr(pick, now) => GetAddr(s, 0, GetAddrLimit(s), [], pick, now).0
  }

  lemma StepInv(s: State, op: Op)
    requires Inv(s)
    ensures Inv(Step(s, op)) && Grows(s, Step(s, op))
  {
    hide Ok, PendingOk, TriedSlot, Grows, Add, Good, Attempt, Connected, SetServices, ResolveFrom, SelectTriedCollision, GetAddr;
    match op
    case OpAdd(a, source, penalty, now, dice) => AddInv(s, a, source, penalty, now, dice);
    case OpGood(a, test, now) => GoodInv(s, a, test, now);
    case OpAttempt(a, count, now) => AttemptInv(s, a, count, now);
    case OpConnected(a, seen) => ConnectedInv(s, a, seen);
    case OpSetServices(a, services) => SetServicesInv(s, a, services);
    case OpResolveCollisions(now) => ResolveFromInv(s, 0, s.idCount, now);
    case OpSelectCollision(id) => SelectCollisionInv(s, id);
    case OpGetAddr(pick, now) => GetAddrInv(s, 0, GetAddrLimit(s), [], pick, now);
  }

  lemma EmptyInv(env: Oracle, key: Key)
    ensures Inv(Empty(env, key))
  {
    var s := Empty(env, key);
    assert NewIds(s.infos) == {} && TriedIds(s.infos) == {};
  }

  /** t is what some run of the operations `ops` makes of s. */
  ghost predicate Reaches(s: State, ops: seq<Op>, t: State)
    decreases |ops|
  {
    if ops == [] then t == s else Shape(s) && Reaches(Step(s, ops[0]), ops[1..], t)
  }

  /** Every run keeps the invariant, and no run ever leaves an occupied tried slot empty. */
  lemma {:induction false} RunInv(s: State, ops: seq<Op>, t: State)
    requires Inv(s) && Reaches(s, ops, t)
    ensures Inv(t) && Grows(s, t)
    decreases |ops|
  {
    hide Ok, PendingOk, Grows, Step;
    GrowsSelf(s);
    if ops != [] {
      StepInv(s, ops[0]);
      RunInv(Step(s, ops[0]), ops[1..], t);
      GrowsTrans(s, Step(s, ops[0]), t);
    }
  }

  /** From an empty manager, for every oracle, key, and sequence of operations. */
  lemma RunFromEmpty(env: Oracle, key: Key, ops: seq<Op>, t: State)
    requires Reaches(Empty(env, key), ops, t)
    ensures Inv(t)
  {
    EmptyInv(env, key);
    RunInv(Empty(env, key), ops, t);
  }

  /** Once occupied, a tried slot stays occupied along the rest of the run. */
  lemma TriedSlotStaysOccupied(env: Oracle, key: Key, before: seq<Op>, s: State, later: seq<Op>, t: State, i: nat)
    requires Reaches(Empty(env, key), before, s) && Reaches(s, later, t)
    requires Shape(s) && Shape(t) && i < TRIED_SLOTS && s.triedTab[i] != EMPTY
    ensures t.triedTab[i] != EMPTY
  {
    RunFromEmpty(env, key, before, s);
    RunInv(s, later, t);
  }

  // ---------------------------------------------------------------- what GetAddr_ returns

  /** The addresses of good quality among the first n random positions. */
  function Quality(s: State, n: nat, now: int): seq<Address>
    requires n <= |s.random|
  {
    if n == 0 then [] else
      var i := InfoOf(s, s.random[n - 1]);
      Quality(s, n - 1, now) + if IsTerrible(i, now) then [] else [Address(i.service, i.services, i.time)]
  }

  lemma {:induction false} QualityFrame(s: State, t: State, n: nat, now: int)
    requires RandomOk(s) && RandomOk(t) && Keeps(s, t) && n <= |s.random| && n <= |t.random|
    requires forall i :: 0 <= i < n ==> t.random[i] == s.random[i]
    ensures Quality(t, n, now) == Quality(s, n, now)
  {
    if n > 0 {
      assert t.random[n - 1] in t.infos;
      QualityFrame(s, t, n - 1, now);
    }
  }

  lemma SwapKeepsPrefix(s: State, n: nat, j: nat)
    requires n <= j < |s.random|
    ensures forall i :: 0 <= i < n ==> SwapRandom(s, n, j).random[i] == s.random[i]
  {
  }

  /** t lists, for some number k of positions, exactly the entries of good quality there. */
  ghost predicate Sampled(t: State, k: nat, limit: nat, got: seq<Address>, now: int) {
    && k <= |t.random| && got == Quality(t, k, now) && |got| <= limit
    && (k == |t.random| || |got| == limit)
  }

  /**
   GetAddr_ returns the entries of good quality among a random sample of distinct positions: all
   positions, or as many as are needed to reach the limit.
   */
  lemma {:induction false} GetAddrSamples(s: State, n: nat, limit: nat, got: seq<Address>, pick: nat -> nat, now: int)
    requires Inv(s) && n <= |s.random| && got == Quality(s, n, now) && |got| <= limit
    ensures var r := GetAddr(s, n, limit, got, pick, now);
            Keeps(s, r.0) && exists k: nat :: Sampled(r.0, k, limit, r.1, now)
    decreases |s.random| - n
  {
    hide Ok, PendingOk, SwapRandom, IsTerrible, Keeps, Grows, PickFrom, RandomOk;
    KeepsSelf(s);
    if n == |s.random| || |got| >= limit {
      assert Sampled(s, n, limit, got, now);
    } else {
      var j := PickFrom(n, |s.random|, pick(n));
      var t := SwapRandom(s, n, j);
      SwapRandomInv(s, n, j);
      SwapKeepsPrefix(s, n, j);
      OkRandom(s, {}, {});
      OkRandom(t, {}, {});
      QualityFrame(s, t, n, now);
      var i := InfoOf(t, t.random[n]);
      var got' := if IsTerrible(i, now) then got else got + [Address(i.service, i.services, i.time)];
      assert got' == Quality(t, n + 1, now);
      GetAddrSamples(t, n + 1, limit, got', pick, now);
      KeepsTrans(s, t, GetAddr(t, n + 1, limit, got', pick, now).0);
    }
  }
}
