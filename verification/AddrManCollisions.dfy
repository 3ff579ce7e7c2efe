/**
 Tried collisions: what becomes of a pending entry and of the one it competes with, and that every
 pending entry has its turn.
 */
module AddrManCollisions {
  import opened Basics
  import opened AddrManModel
  import opened AddrManInvariant
  import opened AddrManOperations
  import opened AddrManEffects

  /** The holder of the tried slot that the known entry id competes for. */
  function Rival(s: State, id: int): int
    requires Shape(s) && id in s.infos
  {
    s.triedTab[TriedSlot(s.env, s.key, s.infos[id].service)]
  }

  /** The pending entry is unknown by now, or its host is not a valid address any more. */
  predicate Stale(s: State, id: int) {
    id !in s.infos || !s.env.isValid(s.infos[id].service.host)
  }

  /** The rival has connected within the last four hours. */
  predicate RivalWorks(s: State, id: int, now: int)
    requires Shape(s) && id in s.infos
  {
    Rival(s, id) in s.infos && now - s.infos[Rival(s, id)].lastSuccess < 14400
  }

  /** The rival has been tried within the last four hours, and has had more than a minute to connect. */
  predicate RivalFailed(s: State, id: int, now: int)
    requires Shape(s) && id in s.infos
  {
    Rival(s, id) in s.infos && 60 < now - s.infos[Rival(s, id)].lastTry < 14400
  }

  /** What Resolve does about the pending id. */
  datatype Verdict = Dismissed | Replaces | Waits

  function Judge(s: State, id: int, now: int): Verdict
    requires Shape(s)
  {
    if Stale(s, id) || RivalWorks(s, id, now) then Dismissed
    else if RivalFailed(s, id, now) then Replaces
    else Waits
  }

  /**
   One turn of ResolveCollisions_. A dismissed entry is no longer pending, and that is all; a waiting one
   stays pending and nothing changes. One that replaces its rival gets the tried slot and is no longer
   pending, and the rival goes back to the slot its own source selects in the "new" table.
   */
  lemma ResolveEffects(s: State, id: int, now: int)
    requires Inv(s) && id in s.collisions
    ensures var t := Resolve(s, id, now);
            match Judge(s, id, now)
            case Dismissed => t == s.(collisions := s.collisions - {id})
            case Waits => t == s
            case Replaces =>
              && t.collisions == s.collisions - {id} && t.lastGood == now
              && Succeeded(s, t, id, now) && t.infos[id].inTried && t.triedTab[TriedSlot(s.env, s.key, s.infos[id].service)] == id
              && (!s.infos[id].inTried ==> Rival(s, id) != id && Promoted(s, t, id))
              && (s.infos[id].inTried ==> Rival(s, id) == id && OnlyStatistics(s, t, id))
  {
    hide Ok, TriedSlot, PendingOk, Good, Promoted;
    if !Stale(s, id) && !RivalWorks(s, id, now) {
      PendingHasRival(s, id);
      if RivalFailed(s, id, now) {
        var t := Good(s, s.infos[id].service, false, now);
        GoodEffects(s, s.infos[id].service, false, now, id);
        TriedHasSlot(s, id);
        if !s.infos[id].inTried {
          PromotedHolds(s, t, t.(collisions := t.collisions - {id}), id);
        }
      }
    } else if id in s.infos {
      PendingHasRival(s, id);
    }
  }

  lemma TriedHasSlot(s: State, id: int)
    requires Inv(s) && id in s.infos
    ensures s.infos[id].inTried ==> Rival(s, id) == id
    ensures !s.infos[id].inTried ==> Rival(s, id) != id
  {
    hide IdentityOk, NewOk, RefOk, CountOk, PendingOk, TriedSlot;
    FloatingKnown(s, {}, {});
  }

  lemma PromotedHolds(s: State, t: State, u: State, id: int)
    requires Shape(s) && Shape(t) && id in s.infos && Promoted(s, t, id) && u == t.(collisions := u.collisions)
    ensures Promoted(s, u, id) && u.infos[id].inTried
    ensures u.triedTab[TriedSlot(s.env, s.key, s.infos[id].service)] == id
  {
    hide TriedSlot, NewHome;
    forall x | x in s.infos && Unmoved(s, t, x) ensures Unmoved(s, u, x) {
    }
  }

  /** For the pending entry nothing but its own turn decides: others' turns neither drop nor re-add it. */
  lemma {:induction false} TurnsOfOthers(s: State, from: int, stop: int, now: int, id: int)
    requires Inv(s) && (id < from || id >= stop)
    ensures id in ResolveFrom(s, from, stop, now).collisions <==> id in s.collisions
    decreases stop - from
  {
    hide Ok, TriedSlot, PendingOk, Resolve, Promoted, Judge;
    if from < stop {
      ResolveInv(s, from, now);
      if from in s.collisions { ResolveEffects(s, from, now); }
      TurnsOfOthers(if from in s.collisions then Resolve(s, from, now) else s, from + 1, stop, now, id);
    }
  }

  lemma {:induction false} ResolveSplits(s: State, from: int, middle: int, stop: int, now: int)
    requires Shape(s) && from <= middle <= stop
    ensures ResolveFrom(s, from, stop, now) == ResolveFrom(ResolveFrom(s, from, middle, now), middle, stop, now)
    decreases middle - from
  {
    hide Resolve;
    if from < middle {
      ResolveSplits(if from in s.collisions then Resolve(s, from, now) else s, from + 1, middle, stop, now);
    }
  }

  /**
   ResolveCollisions_ gives every pending entry exactly one turn: it meets the state u that the smaller
   ids leave, in which it is still pending, and it stays pending afterwards exactly if it waits there.
   */
  lemma EveryPendingHasItsTurn(s: State, id: int, now: int)
    requires Inv(s) && id in s.collisions
    ensures var u := ResolveFrom(s, 0, id, now);
            var t := ResolveFrom(s, 0, s.idCount, now);
            && Inv(u) && id in u.collisions
            && t == ResolveFrom(Resolve(u, id, now), id + 1, s.idCount, now)
            && (id in t.collisions <==> Judge(u, id, now) == Waits)
  {
    hide Ok, TriedSlot, PendingOk, Resolve, Promoted, Judge;
    IdsInRange(s);
    var u := ResolveFrom(s, 0, id, now);
    ResolveFromInv(s, 0, id, now);
    TurnsOfOthers(s, 0, id, now, id);
    ResolveSplits(s, 0, id, s.idCount, now);
    ResolveEffects(u, id, now);
    ResolveInv(u, id, now);
    TurnsOfOthers(Resolve(u, id, now), id + 1, s.idCount, now, id);
  }

  /** An entry that is unknown when ResolveCollisions_ begins is no longer pending when it ends. */
  lemma UnknownIsDropped(s: State, id: int, now: int)
    requires Inv(s) && id in s.collisions && Stale(s, id)
    ensures id !in ResolveFrom(s, 0, s.idCount, now).collisions
  {
    hide Ok, TriedSlot, PendingOk, Resolve;
    IdsInRange(s);
    EveryPendingHasItsTurn(s, id, now);
    ResolveFromInv(s, 0, id, now);
  }

  /**
   SelectTriedCollision_: a pending entry that is known leaves everything as it is and yields the tried
   entry that holds its slot; an unknown one is dropped, and the answer is the blank entry.
   */
  lemma SelectEffects(s: State, id: int)
    requires Inv(s) && id in s.collisions
    ensures var (t, rival) := SelectTriedCollision(s, id);
            && (id in s.infos ==> t == s && Rival(s, id) in s.infos && rival == s.infos[Rival(s, id)] && rival.inTried)
            && (id !in s.infos ==> t == s.(collisions := s.collisions - {id}) && rival == NO_INFO)
  {
    hide Ok, TriedSlot, PendingOk;
    if id in s.infos { PendingHasRival(s, id); }
  }
}
