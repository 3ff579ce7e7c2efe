/**
 CChain: the blocks from genesis to the tip, indexed by height.
 */
module BlockChain {
  import opened Basics
  import opened BlockTree

  // ---------------------------------------------------------------- locator heights

  function FloorLog2(n: nat): nat { if n < 2 then 0 else 1 + FloorLog2(n / 2) }

  lemma {:induction false} LogAtLeast(n: nat, h: nat)
    requires Pow2(n) <= h
    ensures n <= FloorLog2(h)
  {
    if n > 0 { LogAtLeast(n - 1, h / 2); }
  }

  /** How far below its start the k-th entry of a locator lies: single steps at first, then doubling ones. */
  function Drop(k: nat): nat { if k <= 11 then k else 9 + Pow2(k - 10) }

  function LocatorHeight(h: nat, k: nat): nat { if Drop(k) < h then h - Drop(k) else 0 }

  /** The step back after k entries. */
  function StepBack(k: nat): nat { if k <= 10 then 1 else Pow2(k - 10) }

  lemma DropNext(k: nat)
    ensures Drop(k + 1) == Drop(k) + StepBack(k) && StepBack(k + 1) == if k + 1 > 10 then 2 * StepBack(k) else StepBack(k)
  {
    assert Pow2(0) == 1 && Pow2(1) == 2;
  }

  lemma {:induction false} DropGrows(k: nat, l: nat)
    requires k < l
    ensures Drop(k) < Drop(l)
  {
    DropNext(l - 1);
    if k < l - 1 { DropGrows(k, l - 1); }
  }

  /** The locator of a block is short. */
  lemma LocatorLength(h: nat, n: nat)
    requires h >= 1 && n >= 2 && Drop(n - 2) < h
    ensures n <= 12 + FloorLog2(h)
  {
    if n > 12 { LogAtLeast(n - 12, h); }
  }

  // ---------------------------------------------------------------- the chain

  /** The entries are the blocks of one path, each at its height. */
  ghost predicate IsPath(v: seq<BlockIndex?>) {
    v != [] ==> var tip := v[|v| - 1]; tip != null && Linked(tip) && v == Path(tip)
  }

  lemma PathEntries(v: seq<BlockIndex?>, h: nat)
    requires IsPath(v) && h < |v|
    ensures v[h] != null && Linked(v[h]) && v[h].nHeight == h && v[..h + 1] == Path(v[h])
  {
    AncestorPath(v[|v| - 1], h);
  }

  /** Blocks that lie on the chain. */
  ghost predicate OnChain(v: seq<BlockIndex?>, b: BlockIndex) { b.nHeight < |v| && v[b.nHeight] == b }

  class Chain {
    var vChain: seq<BlockIndex?>

    ghost predicate Ok()
      reads this
    {
      IsPath(vChain)
    }

    constructor ()
      ensures Ok() && vChain == []
    {
      vChain := [];
    }

    /** Makes b the tip; the loop stops at the first block that is already in place. */
    method SetTip(b: BlockIndex?)
      requires Ok() && Linked(b)
      modifies this
      ensures Ok() && vChain == Path(b)
    {
      hide Based, Skips, IsPath, Path;
      if b == null {
        vChain := [];
        EmptyPath();
        return;
      }
      ghost var was := vChain;
      var n := b.nHeight + 1;
      vChain := if n <= |vChain| then vChain[..n] else vChain + seq(n - |vChain|, _ => null);
      ghost var resized := vChain;
      var walk: BlockIndex? := b;
      Start(b);
      while walk != null && vChain[walk.nHeight] != walk
        invariant |vChain| == n && |Path(b)| == n
        invariant walk != null ==> Linked(walk) && walk.nHeight < n && Path(b)[walk.nHeight] == walk
        invariant walk != null ==> vChain[..walk.nHeight + 1] == resized[..walk.nHeight + 1] && vChain[walk.nHeight + 1..] == Path(b)[walk.nHeight + 1..]
        invariant walk == null ==> vChain == Path(b)
        decreases if walk == null then 0 else walk.nHeight + 1
      {
        var h := walk.nHeight;
        ghost var before := vChain;
        vChain := vChain[h := walk];
        WriteStep(b, resized, before, walk, h);
        walk := walk.pprev;
      }
      if walk != null {
        EarlyExit(was, resized, n, b, walk);
        assert vChain == vChain[..walk.nHeight + 1] + vChain[walk.nHeight + 1..];
        assert Path(b) == Path(b)[..walk.nHeight + 1] + Path(b)[walk.nHeight + 1..];
      }
      WholePath(b);
    }

    /** The block at a height, or null. */
    function At(height: int): (r: BlockIndex?)
      reads this
    {
      if height < 0 || height >= |vChain| then null else vChain[height]
    }

    predicate Contains(b: BlockIndex)
      reads this
      ensures Contains(b) <==> OnChain(vChain, b)
    {
      At(b.nHeight) == b
    }

    function Height(): int
      reads this
    {
      |vChain| - 1
    }

    /** The successor on the chain. */
    method Next(b: BlockIndex) returns (r: BlockIndex?)
      requires Ok() && Linked(b)
      ensures r != null ==> OnChain(vChain, r) && OnChain(vChain, b) && r.pprev == b
      ensures r == null ==> !OnChain(vChain, b) || (|vChain| > 0 && vChain[|vChain| - 1] == b)
    {
      hide Based, Skips, IsPath, Path;
      if Contains(b) {
        if b.nHeight + 1 < |vChain| {
          PathEntries(vChain, b.nHeight + 1);
          SuccessorOf(vChain, b.nHeight);
        }
        return At(b.nHeight + 1);
      }
      return null;
    }

    /** The tip, or with stake set the last block of the chain that is staked, or genesis if none is. */
    method Tip(stake: bool) returns (r: BlockIndex?)
      requires Ok()
      ensures vChain == [] <==> r == null
      ensures r != null ==> OnChain(vChain, r)
      ensures r != null && !stake ==> r == vChain[|vChain| - 1]
      ensures r != null && stake ==> r.nHeight == 0 || r.isProofOfStake
      ensures r != null && stake ==> forall h :: r.nHeight < h < |vChain| ==> vChain[h] != null && !vChain[h].isProofOfStake
    {
      hide Based, Skips, IsPath, Path;
      if |vChain| < 1 { return null; }
      var walk := vChain[|vChain| - 1];
      PathEntries(vChain, |vChain| - 1);
      if stake {
        while walk != null && walk.pprev != null && !walk.isProofOfStake
          invariant walk != null && OnChain(vChain, walk) && Linked(walk)
          invariant forall h :: walk.nHeight < h < |vChain| ==> vChain[h] != null && !vChain[h].isProofOfStake
          decreases walk.nHeight
        {
          PredecessorOf(vChain, walk);
          walk := walk.pprev;
        }
        NoPredecessor(walk);
      }
      return walk;
    }

    /** The last block that b and the chain share: everything up to it agrees and nothing above it does. */
    method FindFork(b: BlockIndex?) returns (r: BlockIndex?)
      requires Ok() && Linked(b)
      ensures r == null <==> b == null || vChain == [] || Path(b)[0] != vChain[0]
      ensures r != null ==> b != null && OnChain(vChain, r) && r.nHeight <= b.nHeight && Path(b)[r.nHeight] == r
      ensures r != null ==> Path(b)[..r.nHeight + 1] == vChain[..r.nHeight + 1]
      ensures r != null ==> forall h :: r.nHeight < h <= b.nHeight ==> !OnChain(vChain, Path(b)[h])
    {
      hide Based, Skips, IsPath, Path, OnChain;
      if b == null { return null; }
      r := b;
      Start(b);
      HeightsOf(b);
      AboveChain(vChain, b);
      if r.nHeight > Height() {
        r := b.GetAncestor(Height());
        if Height() >= 0 { AncestorPath(b, Height()); }
      }
      while r != null && !Contains(r)
        invariant r != null ==> Linked(r) && r.nHeight <= b.nHeight && Path(b)[r.nHeight] == r
        invariant r != null ==> forall h :: r.nHeight < h <= b.nHeight ==> !OnChain(vChain, Path(b)[h])
        invariant r == null ==> forall h :: 0 <= h <= b.nHeight ==> !OnChain(vChain, Path(b)[h])
        decreases if r == null then 0 else r.nHeight + 1
      {
        StepDown(b, r);
        r := r.pprev;
      }
      ForkMeans(vChain, b, r);
    }

    /**
     Blocks whose hashes form a locator: ancestors of b (or of the tip) at strictly decreasing
     heights, ending at genesis, and few of them.
     */
    method GetLocator(b: BlockIndex?) returns (have: seq<BlockIndex>)
      requires Ok() && Linked(b)
      ensures b == null && vChain == [] ==> have == []
      ensures b != null || vChain != [] ==> LocatorOf(if b != null then b else vChain[|vChain| - 1], have)
    {
      hide Based, Skips, IsPath, Path, LocatorHeight, Drop, StepBack, LocatorOf;
      have := [];
      var step := 1;
      var walk := b;
      if walk == null { walk := Tip(false); }
      if walk == null { return; }
      var start := walk;
      if b == null { PathEntries(vChain, |vChain| - 1); }
      Start(start);
      LocatorStart(start.nHeight);
      while true
        invariant walk != null && Linked(walk) && walk.nHeight == LocatorHeight(start.nHeight, |have|)
        invariant walk.nHeight <= start.nHeight && Path(start)[walk.nHeight] == walk && step == StepBack(|have|)
        invariant |have| > 0 ==> LocatorHeight(start.nHeight, |have| - 1) > 0
        invariant forall k :: 0 <= k < |have| ==> LocatorHeight(start.nHeight, k) <= start.nHeight && have[k] == Path(start)[LocatorHeight(start.nHeight, k)]
        decreases walk.nHeight
      {
        have := have + [walk];
        if walk.nHeight == 0 { break; }
        var height: int := if walk.nHeight - step > 0 then walk.nHeight - step else 0;
        LocatorNext(start.nHeight, |have| - 1);
        LowerAncestor(start, walk, height);
        if Contains(walk) {
          PathEntries(vChain, walk.nHeight);
          ChainAncestor(vChain, walk, height);
          walk := At(height);
        } else {
          walk := walk.GetAncestor(height);
        }
        if |have| > 10 { step := step * 2; }
      }
      LocatorDone(start, have);
    }
  }

  // ---------------------------------------------------------------- about SetTip

  lemma EmptyPath()
    ensures IsPath([]) && Path(null) == []
  {
  }

  lemma Start(b: BlockIndex)
    requires Linked(b)
    ensures |Path(b)| == b.nHeight + 1 && Path(b)[b.nHeight] == b
  {
    PathTop(b);
  }

  lemma WholePath(b: BlockIndex)
    requires Linked(b)
    ensures IsPath(Path(b))
  {
    PathTop(b);
  }

  lemma WriteStep(b: BlockIndex, resized: seq<BlockIndex?>, v: seq<BlockIndex?>, walk: BlockIndex, h: nat)
    requires Linked(b) && Linked(walk) && h == walk.nHeight && |v| == |resized| == |Path(b)| > h && Path(b)[h] == walk
    requires v[..h + 1] == resized[..h + 1] && v[h + 1..] == Path(b)[h + 1..]
    ensures var w := v[h := walk];
            && (walk.pprev == null ==> w == Path(b))
            && (walk.pprev != null ==>
                  && Linked(walk.pprev) && walk.pprev.nHeight + 1 == h && Path(b)[h - 1] == walk.pprev
                  && w[..h] == resized[..h] && w[h..] == Path(b)[h..])
  {
    hide GetSkipHeight;
    var w := v[h := walk];
    assert w[h..] == [walk] + v[h + 1..] && Path(b)[h..] == [walk] + Path(b)[h + 1..];
    assert w[..h] == v[..h + 1][..h] && resized[..h] == resized[..h + 1][..h];
    if walk.pprev == null {
      assert w == w[h..] && Path(b) == Path(b)[h..];
    } else {
      AncestorPath(b, h - 1);
      AncestorPath(b, h);
      assert Path(b)[h - 1] == Path(b)[..h + 1][h - 1] == Path(walk)[h - 1];
      PathTop(walk.pprev);
    }
  }

  /** A block found in place was there before, and so was everything below it. */
  lemma EarlyExit(was: seq<BlockIndex?>, resized: seq<BlockIndex?>, n: nat, b: BlockIndex, walk: BlockIndex)
    requires IsPath(was) && resized == (if n <= |was| then was[..n] else was + seq(n - |was|, _ => null))
    requires Linked(b) && |Path(b)| == n && Linked(walk) && walk.nHeight < n && resized[walk.nHeight] == walk && Path(b)[walk.nHeight] == walk
    ensures resized[..walk.nHeight + 1] == Path(b)[..walk.nHeight + 1]
  {
    hide GetSkipHeight;
    var h := walk.nHeight;
    assert was[h] == walk;
    PathEntries(was, h);
    AncestorPath(b, h);
    assert resized[..h + 1] == was[..h + 1];
  }

  lemma SuccessorOf(v: seq<BlockIndex?>, h: nat)
    requires IsPath(v) && h + 1 < |v| && v[h + 1] != null
    ensures v[h + 1].pprev == v[h]
  {
    hide GetSkipHeight;
    PathEntries(v, h + 1);
    SkipLeads(v[h + 1]);
    assert v[..h + 2][h] == v[h];
  }

  lemma PredecessorOf(v: seq<BlockIndex?>, b: BlockIndex)
    requires IsPath(v) && OnChain(v, b) && b.pprev != null
    ensures OnChain(v, b.pprev) && Linked(b.pprev) && b.pprev.nHeight + 1 == b.nHeight
  {
    hide GetSkipHeight;
    PathEntries(v, b.nHeight);
    SuccessorOf(v, b.nHeight - 1);
  }

  lemma NoPredecessor(b: BlockIndex)
    requires Linked(b)
    ensures b.pprev == null ==> b.nHeight == 0
  {
  }

  // ---------------------------------------------------------------- about FindFork

  lemma HeightsOf(b: BlockIndex)
    requires Linked(b)
    ensures |Path(b)| == b.nHeight + 1 && forall h :: 0 <= h <= b.nHeight ==> Path(b)[h].nHeight == h
  {
    hide Based, Skips, Path;
    Start(b);
    forall h | 0 <= h <= b.nHeight ensures Path(b)[h].nHeight == h { AncestorPath(b, h); }
  }

  lemma AboveChain(v: seq<BlockIndex?>, b: BlockIndex)
    requires Linked(b) && |Path(b)| == b.nHeight + 1 && forall h :: 0 <= h <= b.nHeight ==> Path(b)[h].nHeight == h
    ensures forall h :: |v| <= h <= b.nHeight ==> !OnChain(v, Path(b)[h])
  {
  }

  lemma StepDown(b: BlockIndex, r: BlockIndex)
    requires Linked(b) && Linked(r) && r.nHeight <= b.nHeight && |Path(b)| == b.nHeight + 1 && Path(b)[r.nHeight] == r
    ensures r.pprev == null ==> r.nHeight == 0
    ensures r.pprev != null ==> Linked(r.pprev) && r.pprev.nHeight + 1 == r.nHeight && Path(b)[r.nHeight - 1] == r.pprev
  {
    hide GetSkipHeight;
    if r.pprev != null {
      AncestorPath(b, r.nHeight);
      SkipLeads(r);
      assert Path(b)[r.nHeight - 1] == Path(b)[..r.nHeight + 1][r.nHeight - 1];
    }
  }

  lemma ForkMeans(v: seq<BlockIndex?>, b: BlockIndex, r: BlockIndex?)
    requires IsPath(v) && Linked(b) && |Path(b)| == b.nHeight + 1
    requires forall h :: 0 <= h <= b.nHeight ==> Path(b)[h].nHeight == h
    requires r != null ==> OnChain(v, r) && r.nHeight <= b.nHeight && Path(b)[r.nHeight] == r
    requires r == null ==> forall h :: 0 <= h <= b.nHeight ==> !OnChain(v, Path(b)[h])
    ensures r == null <==> v == [] || Path(b)[0] != v[0]
    ensures r != null ==> Path(b)[..r.nHeight + 1] == v[..r.nHeight + 1]
  {
    hide Based, Skips, IsPath, Path;
    if r != null {
      PathEntries(v, r.nHeight);
      AncestorPath(b, r.nHeight);
      assert Path(b)[0] == Path(b)[..r.nHeight + 1][0] && v[0] == v[..r.nHeight + 1][0];
    } else if v != [] {
      assert !OnChain(v, Path(b)[0]);
    }
  }

  // ---------------------------------------------------------------- about locators

  ghost predicate LocatorOf(start: BlockIndex, have: seq<BlockIndex>) {
    && Linked(start) && have != [] && have[0] == start && have[|have| - 1].nHeight == 0
    && (forall k :: 0 <= k < |have| ==> LocatorHeight(start.nHeight, k) <= start.nHeight && have[k] == Path(start)[LocatorHeight(start.nHeight, k)])
    && (forall k, l :: 0 <= k < l < |have| ==> have[k].nHeight > have[l].nHeight)
    && (start.nHeight >= 1 ==> |have| <= 12 + FloorLog2(start.nHeight))
  }

  lemma LocatorStart(h: nat)
    ensures LocatorHeight(h, 0) == h && StepBack(0) == 1
  {
  }

  lemma LocatorNext(h: nat, k: nat)
    requires LocatorHeight(h, k) > 0
    ensures var now := LocatorHeight(h, k); var step := StepBack(k);
            LocatorHeight(h, k + 1) == (if now - step > 0 then now - step else 0)
    ensures StepBack(k) >= 1 && StepBack(k + 1) == if k + 1 > 10 then 2 * StepBack(k) else StepBack(k)
  {
    hide Drop;
    DropNext(k);
  }

  lemma LowerAncestor(start: BlockIndex, walk: BlockIndex, h: nat)
    requires Linked(start) && Linked(walk) && h <= walk.nHeight <= start.nHeight && Path(start)[walk.nHeight] == walk
    ensures Path(walk)[h] == Path(start)[h] && Linked(Path(start)[h]) && Path(start)[h].nHeight == h
  {
    hide GetSkipHeight;
    AncestorPath(start, walk.nHeight);
    AncestorPath(start, h);
    assert Path(start)[..walk.nHeight + 1][h] == Path(start)[h];
  }

  lemma ChainAncestor(v: seq<BlockIndex?>, walk: BlockIndex, h: nat)
    requires Linked(walk) && walk.nHeight < |v| && v[..walk.nHeight + 1] == Path(walk) && h <= walk.nHeight
    ensures v[h] == Path(walk)[h]
  {
    assert v[..walk.nHeight + 1][h] == v[h];
  }

  lemma LocatorDone(start: BlockIndex, have: seq<BlockIndex>)
    requires Linked(start) && have != [] && LocatorHeight(start.nHeight, |have| - 1) == 0
    requires |have| > 1 ==> LocatorHeight(start.nHeight, |have| - 2) > 0
    requires forall k :: 0 <= k < |have| ==> LocatorHeight(start.nHeight, k) <= start.nHeight && have[k] == Path(start)[LocatorHeight(start.nHeight, k)]
    ensures LocatorOf(start, have)
  {
    hide Based, Skips, Path, Drop;
    var h := start.nHeight;
    HeightsOf(start);
    Start(start);
    LocatorStart(h);
    forall k, l | 0 <= k < l < |have| ensures have[k].nHeight > have[l].nHeight {
      DropGrows(k, l);
      if k < |have| - 2 { DropGrows(k, |have| - 2); }
    }
    if h >= 1 && |have| > 1 { LocatorLength(h, |have|); }
  }
}
