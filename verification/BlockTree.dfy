/**
 Blocks linked to their predecessors, with the skip pointers that make ancestors quick to find.
 */
module BlockTree {

  // ---------------------------------------------------------------- skip heights

  /** Bitwise and. */
  function And(x: nat, y: nat): nat {
    if x == 0 || y == 0 then 0
    else (if x % 2 == 1 && y % 2 == 1 then 1 else 0) + 2 * And(x / 2, y / 2)
  }

  lemma {:induction false} AndAtMost(x: nat, y: nat)
    ensures And(x, y) <= y
  {
    if x != 0 && y != 0 { AndAtMost(x / 2, y / 2); }
  }

  /** Clears the lowest bit set. */
  function InvertLowestOne(n: nat): (r: nat)
    ensures n > 0 ==> r < n
    ensures n == 0 ==> r == 0
  {
    if n == 0 then 0 else AndAtMost(n, n - 1); And(n, n - 1)
  }

  /** The height a block's skip pointer leads to. */
  function GetSkipHeight(height: nat): (r: nat)
    ensures height > 0 ==> r < height
  {
    if height < 2 then 0
    else if height % 2 == 1 then InvertLowestOne(InvertLowestOne(height - 1)) + 1
    else InvertLowestOne(height)
  }

  lemma {:induction false} AndSelf(x: nat)
    ensures And(x, x) == x
  {
    if x != 0 { AndSelf(x / 2); }
  }

  /** x shifted left by k. */
  function Shifted(x: nat, k: nat): (r: nat)
    ensures x > 0 ==> r > 0
    ensures x == 0 ==> r == 0
    ensures k > 0 ==> r % 2 == 0
  {
    if k == 0 then x else 2 * Shifted(x, k - 1)
  }

  /** The lowest bit set of an odd number shifted by k is bit k; clearing it leaves the bits above. */
  lemma {:induction false} LowestOneCleared(j: nat, k: nat)
    ensures InvertLowestOne(Shifted(2 * j + 1, k)) == Shifted(2 * j, k)
  {
    if k == 0 {
      AndSelf(j);
      assert And(2 * j + 1, 2 * j) == 2 * And(j, j);
    } else {
      var m := Shifted(2 * j + 1, k - 1);
      LowestOneCleared(j, k - 1);
      assert And(2 * m, 2 * m - 1) == 2 * And(m, m - 1);
    }
  }

  /** From an even height the skip pointer clears the lowest bit. */
  lemma SkipFromEven(j: nat, k: nat)
    requires k > 0
    ensures GetSkipHeight(Shifted(2 * j + 1, k)) == Shifted(2 * j, k)
  {
    hide InvertLowestOne;
    LowestOneCleared(j, k);
  }

  /** From an odd height it clears the two lowest bits but the last: here k, and l above it. */
  lemma SkipFromOdd(j: nat, k: nat, i: nat, l: nat)
    requires k > 0 && Shifted(2 * j, k) == Shifted(2 * i + 1, l)
    ensures GetSkipHeight(Shifted(2 * j + 1, k) + 1) == Shifted(2 * i, l) + 1
  {
    hide InvertLowestOne, Shifted;
    LowestOneCleared(j, k);
    LowestOneCleared(i, l);
    assert Shifted(2 * j + 1, k) > 0;
  }

  /** With a single bit above the last it leads to the first block after genesis. */
  lemma SkipToFirst(k: nat)
    requires k > 0
    ensures GetSkipHeight(Shifted(1, k) + 1) == 1
  {
    hide InvertLowestOne;
    LowestOneCleared(0, k);
    NothingToClear();
  }

  lemma NothingToClear()
    ensures InvertLowestOne(0) == 0
  {
  }

  // ---------------------------------------------------------------- blocks

  class BlockIndex {
    const pprev: BlockIndex?
    const pskip: BlockIndex?
    const nHeight: nat
    const isProofOfStake: bool

    /** Links a new block to its predecessor and builds its skip pointer. */
    constructor (prev: BlockIndex?, stake: bool)
      requires Linked(prev)
      ensures Linked(this) && pprev == prev && isProofOfStake == stake
      ensures Path(this) == Path(prev) + [this]
    {
      pprev := prev;
      isProofOfStake := stake;
      if prev == null {
        nHeight := 0;
        pskip := null;
      } else {
        nHeight := prev.nHeight + 1;
        var skip := prev.GetAncestor(GetSkipHeight(prev.nHeight + 1));
        pskip := skip;
      }
    }

    /** The ancestor at a height, or null outside the path. */
    method GetAncestor(height: int) returns (r: BlockIndex?)
      requires Linked(this)
      ensures r == if 0 <= height <= nHeight then Path(this)[height] else null
    {
      hide GetSkipHeight;
      if height > nHeight || height < 0 { return null; }
      var walk: BlockIndex := this;
      var heightWalk := nHeight;
      PathTop(this);
      while heightWalk > height
        invariant Linked(walk) && walk.nHeight == heightWalk && height <= heightWalk
        invariant |Path(walk)| == heightWalk + 1 && Path(walk)[height] == Path(this)[height]
      {
        var heightSkip := GetSkipHeight(heightWalk);
        var heightSkipPrev := GetSkipHeight(heightWalk - 1);
        SkipLeads(walk);
        if heightSkip == height || (heightSkip > height && !(heightSkipPrev < heightSkip - 2 && heightSkipPrev >= height)) {
          AncestorPath(walk, heightSkip);
          walk := walk.pskip;
          heightWalk := heightSkip;
        } else {
          AncestorPath(walk, heightWalk - 1);
          walk := walk.pprev;
          heightWalk := heightWalk - 1;
        }
      }
      PathTop(walk);
      return walk;
    }
  }

  /** Heights count the predecessors. */
  ghost predicate Based(b: BlockIndex?)
    decreases if b == null then 0 else b.nHeight + 1
  {
    b != null ==>
      if b.pprev == null then b.nHeight == 0 else b.nHeight == b.pprev.nHeight + 1 && Based(b.pprev)
  }

  /** The blocks from genesis to b. */
  ghost function Path(b: BlockIndex?): (p: seq<BlockIndex>)
    requires Based(b)
    ensures |p| == if b == null then 0 else b.nHeight + 1
    decreases if b == null then 0 else b.nHeight + 1
  {
    if b == null then [] else Path(b.pprev) + [b]
  }

  /** Every skip pointer on the way leads to the ancestor at the skip height. */
  ghost predicate Skips(b: BlockIndex?)
    requires Based(b)
    decreases if b == null then 0 else b.nHeight + 1
  {
    b != null && b.pprev != null ==>
      b.pskip == Path(b.pprev)[GetSkipHeight(b.nHeight)] && Skips(b.pprev)
  }

  ghost predicate Linked(b: BlockIndex?) { Based(b) && Skips(b) }

  lemma PathTop(b: BlockIndex)
    requires Based(b)
    ensures Path(b)[b.nHeight] == b
  {
  }

  /** The block at each height of a path is an ancestor whose own path is the part up to it. */
  lemma {:induction false} AncestorPath(b: BlockIndex, h: nat)
    requires Linked(b) && h <= b.nHeight
    ensures var a := Path(b)[h]; Linked(a) && a.nHeight == h && Path(a) == Path(b)[..h + 1]
    decreases b.nHeight
  {
    hide GetSkipHeight;
    if h < b.nHeight {
      AncestorPath(b.pprev, h);
      assert Path(b)[h] == Path(b.pprev)[h];
      assert Path(b)[..h + 1] == Path(b.pprev)[..h + 1];
    } else {
      assert Path(b)[..h + 1] == Path(b);
    }
  }

  lemma SkipLeads(b: BlockIndex)
    requires Linked(b) && b.nHeight > 0
    ensures GetSkipHeight(b.nHeight) < b.nHeight && b.pskip == Path(b)[GetSkipHeight(b.nHeight)]
    ensures b.pprev == Path(b)[b.nHeight - 1]
  {
    PathTop(b.pprev);
  }
}
