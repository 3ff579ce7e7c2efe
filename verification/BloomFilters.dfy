/**
 CBloomFilter and CRollingBloomFilter, updated in place. The bit array's length and the number of
 hash functions are given; the source derives them from logarithms.
 */
module BloomFilters {
  import opened BloomModel

  class BloomFilter {
    const hash: Hasher
    const nHashFuncs: nat
    var vData: seq<bv8>
    var isFull: bool
    var isEmpty: bool
    var nTweak: nat

    ghost function Model(): (f: Filter)
      reads this
    {
      Filter(vData, isFull, isEmpty, nHashFuncs, nTweak)
    }

    ghost predicate Ok()
      reads this
    {
      Valid(Model())
    }

    /** The private constructor, used by the rolling filter. */
    constructor (hash: Hasher, bytes: nat, funcs: nat, tweak: nat)
      requires funcs > 0 ==> bytes > 0
      ensures Ok() && this.hash == hash && Model() == Filter(seq(bytes, _ => 0), false, true, funcs, tweak)
    {
      this.hash := hash;
      vData := seq(bytes, _ => 0);
      isFull := false;
      isEmpty := true;
      nHashFuncs := funcs;
      nTweak := tweak;
    }

    method InsertKey(key: Key)
      requires Ok()
      modifies this
      ensures Ok() && Model() == Insert(hash, old(Model()), key)
    {
      hide SetBit, BitSet, HashBit;
      if isFull { return; }
      ghost var f := Model();
      for i := 0 to nHashFuncs
        invariant Model() == SetBits(hash, f, key, i)
      {
        SameHash(hash, f, Model(), i, key);
        var index := HashBit(hash, Filter(vData, isFull, isEmpty, nHashFuncs, nTweak), i, key);
        vData := SetBit(vData, index);
      }
      isEmpty := false;
    }

    method ContainsKey(key: Key) returns (found: bool)
      requires Ok()
      ensures found <==> Contains(hash, Model(), key)
    {
      hide BitSet, HashBit;
      if isFull { return true; }
      if isEmpty { return false; }
      for i := 0 to nHashFuncs
        invariant forall n :: 0 <= n < i ==> BitSet(vData, HashBit(hash, Model(), n, key))
      {
        var index := HashBit(hash, Filter(vData, isFull, isEmpty, nHashFuncs, nTweak), i, key);
        if !BitSet(vData, index) { return false; }
      }
      return true;
    }

    method ClearAll()
      requires Ok()
      modifies this
      ensures Ok() && Model() == Clear(old(Model()))
    {
      vData := seq(|vData|, _ => 0);
      isFull := false;
      isEmpty := true;
    }

    method ResetTo(tweak: nat)
      requires Ok()
      modifies this
      ensures Ok() && Model() == Reset(old(Model()), tweak)
    {
      ClearAll();
      nTweak := tweak;
    }

    method RefreshFlags()
      requires Ok()
      modifies this
      ensures Ok() && Model() == UpdateEmptyFull(old(Model()))
    {
      var full, empty := true, true;
      for i := 0 to |vData|
        invariant Model() == old(Model())
        invariant full <==> forall k :: 0 <= k < i ==> vData[k] == 0xff
        invariant empty <==> forall k :: 0 <= k < i ==> vData[k] == 0
      {
        full := full && vData[i] == 0xff;
        empty := empty && vData[i] == 0;
      }
      isFull := full;
      isEmpty := empty;
    }
  }

  class RollingBloomFilter {
    const b1: BloomFilter
    const b2: BloomFilter
    const nBloomSize: nat
    var nInsertions: nat

    ghost function Model(): (r: Rolling)
      reads this, b1, b2
    {
      Rolling(b1.Model(), b2.Model(), nBloomSize, nInsertions)
    }

    ghost predicate Ok()
      reads this, b1, b2
    {
      b1 != b2 && b1.Ok() && b2.Ok() && b1.hash == b2.hash
    }

    constructor (hash: Hasher, elements: nat, bytes: nat, funcs: nat, tweak: nat)
      requires elements < WORD && (funcs > 0 ==> bytes > 0)
      ensures Ok() && fresh(b1) && fresh(b2) && b1.hash == hash && nBloomSize == 2 * elements % WORD
      ensures exists r :: RollingValid(r) && r.size == 2 * elements % WORD && Model() == RollingReset(r, tweak)
    {
      b1 := new BloomFilter(hash, bytes, funcs, 0);
      b2 := new BloomFilter(hash, bytes, funcs, 0);
      nInsertions := 0;
      nBloomSize := elements * 2 % WORD;
      new;
      ghost var r := Model();
      b1.ResetTo(tweak);
      b2.ResetTo(tweak);
      nInsertions := 0;
      assert RollingValid(r) && Model() == RollingReset(r, tweak);
    }

    method InsertKey(key: Key)
      requires Ok()
      modifies this, b1, b2
      ensures Ok() && Model() == RollingInsert(b1.hash, old(Model()), key)
    {
      hide Insert, Clear;
      if nInsertions == 0 {
        b1.ClearAll();
      } else if nInsertions == nBloomSize / 2 {
        b2.ClearAll();
      }
      b1.InsertKey(key);
      b2.InsertKey(key);
      nInsertions := (nInsertions + 1) % WORD;
      if nInsertions == nBloomSize {
        nInsertions := 0;
      }
    }

    method ContainsKey(key: Key) returns (found: bool)
      requires Ok()
      ensures found <==> RollingContains(b1.hash, Model(), key)
    {
      hide Contains;
      if nInsertions < nBloomSize / 2 {
        found := b2.ContainsKey(key);
      } else {
        found := b1.ContainsKey(key);
      }
    }

    method ResetTo(tweak: nat)
      requires Ok()
      modifies this, b1, b2
      ensures Ok() && Model() == RollingReset(old(Model()), tweak)
    {
      b1.ResetTo(tweak);
      b2.ResetTo(tweak);
      nInsertions := 0;
    }
  }
}
