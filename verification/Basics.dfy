/**
 Stock definitions and facts that several models share.
 */
module Basics {

  datatype Option<+T> = None | Some(value: T)

  function Max(x: int, y: int): int { if x < y then y else x }

  function Pow2(n: nat): (p: nat)
    ensures p >= 1
  {
    if n == 0 then 1 else 2 * Pow2(n - 1)
  }

  lemma MulMono(a: int, b: int, c: nat)
    requires a >= b
    ensures a * c >= b * c
  {
  }

  lemma SubsetSize<T>(a: set<T>, b: set<T>)
    requires a <= b
    ensures |a| <= |b|
  {
    assert b == a + (b - a);
  }

  lemma AnyOf<T>(s: set<T>) returns (x: T)
    requires s != {}
    ensures x in s
  {
    x :| x in s;
  }
}
