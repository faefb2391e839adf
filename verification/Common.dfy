/** Facts about sets and sequences that several parts need. */
module Collections {

  ghost predicate Distinct(s: seq<nat>) {
    forall i, j :: 0 <= i < j < |s| ==> s[i] != s[j]
  }

  lemma SubsetSize<T>(s: set<T>, t: set<T>)
    requires s <= t
    ensures |s| <= |t|
  {
    assert t == s + (t - s);
  }
}

/** The bits of a number. */
module Bits {

  /** x & (1 << k) */
  predicate NatBit(x: nat, k: nat) {
    if k == 0 then x % 2 == 1 else NatBit(x / 2, k - 1)
  }

  /** x | (1 << k), or x & ~(1 << k) */
  function WithNatBit(x: nat, k: nat, v: bool): (y: nat) {
    if k == 0 then x / 2 * 2 + (if v then 1 else 0) else 2 * WithNatBit(x / 2, k - 1, v) + x % 2
  }

  lemma {:induction false} NatBitAfter(x: nat, k: nat, v: bool, j: nat)
    ensures NatBit(WithNatBit(x, k, v), j) <==> if j == k then v else NatBit(x, j)
    decreases k
  {
    if k != 0 && j != 0 {
      NatBitAfter(x / 2, k - 1, v, j - 1);
      assert WithNatBit(x, k, v) / 2 == WithNatBit(x / 2, k - 1, v);
    }
  }

  function Pow2(k: nat): (p: nat) {
    if k == 0 then 1 else 2 * Pow2(k - 1)
  }

  lemma {:induction false} NatBitRange(x: nat, k: nat, v: bool, n: nat)
    requires x < Pow2(n) && k < n
    ensures WithNatBit(x, k, v) < Pow2(n)
    decreases k
  {
    if k != 0 {
      NatBitRange(x / 2, k - 1, v, n - 1);
    }
  }

  /** p << m | f, where f has m bits. */
  lemma {:induction false} NatBitJoined(p: nat, m: nat, f: nat, k: nat)
    requires f < Pow2(m)
    ensures NatBit(p * Pow2(m) + f, k) <==> if k < m then NatBit(f, k) else NatBit(p, k - m)
    decreases m
  {
    if m > 0 {
      var q := p * Pow2(m - 1);
      assert p * Pow2(m) == 2 * q;
      assert (2 * q + f) / 2 == q + f / 2;
      if k > 0 {
        NatBitJoined(p, m - 1, f / 2, k - 1);
      }
    }
  }
}
