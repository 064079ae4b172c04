// Powers of two and aligned blocks, the arithmetic under CIDR prefixes
// (section 3.1 of RFC 4632). Bits are peeled off by halving, so every proof
// stays in linear arithmetic.
module Bits {

  function Pow2(k: nat): (r: nat)
    ensures r > 0
  {
    if k == 0 then 1 else 2 * Pow2(k - 1)
  }

  /** The `k` lowest bits of `b` are zero: `b` starts a block of 2^k addresses. */
  predicate Aligned(b: nat, k: nat) {
    k == 0 || (b % 2 == 0 && Aligned(b / 2, k - 1))
  }

  /** `n` with its `k` lowest bits cleared. */
  function Floor(n: nat, k: nat): nat {
    if k == 0 then n else 2 * Floor(n / 2, k - 1)
  }

  lemma {:induction false} Pow2Mono(i: nat, j: nat)
    requires i <= j
    ensures Pow2(i) <= Pow2(j)
    decreases j
  {
    if i < j {
      Pow2Mono(i, j - 1);
    }
  }

  lemma Pow2Less(i: nat, j: nat)
    requires i < j
    ensures Pow2(i) < Pow2(j)
  {
    Pow2Mono(i + 1, j);
  }

  lemma {:induction false} Pow2Sum(i: nat, j: nat, a: nat, b: nat)
    requires Pow2(i) == a && Pow2(j) == b
    ensures Pow2(i + j) == a * b
    decreases j
  {
    if j > 0 { Pow2Sum(i, j - 1, a, b / 2); }
  }

  lemma {:induction false} ZeroAligned(k: nat)
    ensures Aligned(0, k)
  {
    if k > 0 { ZeroAligned(k - 1); }
  }

  /** Two starts of blocks of 2^k addresses are at least a block apart, and so is what lies between. */
  lemma {:induction false} AlignedGap(a: nat, b: nat, k: nat)
    requires Aligned(a, k) && Aligned(b, k) && a < b
    ensures a + Pow2(k) <= b
    ensures Aligned(b - a, k)
    decreases k
  {
    if k > 0 { AlignedGap(a / 2, b / 2, k - 1); }
  }

  lemma {:induction false} AlignedSum(a: nat, b: nat, k: nat)
    requires Aligned(a, k) && Aligned(b, k)
    ensures Aligned(a + b, k)
    decreases k
  {
    if k > 0 { AlignedSum(a / 2, b / 2, k - 1); }
  }

  lemma {:induction false} AlignedPow2(h: nat, k: nat)
    requires k <= h
    ensures Aligned(Pow2(h), k)
    decreases k
  {
    if k > 0 { AlignedPow2(h - 1, k - 1); }
  }

  lemma {:induction false} AlignedDown(b: nat, h: nat, k: nat)
    requires k <= h && Aligned(b, h)
    ensures Aligned(b, k)
    decreases k
  {
    if k > 0 { AlignedDown(b / 2, h - 1, k - 1); }
  }

  /** A block splits into two blocks of half its size. */
  lemma AlignedHalves(b: nat, k: nat)
    requires Aligned(b, k + 1)
    ensures Aligned(b, k) && Aligned(b + Pow2(k), k)
  {
    AlignedDown(b, k + 1, k);
    AlignedPow2(k, k);
    AlignedSum(b, Pow2(k), k);
  }

  lemma {:induction false} FloorBlock(n: nat, k: nat)
    ensures Aligned(Floor(n, k), k)
    ensures Floor(n, k) <= n < Floor(n, k) + Pow2(k)
    decreases k
  {
    if k > 0 { FloorBlock(n / 2, k - 1); }
  }

  /** The block of 2^k addresses that holds an address is the only one. */
  lemma FloorUnique(b: nat, n: nat, k: nat)
    requires Aligned(b, k) && b <= n < b + Pow2(k)
    ensures Floor(n, k) == b
  {
    FloorBlock(n, k);
    if b < Floor(n, k) {
      AlignedGap(b, Floor(n, k), k);
    } else if Floor(n, k) < b {
      AlignedGap(Floor(n, k), b, k);
    }
  }

  /** A block that starts below 2^h and is no larger than 2^h ends at or below 2^h. */
  lemma BlockFits(b: nat, k: nat, h: nat)
    requires Aligned(b, k) && k <= h && b < Pow2(h)
    ensures b + Pow2(k) <= Pow2(h)
  {
    AlignedPow2(h, k);
    AlignedGap(b, Pow2(h), k);
  }

  /** The last block of 2^k addresses below 2^h. */
  lemma LastBlock(h: nat, k: nat)
    requires k < h
    ensures Pow2(k) < Pow2(h) && Aligned(Pow2(h) - Pow2(k), k)
  {
    Pow2Mono(k + 1, h);
    AlignedPow2(h, k);
    AlignedPow2(k, k);
    AlignedGap(Pow2(k), Pow2(h), k);
  }
}
