// netipx.IPRange.Prefixes: an address range as a list of CIDR blocks.
module Cidr {
  import opened Bits
  import opened Net

  /** The block of 2^k addresses that starts at `base`. */
  datatype Block = Block(base: nat, k: nat) {
    function Last(): int {
      base + Pow2(k) - 1
    }
  }

  /** The blocks of lo..hi inside the block of 2^k addresses at `base`: the block itself when it is
      covered, and otherwise what its two halves contribute. */
  function Decompose(base: nat, k: nat, lo: nat, hi: nat): seq<Block>
    requires base <= lo <= hi < base + Pow2(k)
    decreases k
  {
    if lo == base && hi == base + Pow2(k) - 1 then [Block(base, k)]
    else
      var mid := base + Pow2(k - 1);
      if hi < mid then Decompose(base, k - 1, lo, hi)
      else if lo >= mid then Decompose(mid, k - 1, lo, hi)
      else Decompose(base, k - 1, lo, mid - 1) + Decompose(mid, k - 1, mid, hi)
  }

  function Prefixes(f: Family, lo: nat, hi: nat): seq<Block>
    requires lo <= hi < Pow2(Width(f))
  {
    Decompose(0, Width(f), lo, hi)
  }

  /** Aligned blocks inside lo..hi. */
  ghost predicate Inside(bs: seq<Block>, lo: nat, hi: nat, k: nat) {
    forall i :: 0 <= i < |bs| ==> Within(bs[i], lo, hi, k)
  }

  predicate Within(b: Block, lo: nat, hi: nat, k: nat) {
    b.k <= k && Aligned(b.base, b.k) && lo <= b.base && b.Last() <= hi
  }

  /** Each block starts right after the one before it ends, the first at `lo` and the last at `hi`:
      ascending, disjoint, no gap. */
  ghost predicate Tiles(bs: seq<Block>, lo: nat, hi: nat) {
    && |bs| > 0
    && bs[0].base == lo && bs[|bs| - 1].Last() == hi
    && forall i :: 0 < i < |bs| ==> bs[i].base == bs[i - 1].Last() + 1
  }

  /** No block can be doubled: its parent block leaves lo..hi. */
  ghost predicate Maximal(bs: seq<Block>, lo: nat, hi: nat, k: nat) {
    forall i :: 0 <= i < |bs| ==>
      bs[i].k == k || var up := Block(Floor(bs[i].base, bs[i].k + 1), bs[i].k + 1); up.base < lo || hi < up.Last()
  }

  lemma Join(left: seq<Block>, right: seq<Block>, lo: nat, mid: nat, hi: nat, k: nat)
    requires lo < mid <= hi
    requires Inside(left, lo, mid - 1, k) && Tiles(left, lo, mid - 1)
    requires Inside(right, mid, hi, k) && Tiles(right, mid, hi)
    ensures Inside(left + right, lo, hi, k) && Tiles(left + right, lo, hi)
  {
    var bs := left + right;
    forall i | 0 < i < |bs|
      ensures bs[i].base == bs[i - 1].Last() + 1
    {
      if i < |left| {
        assert bs[i] == left[i] && bs[i - 1] == left[i - 1];
      } else if i > |left| {
        assert bs[i] == right[i - |left|] && bs[i - 1] == right[i - |left| - 1];
      }
    }
  }

  lemma WholeBlock(base: nat, k: nat)
    requires Aligned(base, k)
    ensures Inside([Block(base, k)], base, base + Pow2(k) - 1, k) && Tiles([Block(base, k)], base, base + Pow2(k) - 1)
  {
  }

  lemma Widen(bs: seq<Block>, lo: nat, hi: nat, k: nat)
    requires Inside(bs, lo, hi, k)
    ensures Inside(bs, lo, hi, k + 1)
  {
  }

  lemma {:induction false} DecomposeTiles(base: nat, k: nat, lo: nat, hi: nat)
    requires base <= lo <= hi < base + Pow2(k) && Aligned(base, k)
    ensures Inside(Decompose(base, k, lo, hi), lo, hi, k)
    ensures Tiles(Decompose(base, k, lo, hi), lo, hi)
    decreases k
  {
    hide Aligned, Within, Inside, Tiles;
    if lo == base && hi == base + Pow2(k) - 1 {
      WholeBlock(base, k);
      assert Decompose(base, k, lo, hi) == [Block(base, k)];
    } else {
      var mid := base + Pow2(k - 1);
      assert Aligned(base, k - 1) && Aligned(mid, k - 1) by { AlignedHalves(base, k - 1); }
      var bs := Decompose(base, k, lo, hi);
      assert Inside(bs, lo, hi, k - 1) && Tiles(bs, lo, hi) by {
        if hi < mid {
          DecomposeTiles(base, k - 1, lo, hi);
        } else if lo >= mid {
          DecomposeTiles(mid, k - 1, lo, hi);
        } else {
          DecomposeTiles(base, k - 1, lo, mid - 1);
          DecomposeTiles(mid, k - 1, mid, hi);
          Join(Decompose(base, k - 1, lo, mid - 1), Decompose(mid, k - 1, mid, hi), lo, mid, hi, k - 1);
        }
      }
      Widen(bs, lo, hi, k - 1);
    }
  }

  lemma {:induction false} DecomposeMaximal(base: nat, k: nat, lo: nat, hi: nat)
    requires base <= lo <= hi < base + Pow2(k) && Aligned(base, k)
    ensures Maximal(Decompose(base, k, lo, hi), lo, hi, k)
    decreases k, 0
  {
    if lo == base && hi == base + Pow2(k) - 1 {
      assert Decompose(base, k, lo, hi) == [Block(base, k)];
    } else {
      hide Aligned, Floor;
      var mid := base + Pow2(k - 1);
      AlignedHalves(base, k - 1);
      if lo < mid { MaximalHalf(base, k, lo, hi, base, lo, if hi < mid then hi else mid - 1); }
      if mid <= hi { MaximalHalf(base, k, lo, hi, mid, if lo < mid then mid else lo, hi); }
    }
  }

  lemma MaximalHalf(base: nat, k: nat, lo: nat, hi: nat, half: nat, l: nat, h: nat)
    requires 0 < k && Aligned(base, k) && base <= lo <= l <= h <= hi < base + Pow2(k)
    requires !(lo == base && hi == base + Pow2(k) - 1)
    requires (half == base || half == base + Pow2(k - 1)) && Aligned(half, k - 1)
    requires half <= l && h < half + Pow2(k - 1)
    requires l == lo || l == half
    requires h == hi || h == half + Pow2(k - 1) - 1
    ensures Maximal(Decompose(half, k - 1, l, h), lo, hi, k)
    decreases k - 1, 1
  {
    DecomposeTiles(half, k - 1, l, h);
    DecomposeMaximal(half, k - 1, l, h);
    Grow(Decompose(half, k - 1, l, h), base, k, lo, hi, l, h, half);
  }

  /** Blocks that cannot be doubled in their half cannot be doubled in the whole block either. */
  lemma Grow(bs: seq<Block>, base: nat, k: nat, lo: nat, hi: nat, l: nat, h: nat, half: nat)
    requires 0 < k && Aligned(base, k) && base <= lo <= l <= h <= hi < base + Pow2(k)
    requires !(lo == base && hi == base + Pow2(k) - 1)
    requires half == base || half == base + Pow2(k - 1)
    requires half <= l && h < half + Pow2(k - 1)
    requires l == lo || l == half
    requires h == hi || h == half + Pow2(k - 1) - 1
    requires Inside(bs, l, h, k - 1) && Maximal(bs, l, h, k - 1)
    ensures Maximal(bs, lo, hi, k)
  {
    hide Aligned, Floor;
    forall i | 0 <= i < |bs|
      ensures var up := Block(Floor(bs[i].base, bs[i].k + 1), bs[i].k + 1); up.base < lo || hi < up.Last()
    {
      var b := bs[i];
      var up := Block(Floor(b.base, b.k + 1), b.k + 1);
      if b.k == k - 1 {
        FloorUnique(base, b.base, k);
      } else {
        AlignedHalves(base, k - 1);
        UpInHalf(b, half, k - 1);
      }
    }
  }

  /** The parent of a block smaller than 2^h stays inside the block of 2^h addresses holding it. */
  lemma UpInHalf(b: Block, half: nat, h: nat)
    requires b.k < h && Aligned(half, h) && half <= b.base < half + Pow2(h)
    ensures half <= Floor(b.base, b.k + 1) && Floor(b.base, b.k + 1) + Pow2(b.k + 1) <= half + Pow2(h)
  {
    var k, f := b.k + 1, Floor(b.base, b.k + 1);
    FloorBlock(b.base, k);
    AlignedDown(half, h, k);
    AlignedPow2(h, k);
    AlignedSum(half, Pow2(h), k);
    if f < half { AlignedGap(f, half, k); }
    AlignedGap(f, half + Pow2(h), k);
  }

  /** The contract of IPRange.Prefixes: aligned blocks, ascending and disjoint, that cover lo..hi
      exactly and of which none can be doubled. */
  lemma PrefixesCorrect(f: Family, lo: nat, hi: nat)
    requires lo <= hi < Pow2(Width(f))
    ensures var bs := Prefixes(f, lo, hi);
            Inside(bs, lo, hi, Width(f)) && Tiles(bs, lo, hi) && Maximal(bs, lo, hi, Width(f))
  {
    ZeroAligned(Width(f));
    DecomposeTiles(0, Width(f), lo, hi);
    DecomposeMaximal(0, Width(f), lo, hi);
  }
}
