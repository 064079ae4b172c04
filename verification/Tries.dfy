// The search tree of the database as a binary trie: inserts split a leaf and
// re-merge equal siblings, as mmdbwriter's InsertFunc does.
module Tries {
  import opened Bits
  import opened Net

  datatype Trie<V> = Empty | Leaf(value: V) | Node(zero: Trie<V>, one: Trie<V>)

  /** The trie has at most `h` levels of nodes. */
  predicate Fits<V>(t: Trie<V>, h: nat) {
    t.Node? ==> h > 0 && Fits(t.zero, h - 1) && Fits(t.one, h - 1)
  }

  /** The value at address `x` of the 2^h addresses under the trie. */
  function Find<V>(t: Trie<V>, h: nat, x: nat): Option<V> {
    match t
    case Empty => None
    case Leaf(v) => Some(v)
    case Node(l, r) =>
      if h == 0 then None
      else if x < Pow2(h - 1) then Find(l, h - 1, x)
      else Find(r, h - 1, x - Pow2(h - 1))
  }

  /** maybeMergeChildren: siblings that are both empty, or hold equal records, become one. */
  function Join<V(==)>(l: Trie<V>, r: Trie<V>): Trie<V> {
    if l == r && !l.Node? then l else Node(l, r)
  }

  /** The record under a whole subtree is passed through the inserter. */
  function Update<V(==)>(t: Trie<V>, f: Option<V> -> V): Trie<V> {
    match t
    case Empty => Leaf(f(None))
    case Leaf(v) => Leaf(f(Some(v)))
    case Node(l, r) => Join(Update(l, f), Update(r, f))
  }

  /** InsertFunc for the block of 2^k addresses at `b` in a tree of 2^h addresses. A leaf on the way
      is split into two copies, so the inserter sees the record inherited from above. */
  function Insert<V(==)>(t: Trie<V>, h: nat, b: nat, k: nat, f: Option<V> -> V): Trie<V>
    requires k <= h && b < Pow2(h)
  {
    if k == h then Update(t, f)
    else
      var l, r := if t.Node? then t.zero else t, if t.Node? then t.one else t;
      if b < Pow2(h - 1) then Join(Insert(l, h - 1, b, k, f), r)
      else Join(l, Insert(r, h - 1, b - Pow2(h - 1), k, f))
  }

  /** Re-merging siblings never changes what is found. */
  lemma JoinFind<V>(l: Trie<V>, r: Trie<V>, h: nat, x: nat)
    requires h > 0
    ensures Find(Join(l, r), h, x) == if x < Pow2(h - 1) then Find(l, h - 1, x) else Find(r, h - 1, x - Pow2(h - 1))
    ensures Fits(l, h - 1) && Fits(r, h - 1) ==> Fits(Join(l, r), h)
  {
  }

  lemma {:induction false} UpdateFind<V>(t: Trie<V>, h: nat, f: Option<V> -> V, x: nat)
    requires Fits(t, h)
    ensures Fits(Update(t, f), h)
    ensures Find(Update(t, f), h, x) == Some(f(Find(t, h, x)))
    decreases h
  {
    if t.Node? {
      UpdateFind(t.zero, h - 1, f, x);
      UpdateFind(t.one, h - 1, f, x);
      if x >= Pow2(h - 1) {
        UpdateFind(t.one, h - 1, f, x - Pow2(h - 1));
      }
      JoinFind(Update(t.zero, f), Update(t.one, f), h, x);
    }
  }

  /** An insert passes the record of exactly the addresses in its block through the inserter. */
  lemma {:induction false} InsertFind<V>(t: Trie<V>, h: nat, b: nat, k: nat, f: Option<V> -> V, x: nat)
    requires Fits(t, h) && k <= h && Aligned(b, k) && b < Pow2(h) && x < Pow2(h)
    ensures Fits(Insert(t, h, b, k, f), h)
    ensures Find(Insert(t, h, b, k, f), h, x) ==
            if b <= x < b + Pow2(k) then Some(f(Find(t, h, x))) else Find(t, h, x)
    decreases h
  {
    if k == h {
      UpdateFind(t, h, f, x);
      BlockFits(b, k, h);
    } else {
      hide Aligned, Join, Update;
      var half := Pow2(h - 1);
      var l, r := if t.Node? then t.zero else t, if t.Node? then t.one else t;
      var y := if x < half then x else x - half;
      if b < half {
        BlockFits(b, k, h - 1);
        InsertFind(l, h - 1, b, k, f, y);
        JoinFind(Insert(l, h - 1, b, k, f), r, h, x);
      } else {
        AlignedPow2(h - 1, k);
        if b == half { ZeroAligned(k); } else { AlignedGap(half, b, k); }
        InsertFind(r, h - 1, b - half, k, f, y);
        JoinFind(l, Insert(r, h - 1, b - half, k, f), h, x);
      }
    }
  }

  // ----- the tree is determined by its meaning -----

  /** No node is left that maybeMergeChildren would merge. */
  predicate Reduced<V(==)>(t: Trie<V>) {
    t.Node? ==> Reduced(t.zero) && Reduced(t.one) && (t.zero != t.one || t.zero.Node?)
  }

  lemma {:induction false} UpdateReduced<V>(t: Trie<V>, f: Option<V> -> V)
    requires Reduced(t)
    ensures Reduced(Update(t, f))
  {
    if t.Node? {
      UpdateReduced(t.zero, f);
      UpdateReduced(t.one, f);
    }
  }

  lemma {:induction false} InsertReduced<V>(t: Trie<V>, h: nat, b: nat, k: nat, f: Option<V> -> V)
    requires Reduced(t) && k <= h && b < Pow2(h)
    ensures Reduced(Insert(t, h, b, k, f))
    decreases h
  {
    if k == h {
      UpdateReduced(t, f);
    } else {
      var l, r := if t.Node? then t.zero else t, if t.Node? then t.one else t;
      if b < Pow2(h - 1) {
        InsertReduced(l, h - 1, b, k, f);
      } else {
        InsertReduced(r, h - 1, b - Pow2(h - 1), k, f);
      }
    }
  }

  ghost predicate SameMeaning<V>(s: Trie<V>, t: Trie<V>, h: nat) {
    forall x :: 0 <= x < Pow2(h) ==> Find(s, h, x) == Find(t, h, x)
  }

  /** Two reduced tries that find the same record at every address are the same trie. */
  lemma {:induction false} ReducedUnique<V>(s: Trie<V>, t: Trie<V>, h: nat)
    requires Fits(s, h) && Fits(t, h) && Reduced(s) && Reduced(t) && SameMeaning(s, t, h)
    ensures s == t
    decreases h
  {
    if !s.Node? && !t.Node? {
      assert Find(s, h, 0) == Find(t, h, 0);
    } else if s.Node? && t.Node? {
      HalvesMeaning(s, t, h);
      ReducedUnique(s.zero, t.zero, h - 1);
      ReducedUnique(s.one, t.one, h - 1);
    } else if s.Node? {
      ConstantIsLeaf(s, t, h);
    } else {
      ConstantIsLeaf(t, s, h);
    }
  }

  lemma HalvesMeaning<V>(s: Trie<V>, t: Trie<V>, h: nat)
    requires s.Node? && t.Node? && h > 0 && SameMeaning(s, t, h)
    ensures SameMeaning(s.zero, t.zero, h - 1) && SameMeaning(s.one, t.one, h - 1)
  {
    var g: nat, half := h - 1, Pow2(h - 1);
    forall x | 0 <= x < half ensures Find(s.zero, g, x) == Find(t.zero, g, x) {
      assert Find(s, h, x) == Find(t, h, x);
    }
    forall x | 0 <= x < half ensures Find(s.one, g, x) == Find(t.one, g, x) {
      assert Find(s, h, x + half) == Find(t, h, x + half);
    }
  }

  /** A reduced trie that finds the same record everywhere is a single leaf, or empty. */
  lemma {:induction false} ConstantIsLeaf<V>(s: Trie<V>, t: Trie<V>, h: nat)
    requires Fits(s, h) && Reduced(s) && !t.Node? && SameMeaning(s, t, h)
    ensures s == t
    decreases h
  {
    if s.Node? {
      HalvesOfConstant(s, t, h);
      ConstantIsLeaf(s.zero, t, h - 1);
      ConstantIsLeaf(s.one, t, h - 1);
    } else {
      assert Find(s, h, 0) == Find(t, h, 0);
    }
  }

  lemma HalvesOfConstant<V>(s: Trie<V>, t: Trie<V>, h: nat)
    requires s.Node? && !t.Node? && h > 0 && SameMeaning(s, t, h)
    ensures SameMeaning(s.zero, t, h - 1) && SameMeaning(s.one, t, h - 1)
  {
    var g: nat, half := h - 1, Pow2(h - 1);
    forall x | 0 <= x < half ensures Find(s.zero, g, x) == Find(t, g, x) {
      assert Find(s, h, x) == Find(t, h, x);
    }
    forall x | 0 <= x < half ensures Find(s.one, g, x) == Find(t, g, x) {
      assert Find(s, h, x + half) == Find(t, h, x + half);
    }
  }
}
