// What CoalesceASNRanges promises: same meaning, strictly disjoint, minimal.
module Coalescing {
  import opened Bits
  import opened Net
  import opened AsnRanges

  /** Ascending, with no key in two rows. */
  ghost predicate Disjoint(rows: seq<Row>) {
    forall i, j :: 0 <= i < j < |rows| ==> rows[i].Hi() < rows[j].Lo()
  }

  /** No row could be merged into its predecessor. */
  ghost predicate Irreducible(rows: seq<Row>) {
    forall i :: 0 < i < |rows| ==> !(SameFamily(rows[i - 1], rows[i]) && Adjoins(rows[i - 1], rows[i]))
  }

  ghost predicate SameOwners(a: seq<Row>, b: seq<Row>) {
    forall x: int :: Owner(a, x) == Owner(b, x)
  }

  /** No key from the start of the last row read to the end of the last row kept lacks an owner. */
  ghost predicate Covered(rows: seq<Row>, out: seq<Row>) {
    |rows| > 0 && |out| > 0
    && forall x :: rows[|rows| - 1].Lo() <= x <= out[|out| - 1].Hi() ==> Owner(out, x).Some?
  }

  /** What every iteration keeps, between the rows read and the rows kept. */
  ghost predicate Inv(rows: seq<Row>, out: seq<Row>) {
    && |rows| > 0 && |out| > 0
    && AllValid(out) && Disjoint(out) && Irreducible(out)
    && SameOwners(out, rows) && Covered(rows, out)
    && rows[|rows| - 1].Valid() && out[|out| - 1].last.fam == rows[|rows| - 1].first.fam
  }

  lemma NextKey(a: Addr)
    requires a.IP?
    ensures Next(a).IP? ==> Next(a).fam == a.fam && Next(a).n == a.n + 1 && Key(Next(a)) == Key(a) + 1
    ensures !Next(a).IP? ==> a.n == Pow2(Width(a.fam)) - 1
  {
  }

  /** Keys of a family stay on its side of 2^32. */
  lemma FamilyKeys(a: Addr)
    requires a.IP?
    ensures a.fam == V4 ==> 0 <= Key(a) < Pow2(V4_BITS)
    ensures a.fam == V6 ==> Pow2(V4_BITS) <= Key(a)
  {
  }

  lemma {:induction false} OwnerSnoc(rows: seq<Row>, r: Row, x: int)
    ensures Owner(rows + [r], x) ==
            if Owner(rows, x).Some? then Owner(rows, x)
            else if r.Lo() <= x <= r.Hi() then Some(r.AS()) else None
  {
    if rows == [] {
      assert rows + [r] == [r];
    } else {
      assert (rows + [r])[1..] == rows[1..] + [r];
      OwnerSnoc(rows[1..], r, x);
    }
  }

  lemma {:induction false} OwnerIndex(rows: seq<Row>, x: int) returns (i: nat)
    requires Owner(rows, x).Some?
    ensures i < |rows| && rows[i].Lo() <= x <= rows[i].Hi() && Owner(rows, x) == Some(rows[i].AS())
  {
    if rows[0].Lo() <= x <= rows[0].Hi() {
      i := 0;
    } else {
      var j := OwnerIndex(rows[1..], x);
      i := j + 1;
    }
  }

  lemma {:induction false} OwnerFirst(rows: seq<Row>, i: nat, x: int)
    requires i < |rows| && rows[i].Lo() <= x <= rows[i].Hi()
    requires forall j :: 0 <= j < i ==> !(rows[j].Lo() <= x <= rows[j].Hi())
    ensures Owner(rows, x) == Some(rows[i].AS())
  {
    if i > 0 { OwnerFirst(rows[1..], i - 1, x); }
  }

  /** A row that holds a key gives it an owner. */
  lemma {:induction false} HeldHasOwner(rows: seq<Row>, i: nat, x: int)
    requires i < |rows| && rows[i].Lo() <= x <= rows[i].Hi()
    ensures Owner(rows, x).Some?
  {
    hide Key;
    if i > 0 { HeldHasOwner(rows[1..], i - 1, x); }
  }

  lemma SameOwnersAt(a: seq<Row>, b: seq<Row>, x: int)
    requires SameOwners(a, b)
    ensures Owner(a, x) == Owner(b, x)
  {
  }

  /** In a disjoint table the row that holds a key is its owner. */
  lemma OwnerAt(rows: seq<Row>, i: nat, x: int)
    requires Disjoint(rows) && i < |rows| && rows[i].Lo() <= x <= rows[i].Hi()
    ensures Owner(rows, x) == Some(rows[i].AS())
  {
    OwnerFirst(rows, i, x);
  }

  /** Two families never overlap, and sorting puts v4 first. */
  lemma ReadInOrder(rows: seq<Row>, out: seq<Row>, r: Row)
    requires Inv(rows, out) && r.Valid() && Le(rows[|rows| - 1].first, r.first)
    ensures var prev := out[|out| - 1];
            && (SameFamily(prev, r) <==> prev.last.fam == r.first.fam)
            && (!SameFamily(prev, r) ==> prev.Hi() < r.Lo())
  {
    FamilyKeys(rows[|rows| - 1].first);
    FamilyKeys(r.first);
    FamilyKeys(out[|out| - 1].last);
  }

  lemma StepSwallows(rows: seq<Row>, out: seq<Row>, r: Row)
    requires Inv(rows, out) && r.Valid() && Le(rows[|rows| - 1].first, r.first)
    requires Swallowed(out[|out| - 1], r)
    ensures Inv(rows + [r], out)
  {
    var prev := out[|out| - 1];
    ReadInOrder(rows, out, r);
    NextKey(prev.last);
    assert r.Hi() <= prev.Hi() && prev.last.fam == r.first.fam;
    hide Owner, Key, Swallowed, Disjoint, Irreducible, AllValid;
    forall x ensures Owner(out, x) == Owner(rows + [r], x) { OwnerSnoc(rows, r, x); }
  }

  /** What the clamp leaves of a row starts after `prev` and loses no key that has no owner yet. */
  lemma ClampKeys(rows: seq<Row>, out: seq<Row>, r: Row)
    requires Inv(rows, out) && r.Valid() && Le(rows[|rows| - 1].first, r.first)
    requires !Swallowed(out[|out| - 1], r)
    ensures var prev := out[|out| - 1]; var c := Clamp(prev, r);
            && c.Valid() && c.first.fam == r.first.fam && c.last == r.last && c.AS() == r.AS()
            && prev.Hi() < c.Lo() && r.Lo() <= c.Lo()
            && (forall x :: Owner(out, x).None? ==> (c.Lo() <= x <= c.Hi() <==> r.Lo() <= x <= r.Hi()))
            && forall x :: r.Lo() <= x < c.Lo() ==> Owner(out, x).Some?
  {
    var prev := out[|out| - 1];
    ReadInOrder(rows, out, r);
    NextKey(prev.last);
  }

  lemma StepAppends(rows: seq<Row>, out: seq<Row>, r: Row)
    requires Inv(rows, out) && r.Valid() && Le(rows[|rows| - 1].first, r.first)
    requires var prev := out[|out| - 1]; !Swallowed(prev, r) && !(SameFamily(prev, r) && Adjoins(prev, Clamp(prev, r)))
    ensures Inv(rows + [r], out + [Clamp(out[|out| - 1], r)])
  {
    var prev := out[|out| - 1];
    var c := Clamp(prev, r);
    ClampKeys(rows, out, r);
    AppendedShape(out, c);
    AppendedOwners(rows, out, r, c);
    hide Owner, Coalesced, SameOwners, Covered, Disjoint, Irreducible, Swallowed, Clamp;
  }

  lemma AppendedShape(out: seq<Row>, c: Row)
    requires |out| > 0 && AllValid(out) && Disjoint(out) && Irreducible(out) && c.Valid()
    requires var prev := out[|out| - 1]; prev.Hi() < c.Lo() && !(SameFamily(prev, c) && Adjoins(prev, c))
    ensures var kept := out + [c]; AllValid(kept) && Disjoint(kept) && Irreducible(kept)
  {
    hide Key;
    var prev := out[|out| - 1];
    forall i | 0 <= i < |out| ensures out[i].Hi() < c.Lo() {
      if i < |out| - 1 { RowOrder(out, i); }
    }
  }

  lemma RowOrder(out: seq<Row>, i: nat)
    requires AllValid(out) && Disjoint(out) && i < |out| - 1
    ensures out[i].Hi() < out[|out| - 1].Lo() <= out[|out| - 1].Hi()
  {
  }

  lemma AppendedOwners(rows: seq<Row>, out: seq<Row>, r: Row, c: Row)
    requires SameOwners(out, rows) && c.AS() == r.AS() && c.last == r.last && r.Lo() <= c.Lo()
    requires forall x :: Owner(out, x).None? ==> (c.Lo() <= x <= c.Hi() <==> r.Lo() <= x <= r.Hi())
    requires forall x :: r.Lo() <= x < c.Lo() ==> Owner(out, x).Some?
    ensures SameOwners(out + [c], rows + [r]) && Covered(rows + [r], out + [c])
  {
    hide Key;
    forall x
      ensures Owner(out + [c], x) == Owner(rows + [r], x)
      ensures r.Lo() <= x <= c.Hi() ==> Owner(out + [c], x).Some?
    {
      OwnerSnoc(rows, r, x);
      OwnerSnoc(out, c, x);
    }
  }

  /** Widening the last row by what the clamp left of `r`, for the owner of one key. */
  lemma WidenOwner(init: seq<Row>, prev: Row, r: Row, c: Row, x: int)
    requires prev.Valid() && c.Valid() && c.last == r.last && c.Lo() == prev.Hi() + 1 && prev.AS() == r.AS()
    requires Owner(init + [prev], x).None? ==> (c.Lo() <= x <= c.Hi() <==> r.Lo() <= x <= r.Hi())
    ensures Owner(init + [prev.(last := r.last)], x) ==
            if Owner(init + [prev], x).Some? then Owner(init + [prev], x)
            else if r.Lo() <= x <= r.Hi() then Some(r.AS()) else None
  {
    OwnerSnoc(init, prev, x);
    OwnerSnoc(init, prev.(last := r.last), x);
  }

  lemma StepMerges(rows: seq<Row>, init: seq<Row>, prev: Row, r: Row)
    requires Inv(rows, init + [prev]) && r.Valid() && Le(rows[|rows| - 1].first, r.first)
    requires !Swallowed(prev, r) && SameFamily(prev, r) && Adjoins(prev, Clamp(prev, r))
    ensures Inv(rows + [r], init + [prev.(last := r.last)])
  {
    var out := init + [prev];
    assert out[|out| - 1] == prev;
    ClampKeys(rows, out, r);
    ReadInOrder(rows, out, r);
    NextKey(prev.last);
    hide Owner, Coalesced, SameOwners, Covered, Disjoint, Irreducible, Swallowed;
    MergedOwners(rows, init, prev, r, Clamp(prev, r));
    MergedShape(init, prev, prev.(last := r.last));
  }

  lemma MergedOwners(rows: seq<Row>, init: seq<Row>, prev: Row, r: Row, c: Row)
    requires prev.Valid() && c.Valid() && c.last == r.last && c.Lo() == prev.Hi() + 1 && prev.AS() == r.AS()
    requires SameOwners(init + [prev], rows)
    requires forall x :: Owner(init + [prev], x).None? ==> (c.Lo() <= x <= c.Hi() <==> r.Lo() <= x <= r.Hi())
    ensures SameOwners(init + [prev.(last := r.last)], rows + [r])
    ensures Covered(rows + [r], init + [prev.(last := r.last)])
  {
    forall x
      ensures Owner(init + [prev.(last := r.last)], x) == Owner(rows + [r], x)
      ensures r.Lo() <= x <= r.Hi() ==> Owner(rows + [r], x).Some?
    {
      OwnerSnoc(rows, r, x);
      WidenOwner(init, prev, r, c, x);
    }
  }

  lemma MergedShape(init: seq<Row>, prev: Row, wide: Row)
    requires var out := init + [prev]; AllValid(out) && Disjoint(out) && Irreducible(out)
    requires wide.Valid() && wide.first == prev.first && wide.AS() == prev.AS()
    ensures var kept := init + [wide]; AllValid(kept) && Disjoint(kept) && Irreducible(kept)
  {
    var out, kept := init + [prev], init + [wide];
    assert forall i :: 0 <= i < |init| ==> kept[i] == out[i];
    assert out[|init|] == prev && kept[|init|] == wide;
  }

  lemma OneRowInv(r: Row)
    requires r.Valid()
    ensures Inv([r], Coalesced([r]))
  {
    assert [r][..0] == [];
    assert Coalesced([r]) == [r];
  }

  lemma InvNonEmpty(rows: seq<Row>, out: seq<Row>)
    requires Inv(rows, out)
    ensures rows != [] && out != []
  {
  }

  lemma StepInv(rows: seq<Row>, out: seq<Row>, r: Row)
    requires Inv(rows, out) && r.Valid() && Le(rows[|rows| - 1].first, r.first)
    ensures Inv(rows + [r], Step(out, r))
  {
    hide Inv, Swallowed, SameFamily, Adjoins, Clamp, Key;
    InvNonEmpty(rows, out);
    var m := |out| - 1;
    var prev := out[m];
    if Swallowed(prev, r) {
      StepSwallows(rows, out, r);
    } else if SameFamily(prev, r) && Adjoins(prev, Clamp(prev, r)) {
      assert out == out[..m] + [prev];
      StepMerges(rows, out[..m], prev, r);
      assert out[m := prev.(last := r.last)] == out[..m] + [prev.(last := r.last)];
    } else {
      StepAppends(rows, out, r);
    }
  }

  lemma {:induction false} CoalescedInv(rows: seq<Row>)
    requires |rows| > 0 && AllValid(rows) && SortedByFirst(rows)
    ensures Inv(rows, Coalesced(rows))
  {
    hide Inv, Step, Key;
    var n := |rows| - 1;
    var r, pre := rows[n], rows[..n];
    assert rows == pre + [r];
    if n == 0 {
      assert rows == [r];
      OneRowInv(r);
    } else {
      CoalescedInv(pre);
      StepInv(pre, Coalesced(pre), r);
    }
  }

  /** CoalesceASNRanges keeps the meaning of valid rows: every address keeps the AS of the first
      row, in sorted order, that contains it, and the rows become strictly disjoint. */
  lemma CoalescedMeaning(rows: seq<Row>)
    requires AllValid(rows) && SortedByFirst(rows)
    ensures var out := Coalesced(rows); AllValid(out) && Disjoint(out) && Irreducible(out) && SameOwners(out, rows)
  {
    if rows != [] { CoalescedInv(rows); }
  }

  // ----- minimality -----

  /** If two rows of a table lie in one row of a disjoint table with the same meaning, the first of
      them and its successor could be merged. */
  lemma InOneRowMerges(out: seq<Row>, other: seq<Row>, i: nat, j: nat, k: nat)
    requires AllValid(out) && Disjoint(out) && AllValid(other) && Disjoint(other) && SameOwners(out, other)
    requires i < j < |out| && k < |other|
    requires other[k].Lo() <= out[i].Lo() && out[j].Lo() <= other[k].Hi()
    ensures SameFamily(out[i], out[i + 1]) && Adjoins(out[i], out[i + 1])
  {
    var p, q, o := out[i], out[i + 1], other[k];
    NextStart(out, i, j);
    SameHolder(out, other, i, k, p.Hi());
    SameHolder(out, other, i + 1, k, q.Lo());
    NoGap(out, other, i, k);
    hide Owner, Key, Disjoint, SameOwners;
    SameFamilyInside(o, p.last, q.first);
    NextKey(p.last);
  }

  lemma NextStart(out: seq<Row>, i: nat, j: nat)
    requires AllValid(out) && Disjoint(out) && i < j < |out|
    ensures out[i].Lo() <= out[i].Hi() < out[i + 1].Lo() <= out[j].Lo()
  {
    assert out[i + 1].Lo() <= out[i + 1].Hi();
  }

  /** Rows of two tables with the same meaning that share a key announce the same AS. */
  lemma SameHolder(out: seq<Row>, other: seq<Row>, i: nat, k: nat, x: int)
    requires Disjoint(out) && Disjoint(other) && SameOwners(out, other) && i < |out| && k < |other|
    requires out[i].Lo() <= x <= out[i].Hi() && other[k].Lo() <= x <= other[k].Hi()
    ensures out[i].AS() == other[k].AS()
  {
    hide Key;
    OwnerAt(out, i, x);
    OwnerAt(other, k, x);
  }

  /** A row of the other table that reaches from one row into the next leaves no gap between them. */
  lemma NoGap(out: seq<Row>, other: seq<Row>, i: nat, k: nat)
    requires AllValid(out) && Disjoint(out) && Disjoint(other) && SameOwners(out, other) && i + 1 < |out| && k < |other|
    requires other[k].Lo() <= out[i].Hi() < out[i + 1].Lo() <= other[k].Hi()
    ensures out[i + 1].Lo() == out[i].Hi() + 1
  {
    hide Owner, Key, Irreducible;
    var x := out[i].Hi() + 1;
    OwnerAt(other, k, x);
    assert Owner(out, x) == Owner(other, x);
    var m := OwnerIndex(out, x);
    NextStart(out, i, i + 1);
    assert m > i;
    assert out[i + 1].Lo() <= out[m].Lo() by { if i + 1 < m { NextStart(out, i + 1, m); } }
  }

  lemma SameFamilyInside(o: Row, a: Addr, b: Addr)
    requires o.Valid() && a.IP? && b.IP? && o.Lo() <= Key(a) < Key(b) <= o.Hi()
    ensures a.fam == b.fam && Next(a).IP?
  {
    FamilyKeys(o.first);
    FamilyKeys(o.last);
    FamilyKeys(a);
    FamilyKeys(b);
  }

  /** An irreducible disjoint table is no longer than any disjoint table with the same meaning:
      its rows start in different rows of the other. */
  lemma IrreducibleIsMinimal(out: seq<Row>, other: seq<Row>)
    requires AllValid(out) && Disjoint(out) && Irreducible(out)
    requires AllValid(other) && Disjoint(other) && SameOwners(out, other)
    ensures |out| <= |other|
  {
    hide Disjoint, Irreducible;
    var f: seq<nat> := [];
    for i := 0 to |out|
      invariant |f| == i
      invariant forall a :: 0 <= a < i ==> StartsIn(out[a], other, f[a])
    {
      OwnerAt(out, i, out[i].Lo());
      var k := OwnerIndex(other, out[i].Lo());
      f := f + [k];
    }
    forall a, b | 0 <= a < b < |f|
      ensures f[a] != f[b]
    {
      StartsApart(out, other, a, b, f[a], f[b]);
    }
    Pigeonhole(f, |other|);
  }

  lemma StartsApart(out: seq<Row>, other: seq<Row>, a: nat, b: nat, j: nat, k: nat)
    requires AllValid(out) && Disjoint(out) && Irreducible(out)
    requires AllValid(other) && Disjoint(other) && SameOwners(out, other)
    requires a < b < |out| && StartsIn(out[a], other, j) && StartsIn(out[b], other, k)
    ensures j != k
  {
    hide Owner, SameOwners, AllValid, Disjoint, SameFamily, Adjoins, Key;
    if j == k {
      InOneRowMerges(out, other, a, b, j);
      assert false;
    }
  }

  ghost predicate StartsIn(r: Row, other: seq<Row>, k: nat) {
    k < |other| && other[k].Lo() <= r.Lo() <= other[k].Hi()
  }

  /** No disjoint list of rows with the meaning of the input is shorter than the coalesced list. */
  lemma CoalescedMinimal(rows: seq<Row>, other: seq<Row>)
    requires AllValid(rows) && SortedByFirst(rows)
    requires AllValid(other) && Disjoint(other) && SameOwners(other, rows)
    ensures |Coalesced(rows)| <= |other|
  {
    CoalescedMeaning(rows);
    IrreducibleIsMinimal(Coalesced(rows), other);
  }

  function Image(f: seq<nat>): set<nat> {
    set k | k in f
  }

  function Below(n: nat): set<nat> {
    if n == 0 then {} else Below(n - 1) + {n - 1}
  }

  lemma {:induction false} BelowSize(n: nat)
    ensures |Below(n)| == n && forall k: nat :: k in Below(n) <==> k < n
  {
    if n > 0 { BelowSize(n - 1); }
  }

  lemma Pigeonhole(f: seq<nat>, n: nat)
    requires forall i :: 0 <= i < |f| ==> f[i] < n
    requires forall i, j :: 0 <= i < j < |f| ==> f[i] != f[j]
    ensures |f| <= n
  {
    ImageSize(f);
    BelowSize(n);
    assert Below(n) == Image(f) + (Below(n) - Image(f));
  }

  lemma {:induction false} ImageSize(f: seq<nat>)
    requires forall i, j :: 0 <= i < j < |f| ==> f[i] != f[j]
    ensures |Image(f)| == |f|
  {
    if f == [] {
      assert Image(f) == {};
    } else {
      var n := |f| - 1;
      ImageSize(f[..n]);
      assert Image(f) == Image(f[..n]) + {f[n]};
    }
  }

  // ----- rows the standalone ASN plugin does not filter -----

  /** Rows with First after Last are not harmless: one that starts right after a row of the same AS
      and ends before that row's end cuts the row short, and the addresses cut off lose their owner. */
  lemma InvertedRowShrinksNeighbour(a: Row, end: Addr)
    requires a.Valid() && Next(a.last).IP? && end.IP? && end.fam == a.last.fam && end.n < a.last.n
    ensures var rows := [a, Row(Next(a.last), end, a.asn, a.org)];
            && SortedByFirst(rows) && !rows[1].Valid()
            && Owner(rows, a.Hi()) == Some(a.AS()) && Owner(Coalesced(rows), a.Hi()) == None
  {
    var b := Row(Next(a.last), end, a.asn, a.org);
    NextKey(a.last);
    assert [a, b][..1] == [a];
    assert Coalesced([a]) == [a];
    assert Coalesced([a, b]) == [a.(last := end)];
  }
}
