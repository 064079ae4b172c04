// NewASNTable: arbitrary rows into one searchable table per family (attribution/asn.go).
module AsnTables {
  import opened Bits
  import opened Net
  import opened AsnRanges
  import opened Coalescing

  function Unmapped(r: Row): Row {
    r.(first := Unmap(r.first), last := Unmap(r.last))
  }

  /** The rows NewASNTable keeps for family `f`, unmapped, in input order. */
  function Usable(rows: seq<Row>, f: Family): seq<Row> {
    if rows == [] then []
    else
      var r := Unmapped(rows[|rows| - 1]);
      Usable(rows[..|rows| - 1], f) + if r.Valid() && r.first.fam == f then [r] else []
  }

  ghost predicate AllOf(rows: seq<Row>, f: Family) {
    forall i :: 0 <= i < |rows| ==> rows[i].Valid() && rows[i].first.fam == f
  }

  /** `out` is the coalesced form of the usable rows of `f`, in some order sorted by First. */
  ghost predicate TableOf(rows: seq<Row>, f: Family, out: seq<Row>) {
    exists sorted :: SortedForm(Usable(rows, f), sorted) && out == Coalesced(sorted)
  }

  /** ASNTable, with the two slices NewASNTable fills. */
  class ASNTable {
    var v4: seq<Row>
    var v6: seq<Row>

    constructor (rows: seq<Row>)
      ensures TableOf(rows, V4, v4) && TableOf(rows, V6, v6)
    {
      v4, v6 := [], [];
      new;
      for i := 0 to |rows|
        invariant v4 == Usable(rows[..i], V4) && v6 == Usable(rows[..i], V6)
      {
        assert rows[..i + 1][..i] == rows[..i];
        var r := rows[i].(first := Unmap(rows[i].first), last := Unmap(rows[i].last));
        if !r.first.IP? || !r.last.IP? || Is4(r.first) != Is4(r.last) || !Le(r.first, r.last) {
          continue;
        }
        if Is4(r.first) {
          v4 := v4 + [r];
        } else {
          v6 := v6 + [r];
        }
      }
      assert rows[..|rows|] == rows;
      v4 := CoalesceSlice(v4);
      v6 := CoalesceSlice(v6);
    }
  }

  method CoalesceSlice(rows: seq<Row>) returns (out: seq<Row>)
    ensures exists sorted :: SortedForm(rows, sorted) && out == Coalesced(sorted)
  {
    var a := new Row[|rows|](i requires 0 <= i < |rows| => rows[i]);
    assert a[..] == rows;
    var n, sorted := CoalesceASNRanges(a);
    out := a[..n];
  }

  lemma {:induction false} UsableValid(rows: seq<Row>, f: Family)
    ensures AllOf(Usable(rows, f), f)
  {
    if rows != [] { UsableValid(rows[..|rows| - 1], f); }
  }

  /** `r` is the unmapped form of an input row. */
  ghost predicate FromInput(rows: seq<Row>, r: Row) {
    exists q :: q in rows && Unmapped(q) == r
  }

  /** A row is usable exactly when it is the unmapped form of an input row, is valid and of the family. */
  lemma {:induction false} UsableMembers(rows: seq<Row>, f: Family)
    ensures forall r: Row :: r in Usable(rows, f) <==> r.Valid() && r.first.fam == f && FromInput(rows, r)
  {
    if rows != [] {
      var pre, last := rows[..|rows| - 1], rows[|rows| - 1];
      UsableMembers(pre, f);
      assert rows == pre + [last];
      forall r: Row ensures FromInput(rows, r) <==> FromInput(pre, r) || Unmapped(last) == r {
      }
    }
  }

  lemma {:induction false} CoalescedFamily(rows: seq<Row>, f: Family)
    requires AllOf(rows, f) && SortedByFirst(rows)
    ensures AllOf(Coalesced(rows), f)
  {
    if |rows| > 0 {
      var n := |rows| - 1;
      CoalescedFamily(rows[..n], f);
      CoalescedInv(rows);
      if n > 0 { CoalescedInv(rows[..n]); }
    }
  }

  /** A table is disjoint, irreducible and of one family; an address has an owner in it exactly when
      some usable input row holds it, and the owner is then such a row with the least First. */
  lemma TableMeaning(rows: seq<Row>, f: Family, out: seq<Row>)
    requires TableOf(rows, f, out)
    ensures AllOf(out, f) && Disjoint(out) && Irreducible(out)
    ensures forall x :: Owner(out, x).Some? <==> exists r :: r in Usable(rows, f) && r.Lo() <= x <= r.Hi()
    ensures forall x :: Owner(out, x).Some? ==> Wins(Usable(rows, f), x, Owner(out, x).value)
  {
    var sorted: seq<Row> :| SortedForm(Usable(rows, f), sorted) && out == Coalesced(sorted);
    UsableValid(rows, f);
    SameMembers(Usable(rows, f), sorted);
    forall i | 0 <= i < |sorted|
      ensures sorted[i].Valid() && sorted[i].first.fam == f
    {
      assert sorted[i] in Usable(rows, f);
    }
    CoalescedMeaning(sorted);
    CoalescedFamily(sorted, f);
    forall x
      ensures Owner(out, x).Some? <==> exists r :: r in Usable(rows, f) && r.Lo() <= x <= r.Hi()
      ensures Owner(out, x).Some? ==> Wins(Usable(rows, f), x, Owner(out, x).value)
    {
      SortedOwner(sorted, x);
    }
  }

  /** Some row with the least First among the rows that hold `x` announces `announced`. */
  ghost predicate Wins(rows: seq<Row>, x: int, announced: (nat, string)) {
    exists r :: r in rows && r.Lo() <= x <= r.Hi() && r.AS() == announced
      && forall q :: q in rows && q.Lo() <= x <= q.Hi() ==> Le(r.first, q.first)
  }

  lemma SameMembers(a: seq<Row>, b: seq<Row>)
    requires multiset(a) == multiset(b)
    ensures forall r :: r in a <==> r in b
  {
    forall r ensures r in a <==> r in b {
      assert r in multiset(a) <==> r in multiset(b);
    }
  }

  lemma {:induction false} SortedOwner(sorted: seq<Row>, x: int)
    requires SortedByFirst(sorted)
    ensures Owner(sorted, x).Some? <==> exists r :: r in sorted && r.Lo() <= x <= r.Hi()
    ensures Owner(sorted, x).Some? ==> Wins(sorted, x, Owner(sorted, x).value)
  {
    if sorted == [] {
    } else if sorted[0].Lo() <= x <= sorted[0].Hi() {
      assert sorted[0] in sorted;
    } else {
      SortedOwner(sorted[1..], x);
      assert forall r :: r in sorted <==> r == sorted[0] || r in sorted[1..];
    }
  }

  // ----- tables, said of the addresses in the input rows -----

  /** `a` stands for address `n` of family `f`: a v4-mapped address stands for the IPv4 one. */
  predicate Denotes(a: Addr, f: Family, n: nat) {
    a.IP? && if Is4In6(a) then f == V4 && a.n == MappedBase() + n else a.fam == f && a.n == n
  }

  /** Both bounds of the row stand for addresses of `f`, and `x` lies between them. */
  ghost predicate HoldsAddress(r: Row, f: Family, x: nat) {
    exists lo: nat, hi: nat :: Denotes(r.first, f, lo) && Denotes(r.last, f, hi) && lo <= x <= hi
  }

  ghost predicate StartsNoLater(r: Row, q: Row, f: Family) {
    forall lo: nat, start: nat :: Denotes(r.first, f, lo) && Denotes(q.first, f, start) ==> lo <= start
  }

  /** Of the rows that hold `x`, one that starts first announces `announced`. */
  ghost predicate Announces(rows: seq<Row>, f: Family, x: nat, announced: (nat, string)) {
    exists r :: r in rows && HoldsAddress(r, f, x) && r.AS() == announced
      && forall q :: q in rows && HoldsAddress(q, f, x) ==> StartsNoLater(r, q, f)
  }

  lemma UnmapDenotes(a: Addr, f: Family, n: nat)
    ensures Denotes(a, f, n) <==> Unmap(a).IP? && Unmap(a).fam == f && Unmap(a).n == n
  {
    hide Pow2, MappedBase;
  }

  lemma UnmappedHolds(r: Row, f: Family, x: nat)
    ensures HoldsAddress(r, f, x) <==>
              var u := Unmapped(r); u.Valid() && u.first.fam == f && u.Lo() <= KeyOf(f, x) <= u.Hi()
    ensures Unmapped(r).AS() == r.AS()
  {
    hide Denotes, Unmap, Pow2, MappedBase;
    var a, b := Unmap(r.first), Unmap(r.last);
    forall n: nat ensures Denotes(r.first, f, n) <==> a.IP? && a.fam == f && a.n == n {
      UnmapDenotes(r.first, f, n);
    }
    forall n: nat ensures Denotes(r.last, f, n) <==> b.IP? && b.fam == f && b.n == n {
      UnmapDenotes(r.last, f, n);
    }
    if a.IP? && b.IP? && a.fam == b.fam == f && a.n <= x <= b.n {
      assert Denotes(r.first, f, a.n) && Denotes(r.last, f, b.n);
    }
  }

  lemma UnmappedStarts(r: Row, q: Row, f: Family)
    requires Unmap(r.first).IP? && Unmap(r.first).fam == f && Unmap(q.first).IP? && Unmap(q.first).fam == f
    ensures StartsNoLater(r, q, f) <==> Le(Unmapped(r).first, Unmapped(q).first)
  {
    hide Denotes, Unmap, Pow2, MappedBase;
    forall n: nat
      ensures Denotes(r.first, f, n) <==> Unmap(r.first).n == n
      ensures Denotes(q.first, f, n) <==> Unmap(q.first).n == n
    {
      UnmapDenotes(r.first, f, n);
      UnmapDenotes(q.first, f, n);
    }
    assert Denotes(r.first, f, Unmap(r.first).n) && Denotes(q.first, f, Unmap(q.first).n);
  }

  /** A table in terms of the rows it was made from, whatever they are: an address is attributed exactly
      when some row holds it, to the AS of one that starts first. */
  lemma TableOwners(rows: seq<Row>, f: Family, out: seq<Row>, x: nat)
    requires TableOf(rows, f, out)
    ensures Owner(out, KeyOf(f, x)).Some? <==> exists r :: r in rows && HoldsAddress(r, f, x)
    ensures Owner(out, KeyOf(f, x)).Some? ==> Announces(rows, f, x, Owner(out, KeyOf(f, x)).value)
  {
    hide Key, KeyOf, Owner, Unmap, HoldsAddress, StartsNoLater, TableOf, Disjoint, Irreducible;
    TableMeaning(rows, f, out);
    UsableMembers(rows, f);
    var k := KeyOf(f, x);
    forall r ensures HoldsAddress(r, f, x) <==>
        Unmapped(r).Valid() && Unmapped(r).first.fam == f && Unmapped(r).Lo() <= k <= Unmapped(r).Hi() {
      UnmappedHolds(r, f, x);
    }
    if Owner(out, k).Some? {
      var u :| u in Usable(rows, f) && u.Lo() <= k <= u.Hi() && u.AS() == Owner(out, k).value
        && forall q :: q in Usable(rows, f) && q.Lo() <= k <= q.Hi() ==> Le(u.first, q.first);
      assert FromInput(rows, u);
      var r :| r in rows && Unmapped(r) == u;
      UnmappedHolds(r, f, x);
      forall q | q in rows && HoldsAddress(q, f, x) ensures StartsNoLater(r, q, f) {
        assert FromInput(rows, Unmapped(q)) && Unmapped(q) in Usable(rows, f);
        UnmappedStarts(r, q, f);
      }
    }
    if r :| r in rows && HoldsAddress(r, f, x) {
      assert FromInput(rows, Unmapped(r)) && Unmapped(r) in Usable(rows, f);
    }
  }
}
