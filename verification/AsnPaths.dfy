// The standalone ASN database against enrichment: what both say of an address.
module AsnPaths {
  import opened Bits
  import opened Net
  import opened Cidr
  import opened Strings
  import opened Records
  import opened MergeLaws
  import opened Streams
  import opened AsnRanges
  import opened Coalescing
  import opened AsnTables
  import opened Enriching
  import opened Tries
  import opened Building
  import opened BuildLaws
  import opened Commuting
  import opened IpToAsn

  /** A valid row with native bounds, of which no end lies in ::fffe:0:0/95 if it reaches around mapped
      space. */
  predicate NativeRow(r: Row) {
    && r.Valid() && !Is4In6(r.first) && !Is4In6(r.last)
    && Whole(r.first.fam, r.first.n, r.last.n)
  }

  ghost predicate NativeRows(rows: seq<Row>) {
    forall i :: 0 <= i < |rows| ==> NativeRow(rows[i])
  }

  /** No key lies in two rows. */
  ghost predicate NonOverlapping(rows: seq<Row>) {
    forall i, j :: 0 <= i < j < |rows| ==> rows[i].Hi() < rows[j].Lo() || rows[j].Hi() < rows[i].Lo()
  }

  /** The tree takes every network inside the rows. */
  ghost predicate AcceptsRows(rows: seq<Row>, reject: Prefix -> bool) {
    forall i :: 0 <= i < |rows| && rows[i].Valid()
      ==> Accepts(rows[i].first.fam, rows[i].first.n, rows[i].last.n, reject)
  }

  // ----- coalescing keeps rows native -----

  lemma OneHolder(rows: seq<Row>, i: nat, j: nat, k: int)
    requires NonOverlapping(rows) && i < |rows| && j < |rows|
    requires rows[i].Lo() <= k <= rows[i].Hi() && rows[j].Lo() <= k <= rows[j].Hi()
    ensures i == j
  {
    hide Key;
    assert !(i < j) && !(j < i);
  }

  lemma HolderOwns(rows: seq<Row>, j: nat, k: int)
    requires NonOverlapping(rows) && j < |rows| && rows[j].Lo() <= k <= rows[j].Hi()
    ensures Owner(rows, k) == Some(rows[j].AS())
  {
    hide Key, NonOverlapping;
    HeldHasOwner(rows, j, k);
    var i := OwnerIndex(rows, k);
    OneHolder(rows, i, j, k);
  }

  /** Rows of an irreducible table start and end where input rows do. */
  lemma NoBoundaryInside(sorted: seq<Row>, out: seq<Row>, i: nat, j: nat, x: int)
    requires NonOverlapping(sorted) && AllValid(sorted) && j < |sorted| && sorted[j].Lo() <= x < sorted[j].Hi()
    requires AllValid(out) && Disjoint(out) && Irreducible(out) && SameOwners(out, sorted)
    requires i < |out|
    ensures out[i].Hi() != x && out[i].Lo() != x + 1
  {
    hide Owner, Key, NonOverlapping, Disjoint, Irreducible, SameOwners, SameFamily, Adjoins;
    HolderOwns(sorted, j, x);
    HolderOwns(sorted, j, x + 1);
    SameOwnersAt(out, sorted, x);
    SameOwnersAt(out, sorted, x + 1);
    if out[i].Hi() == x || out[i].Lo() == x + 1 {
      var a := OwnerIndex(out, x);
      var b := OwnerIndex(out, x + 1);
      Boundary(out, i, a, b, x);
      SameFamilyInside(sorted[j], out[a].last, out[b].first);
      NextAddr(out[a].last, out[b].first);
      Mergeable(out, a);
      assert false;
    }
  }

  lemma Boundary(out: seq<Row>, i: nat, a: nat, b: nat, x: int)
    requires AllValid(out) && Disjoint(out) && i < |out| && a < |out| && b < |out|
    requires out[i].Hi() == x || out[i].Lo() == x + 1
    requires out[a].Lo() <= x <= out[a].Hi() && out[b].Lo() <= x + 1 <= out[b].Hi()
    ensures b == a + 1 && out[a].Hi() == x && out[b].Lo() == x + 1
  {
    ValidKeys(out);
    hide Key, AllValid;
    assert out[i].Hi() == x ==> i == a;
    assert out[i].Lo() == x + 1 ==> i == b;
    if a + 1 < b { RowBetween(out, a, b); }
  }

  lemma RowBetween(out: seq<Row>, a: nat, b: nat)
    requires AllValid(out) && Disjoint(out) && a + 1 < b < |out|
    ensures out[a].Hi() + 1 < out[b].Lo()
  {
    ValidKeys(out);
    hide Key, AllValid;
    assert out[a].Hi() < out[a + 1].Lo() <= out[a + 1].Hi() < out[b].Lo();
  }

  lemma ValidKeys(rows: seq<Row>)
    requires AllValid(rows)
    ensures forall i :: 0 <= i < |rows| ==> rows[i].Lo() <= rows[i].Hi()
  {
  }

  lemma NextAddr(a: Addr, b: Addr)
    requires a.IP? && b.IP? && a.fam == b.fam && Key(b) == Key(a) + 1
    ensures Next(a) == b
  {
  }

  lemma Mergeable(out: seq<Row>, a: nat)
    requires AllValid(out) && a + 1 < |out| && out[a].AS() == out[a + 1].AS() && Next(out[a].last) == out[a + 1].first
    requires out[a].last.fam == out[a + 1].first.fam
    ensures !Irreducible(out)
  {
    assert out[a + 1].Valid() && out[a].Valid();
  }

  /** Coalescing keeps non-overlapping rows native. */
  lemma CoalescedNative(sorted: seq<Row>)
    requires NativeRows(sorted) && SortedByFirst(sorted) && NonOverlapping(sorted)
    ensures NativeRows(Coalesced(sorted))
  {
    assert AllValid(sorted);
    CoalescedMeaning(sorted);
    hide Coalesced, NativeRow, Owner, Disjoint, Irreducible, NonOverlapping, SameOwners, Pow2, MappedBase;
    var out := Coalesced(sorted);
    forall i | 0 <= i < |out| ensures NativeRow(out[i]) {
      RowStaysNative(sorted, out, i);
    }
  }

  /** The input row at which a table row starts, and the one at which it ends. */
  lemma BoundsOf(sorted: seq<Row>, out: seq<Row>, i: nat) returns (j: nat, k: nat)
    requires NonOverlapping(sorted) && AllValid(sorted)
    requires AllValid(out) && Disjoint(out) && Irreducible(out) && SameOwners(out, sorted) && i < |out|
    ensures j < |sorted| && k < |sorted| && sorted[j].first == out[i].first && sorted[k].last == out[i].last
  {
    hide Owner, NonOverlapping, Disjoint, Irreducible, SameOwners;
    var lo, hi := out[i].Lo(), out[i].Hi();
    OwnerAt(out, i, lo);
    OwnerAt(out, i, hi);
    SameOwnersAt(out, sorted, lo);
    SameOwnersAt(out, sorted, hi);
    j := OwnerIndex(sorted, lo);
    k := OwnerIndex(sorted, hi);
    if sorted[j].Lo() < lo { NoBoundaryInside(sorted, out, i, j, lo - 1); }
    if hi < sorted[k].Hi() { NoBoundaryInside(sorted, out, i, k, hi); }
  }

  lemma RowStaysNative(sorted: seq<Row>, out: seq<Row>, i: nat)
    requires NativeRows(sorted) && NonOverlapping(sorted) && AllValid(sorted)
    requires AllValid(out) && Disjoint(out) && Irreducible(out) && SameOwners(out, sorted) && i < |out|
    ensures NativeRow(out[i])
  {
    hide Owner, NonOverlapping, Disjoint, Irreducible, SameOwners, Pow2, MappedBase, AroundFirst, AroundLast;
    var r := out[i];
    var j, k := BoundsOf(sorted, out, i);
    assert NativeRow(sorted[j]) && NativeRow(sorted[k]);
    if !Clear(r.first.fam, r.first.n, r.last.n) {
      AroundAligned();
      var base := IP(V6, MappedBase());
      OwnerAt(out, i, Key(base));
      SameOwnersAt(out, sorted, Key(base));
      var m := OwnerIndex(sorted, Key(base));
      assert NativeRow(sorted[m]);
      if sorted[m].Lo() < r.Lo() { NoBoundaryInside(sorted, out, i, m, r.Lo() - 1); }
      if r.Hi() < sorted[m].Hi() { NoBoundaryInside(sorted, out, i, m, r.Hi()); }
    }
  }

  // ----- the records of the standalone database -----

  lemma NativeUnmap(r: Row)
    requires NativeRow(r)
    ensures Unmap(r.first) == r.first && Unmap(r.last) == r.last && Unmapped(r) == r && RangeValid(r.first, r.last)
  {
  }

  lemma RowItemsReach(ref: string, r: Row, ext: map<string, string>, x: nat, reject: Prefix -> bool)
    requires NativeRow(r) && Accepts(r.first.fam, r.first.n, r.last.n, reject)
    ensures Reaching(RowItems(ref, r, ext), x, reject)
         == if r.first.n <= x <= r.last.n then [ToStored(AsnRecord(ref, ext), r.first.fam == V6)] else []
    ensures Clean(RowItems(ref, r, ext))
  {
    hide Emit, Reach, Reaching, Taken, Clean, Accepts, Whole, ToStored, Pow2, MappedBase;
    NativeUnmap(r);
    var f, lo, hi := r.first.fam, r.first.n, r.last.n;
    EmitTaken(f, lo, hi, AsnRecord(ref, ext), reject);
    EmitReach(f, lo, hi, AsnRecord(ref, ext), x, reject);
  }

  /** The owner of address `x` of family `f`, in rows of both families. */
  function OwnerIn(rows: seq<Row>, f: Family, x: nat): Option<(nat, string)> {
    if x < Pow2(Width(f)) then Owner(rows, KeyOf(f, x)) else None
  }

  /** The ext entries stored for an owner: those of the first row of its ASN. */
  function ExtFor(rows: seq<Row>, owner: Option<(nat, string)>): map<string, string> {
    if owner.Some? then SharedExt(rows, owner.value.0) else map[]
  }

  function RecordFor(ref: string, rows: seq<Row>, f: Family, owner: Option<(nat, string)>): seq<Stored> {
    if owner.Some? then [ToStored(AsnRecord(ref, ExtFor(rows, owner)), f == V6)] else []
  }

  /** Whether a row holds an address of a family. */
  lemma HoldsIn(r: Row, f: Family, x: nat)
    requires r.Valid()
    ensures x < Pow2(Width(f)) ==>
              (r.Lo() <= KeyOf(f, x) <= r.Hi() <==> r.first.fam == f && r.first.n <= x <= r.last.n)
    ensures r.first.fam == f && r.first.n <= x <= r.last.n ==> x < Pow2(Width(f))
  {
    FamilyKeys(r.first);
    FamilyKeys(r.last);
  }

  lemma OwnerInSnoc(rows: seq<Row>, r: Row, f: Family, x: nat)
    requires r.Valid()
    ensures OwnerIn(rows + [r], f, x) ==
            if OwnerIn(rows, f, x).Some? then OwnerIn(rows, f, x)
            else if r.first.fam == f && r.first.n <= x <= r.last.n then Some(r.AS()) else None
  {
    HoldsIn(r, f, x);
    hide Pow2, Width, KeyOf, Key, Owner;
    OwnerSnoc(rows, r, KeyOf(f, x));
  }

  /** Rows in key order have all v4 rows first: no v6 address is owned before the last v4 row. */
  lemma V4First(rows: seq<Row>, r: Row, x: nat)
    requires AllValid(rows) && r.Valid() && r.first.fam == V4 && forall i :: 0 <= i < |rows| ==> rows[i].Hi() < r.Lo()
    ensures OwnerIn(rows, V6, x) == None
  {
    if OwnerIn(rows, V6, x).Some? {
      var i := OwnerIndex(rows, KeyOf(V6, x));
      FamilyKeys(r.first);
      assert false;
    }
  }

  lemma ExtForSnoc(rows: seq<Row>, r: Row, f: Family, x: nat)
    requires OwnerIn(rows, f, x).Some?
    ensures ExtFor(rows + [r], OwnerIn(rows, f, x)) == ExtFor(rows, OwnerIn(rows, f, x))
  {
    hide Key, KeyOf, StampOf, Pow2, Width;
    OwnerAsn(rows, KeyOf(f, x));
    FirstOfSnoc(rows, r, OwnerIn(rows, f, x).value.0);
  }

  lemma OwnerInOneRow(rows: seq<Row>, m: nat, k: int)
    requires m < |rows| && Disjoint(rows) && Owner(rows[..m], k).Some?
    ensures !(rows[m].Lo() <= k <= rows[m].Hi())
  {
    var i := OwnerIndex(rows[..m], k);
    assert rows[i].Hi() < rows[m].Lo();
  }

  lemma OwnerAsn(rows: seq<Row>, k: int)
    requires Owner(rows, k).Some?
    ensures FirstOf(rows, Owner(rows, k).value.0).Some?
  {
    var i := OwnerIndex(rows, k);
  }

  lemma NoTableItems(ref: string)
    ensures TableItems(ref, []) == []
  {
  }

  /** A row that holds an address of its family is its first owner, in a disjoint table. */
  lemma NewOwner(rows: seq<Row>, n: nat, x: nat)
    requires n < |rows| && AllValid(rows) && Disjoint(rows) && rows[n].first.n <= x <= rows[n].last.n
    ensures OwnerIn(rows[..n], rows[n].first.fam, x) == None
  {
    HoldsIn(rows[n], rows[n].first.fam, x);
    hide Pow2, Width, KeyOf, Key, Owner, Disjoint;
    if OwnerIn(rows[..n], rows[n].first.fam, x).Some? {
      OwnerInOneRow(rows, n, KeyOf(rows[n].first.fam, x));
      assert false;
    }
  }

  /** What one more row adds to the records at an address. */
  lemma RecordsSnoc(ref: string, rows: seq<Row>, n: nat, x: nat)
    requires n < |rows| && AllValid(rows) && Disjoint(rows)
    ensures var pre, r, upto := rows[..n], rows[n], rows[..n + 1];
            RecordFor(ref, upto, V4, OwnerIn(upto, V4, x)) + RecordFor(ref, upto, V6, OwnerIn(upto, V6, x))
            == RecordFor(ref, pre, V4, OwnerIn(pre, V4, x)) + RecordFor(ref, pre, V6, OwnerIn(pre, V6, x))
               + if r.first.n <= x <= r.last.n
                 then [ToStored(AsnRecord(ref, SharedExt(upto, r.asn)), r.first.fam == V6)] else []
  {
    hide Owner, Key, KeyOf, Pow2, Width, OwnerIn, Disjoint, SharedExt, ToStored;
    var pre, r := rows[..n], rows[n];
    assert rows[..n + 1] == pre + [r];
    OwnerInSnoc(pre, r, V4, x);
    OwnerInSnoc(pre, r, V6, x);
    if OwnerIn(pre, V4, x).Some? { ExtForSnoc(pre, r, V4, x); }
    if OwnerIn(pre, V6, x).Some? { ExtForSnoc(pre, r, V6, x); }
    if r.first.n <= x <= r.last.n {
      NewOwner(rows, n, x);
      if r.first.fam == V4 {
        BelowRow(rows, n);
        V4First(pre, r, x);
      }
    }
  }

  lemma BelowRow(rows: seq<Row>, n: nat)
    requires n < |rows| && AllValid(rows) && Disjoint(rows)
    ensures AllValid(rows[..n]) && forall i :: 0 <= i < n ==> rows[..n][i].Hi() < rows[n].Lo()
  {
    hide Key;
  }

  /** At most two records reach an address: that of its v4 owner and then that of its v6 owner, each
      with the ext of the first row of its ASN. */
  lemma {:induction false} TableItemsReach(ref: string, rows: seq<Row>, n: nat, x: nat, reject: Prefix -> bool)
    requires n <= |rows| && NativeRows(rows) && AllValid(rows) && Disjoint(rows) && AcceptsRows(rows, reject)
    ensures var pre := rows[..n];
            Reaching(TableItems(ref, pre), x, reject)
            == RecordFor(ref, pre, V4, OwnerIn(pre, V4, x)) + RecordFor(ref, pre, V6, OwnerIn(pre, V6, x))
    ensures Clean(TableItems(ref, rows[..n]))
    decreases n
  {
    hide Reach, Reaching, RowItems, ToStored, StampOf, Pow2, Width, MappedBase, KeyOf, Accepts, Aborts, Disjoint, Key,
      TableItems, RecordFor, OwnerIn, SharedExt, NativeRow;
    NoTableItems(ref);
    if n == 0 {
      NoneReach(x, reject);
      NoRecords(ref, x);
    } else {
      var r := rows[n - 1];
      var pre, ext := rows[..n - 1], SharedExt(rows[..n], r.asn);
      TableItemsReach(ref, rows, n - 1, x, reject);
      TableItemsSnoc(ref, rows, n - 1);
      assert NativeRow(r) && r.Valid();
      RowItemsReach(ref, r, ext, x, reject);
      ReachingConcat(TableItems(ref, pre), RowItems(ref, r, ext), x, reject);
      ConcatOutcome(TableItems(ref, pre), RowItems(ref, r, ext), reject);
      RecordsSnoc(ref, rows, n - 1, x);
    }
  }

  lemma NoRecords(ref: string, x: nat)
    ensures RecordFor(ref, [], V4, OwnerIn([], V4, x)) == [] && RecordFor(ref, [], V6, OwnerIn([], V6, x)) == []
  {
  }

  /** The ext of the record held, if any. */
  function ExtOf(m: Option<Stored>): map<string, string> {
    if m.Some? then m.value.ext else map[]
  }

  lemma ExtForHasAsn(rows: seq<Row>, f: Family, x: nat)
    requires OwnerIn(rows, f, x).Some?
    ensures var owner := OwnerIn(rows, f, x);
            && EXT_ASN in ExtFor(rows, owner) && ExtFor(rows, owner)[EXT_ASN] == Decimal(owner.value.0)
            && forall k :: k in ExtFor(rows, owner) ==> ExtFor(rows, owner)[k] != ""
  {
    hide Key, KeyOf, Pow2, Width, Decimal;
    OwnerAsn(rows, KeyOf(f, x));
    FirstIsMember(rows, OwnerIn(rows, f, x).value.0);
  }

  lemma FoldOne(s: Stored)
    ensures Fold([s]) == Some(s)
  {
    assert [s][..0] == [];
  }

  lemma FoldPair(s: Stored, t: Stored, ref: string)
    requires FromTable(s, ref, s.ipv6) && FromTable(t, ref, t.ipv6)
    ensures Fold([s, t]).Some? && Fold([s, t]).value.ext == s.ext + t.ext
    ensures FromTable(Fold([s, t]).value, ref, s.ipv6)
  {
    assert Canon([]) == [];
    hide Canon;
    assert [s, t][..1] == [s];
    FoldOne(s);
    assert s.Cats() + t.Cats() == [] && s.services + t.services == [];
  }

  /** A record of the standalone database: the plugin's, from feed `ref`, with nothing but ext entries. */
  predicate FromTable(s: Stored, ref: string, ipv6: bool) {
    && s.provider == "iptoasn" && s.source == ref && s.ipv6 == ipv6
    && s.region == "" && s.services == [] && s.categories.None? && s.syncedAt == 0
  }

  lemma StoredExt(ref: string, rows: seq<Row>, f: Family, x: nat)
    requires OwnerIn(rows, f, x).Some?
    ensures var s := ToStored(AsnRecord(ref, ExtFor(rows, OwnerIn(rows, f, x))), f == V6);
            s.ext == ExtFor(rows, OwnerIn(rows, f, x)) && FromTable(s, ref, f == V6)
  {
    ExtForHasAsn(rows, f, x);
    assert Canon([]) == [];
    hide OwnerIn, ExtFor, Canon, Decimal;
    var ext := ExtFor(rows, OwnerIn(rows, f, x));
    assert NonEmpty(ext) == ext;
  }

  lemma FlagOf(s: Stored, ref: string, ipv6: bool)
    requires FromTable(s, ref, ipv6)
    ensures s.ipv6 == ipv6
  {
  }

  /** What the records of two owners add up to. */
  lemma RecordsFold(ref: string, rows: seq<Row>, x: nat)
    ensures var o4, o6 := OwnerIn(rows, V4, x), OwnerIn(rows, V6, x);
            var m := Fold(RecordFor(ref, rows, V4, o4) + RecordFor(ref, rows, V6, o6));
            && (m.Some? <==> o4.Some? || o6.Some?)
            && ExtOf(m) == ExtFor(rows, o4) + ExtFor(rows, o6)
            && (m.Some? ==> FromTable(m.value, ref, o4.None?))
  {
    hide OwnerIn, ToStored, Fold, SharedExt, FromTable;
    var o4, o6 := OwnerIn(rows, V4, x), OwnerIn(rows, V6, x);
    var s4, s6 := RecordFor(ref, rows, V4, o4), RecordFor(ref, rows, V6, o6);
    FoldSome(s4 + s6);
    if o4.Some? { StoredExt(ref, rows, V4, x); }
    if o6.Some? { StoredExt(ref, rows, V6, x); }
    if o4.Some? && o6.Some? {
      FlagOf(s4[0], ref, false);
      FlagOf(s6[0], ref, true);
      FoldPair(s4[0], s6[0], ref);
      assert s4 + s6 == [s4[0], s6[0]];
    } else if o4.Some? {
      FoldOne(s4[0]);
      assert s4 + s6 == s4 == [s4[0]];
    } else if o6.Some? {
      FoldOne(s6[0]);
      assert s4 + s6 == s6 == [s6[0]];
    } else {
      assert s4 + s6 == [];
    }
  }

  lemma StoredAsn(ref: string, out: seq<Row>, reject: Prefix -> bool, x: nat)
    requires NativeRows(out) && AllValid(out) && Disjoint(out) && x < Pow2(V6_BITS) && AcceptsRows(out, reject)
    ensures BuildFold(TableItems(ref, out), reject).Built?
    ensures var m, o4, o6 := Held(TableItems(ref, out), reject, x), OwnerIn(out, V4, x), OwnerIn(out, V6, x);
            && (m.Some? <==> o4.Some? || o6.Some?)
            && ExtOf(m) == ExtFor(out, o4) + ExtFor(out, o6)
            && (m.Some? ==> FromTable(m.value, ref, o4.None?))
  {
    hide Reaching, TableItems, BuildFold, KeyOf, Find, Fold, OwnerIn, RecordFor, ExtFor, ExtOf, FromTable, Disjoint,
      NativeRows, AcceptsRows, AllValid, Pow2, Clean, SomeInserted, InsertedAt;
    var items := TableItems(ref, out);
    assert out[..|out|] == out;
    TableItemsReach(ref, out, |out|, x, reject);
    BuildOutcome(items, reject);
    BuildRefines(items, reject, x);
    RecordsFold(ref, out, x);
  }

  /** Usable rows of a native table are its rows of that family. */
  lemma {:induction false} UsableNative(rows: seq<Row>, f: Family)
    requires NativeRows(rows)
    ensures forall r :: r in Usable(rows, f) <==> r in rows && r.first.fam == f
  {
    hide NativeRow, Pow2, MappedBase, Unmapped, Is4In6;
    if rows != [] {
      var n := |rows| - 1;
      NativeUnmap(rows[n]);
      UsableNative(rows[..n], f);
      assert rows == rows[..n] + [rows[n]];
    }
  }

  // ----- agreement -----

  /** With non-overlapping rows the owner of a key does not depend on how rows were sorted. */
  lemma SameOwner(rows: seq<Row>, sorted: seq<Row>, f: Family, table: seq<Row>, x: nat)
    requires NativeRows(rows) && NonOverlapping(sorted) && SortedForm(rows, sorted) && TableOf(rows, f, table)
    ensures OwnerIn(sorted, f, x) == OwnerIn(table, f, x)
  {
    if x < Pow2(Width(f)) {
      var k := KeyOf(f, x);
      TableMeaning(rows, f, table);
      UsableNative(rows, f);
      SortedNative(rows, sorted);
      OwnerIsHolder(sorted, f, table, x, Usable(rows, f));
    }
  }

  lemma OwnerIsHolder(sorted: seq<Row>, f: Family, table: seq<Row>, x: nat, usable: seq<Row>)
    requires AllValid(sorted) && NonOverlapping(sorted) && x < Pow2(Width(f))
    requires forall r :: r in usable <==> r in sorted && r.first.fam == f
    requires var o := Owner(table, KeyOf(f, x));
             && (o.Some? <==> exists r :: r in usable && r.Lo() <= KeyOf(f, x) <= r.Hi())
             && (o.Some? ==> Wins(usable, KeyOf(f, x), o.value))
    ensures Owner(sorted, KeyOf(f, x)) == Owner(table, KeyOf(f, x))
  {
    hide Owner, NonOverlapping, Key, KeyOf, Pow2, Width;
    var k := KeyOf(f, x);
    if Owner(table, k).Some? {
      var q :| q in usable && q.Lo() <= k <= q.Hi() && q.AS() == Owner(table, k).value;
      var j :| 0 <= j < |sorted| && sorted[j] == q;
      HolderOwns(sorted, j, k);
    } else if Owner(sorted, k).Some? {
      var j := OwnerIndex(sorted, k);
      HoldsIn(sorted[j], f, x);
    }
  }

  lemma SortedApart(rows: seq<Row>, sorted: seq<Row>)
    requires NonOverlapping(rows) && AllValid(rows) && SortedForm(rows, sorted)
    ensures NonOverlapping(sorted)
  {
    ValidKeys(rows);
    hide Key;
    forall i, j | 0 <= i < j < |sorted|
      ensures sorted[i].Hi() < sorted[j].Lo() || sorted[j].Hi() < sorted[i].Lo()
    {
      TwoPlaces(rows, sorted, i, j);
    }
  }

  /** Two positions of a sorted form are two positions of the rows. */
  lemma TwoPlaces(rows: seq<Row>, sorted: seq<Row>, i: nat, j: nat)
    requires NonOverlapping(rows) && multiset(rows) == multiset(sorted) && i < j < |sorted|
    requires forall k :: 0 <= k < |rows| ==> rows[k].Lo() <= rows[k].Hi()
    ensures sorted[i].Hi() < sorted[j].Lo() || sorted[j].Hi() < sorted[i].Lo()
  {
    hide Key;
    var q, r := sorted[i], sorted[j];
    assert q in multiset(rows) && r in multiset(rows);
    var a :| 0 <= a < |rows| && rows[a] == q;
    if q == r {
      CountTwo(sorted, i, j);
      NotTwice(rows, a);
      assert false;
    }
    var b :| 0 <= b < |rows| && rows[b] == r;
    assert a < b || b < a;
  }

  lemma CountTwo(s: seq<Row>, i: nat, j: nat)
    requires i < j < |s| && s[i] == s[j]
    ensures multiset(s)[s[i]] >= 2
  {
    hide Key;
    assert s == s[..i] + [s[i]] + s[i + 1..j] + [s[j]] + s[j + 1..];
  }

  lemma NotTwice(rows: seq<Row>, a: nat)
    requires NonOverlapping(rows) && a < |rows| && rows[a].Lo() <= rows[a].Hi()
    ensures multiset(rows)[rows[a]] == 1
  {
    hide Key;
    forall b | 0 <= b < |rows| && b != a ensures rows[b] != rows[a] {
      assert b < a || a < b;
    }
    var before, after := rows[..a], rows[a + 1..];
    assert rows == before + [rows[a]] + after;
    assert rows[a] !in before && rows[a] !in after;
  }

  lemma StampAsn(owner: Option<(nat, string)>)
    ensures EXT_ASN in StampOf(owner) <==> owner.Some?
    ensures owner.Some? ==> StampOf(owner)[EXT_ASN] == Decimal(owner.value.0)
  {
  }

  lemma SortedNative(rows: seq<Row>, sorted: seq<Row>)
    requires NativeRows(rows) && SortedForm(rows, sorted)
    ensures NativeRows(sorted) && SortedByFirst(sorted) && AllValid(sorted) && forall r :: r in sorted <==> r in rows
  {
    SameMembers(sorted, rows);
    forall i | 0 <= i < |sorted| ensures NativeRow(sorted[i]) && sorted[i].Valid() { assert sorted[i] in rows; }
  }

  lemma {:induction false} FirstIsMember(rows: seq<Row>, asn: nat)
    requires FirstOf(rows, asn).Some?
    ensures FirstOf(rows, asn).value in rows && FirstOf(rows, asn).value.asn == asn
  {
    if rows[0].asn != asn { FirstIsMember(rows[1..], asn); }
  }

  /** What enrichment stamps on an entry of family `f` at `x`. */
  function StampAt(v4: seq<Row>, v6: seq<Row>, f: Family, x: nat): map<string, string> {
    StampOf(OwnerIn(RowsFor(f, v4, v6), f, x))
  }

  function AsnIn(ext: map<string, string>): Option<string> {
    if EXT_ASN in ext then Some(ext[EXT_ASN]) else None
  }

  function AsnOf(owner: Option<(nat, string)>): Option<nat> {
    if owner.Some? then Some(owner.value.0) else None
  }

  lemma AsnInStamp(a: Option<(nat, string)>, b: Option<(nat, string)>)
    ensures AsnIn(StampOf(a)) == AsnIn(StampOf(b)) <==> AsnOf(a) == AsnOf(b)
  {
    hide Decimal;
    StampAsn(a);
    StampAsn(b);
    if a.Some? && b.Some? { DecimalApart(a.value.0, b.value.0); }
  }

  lemma SameOwnersIn(out: seq<Row>, sorted: seq<Row>, f: Family, x: nat)
    requires SameOwners(out, sorted)
    ensures OwnerIn(out, f, x) == OwnerIn(sorted, f, x)
  {
    hide Owner, Pow2, KeyOf, Width;
    SameOwnersAt(out, sorted, KeyOf(f, x));
  }

  /** The ASN among the stored entries is that of the v6 owner if there is one, else of the v4 owner. */
  lemma AsnInExts(rows: seq<Row>, x: nat)
    ensures var o4, o6 := OwnerIn(rows, V4, x), OwnerIn(rows, V6, x);
            AsnIn(ExtFor(rows, o4) + ExtFor(rows, o6)) == AsnIn(StampOf(if o6.Some? then o6 else o4))
  {
    hide OwnerIn, SharedExt, Decimal, StampOf;
    var o4, o6 := OwnerIn(rows, V4, x), OwnerIn(rows, V6, x);
    StampAsn(if o6.Some? then o6 else o4);
    if o4.Some? { ExtForHasAsn(rows, V4, x); }
    if o6.Some? { ExtForHasAsn(rows, V6, x); }
  }

  /** The two ASN paths, for valid, native, non-overlapping rows. The standalone database attributes
      an address if a row of some family owns it, to the ASN of its v6 owner if there is one and of
      its v4 owner otherwise, with the ext entries of the first rows of those ASNs; enrichment stamps
      entries of each family with the owner of that family. So both name the same ASN for v6 unless
      only a v4 row owns the address, and for v4 unless a v6 row of another ASN owns it as well. */
  lemma AsnPathsAgree(ref: string, rows: seq<Row>, sorted: seq<Row>, v4: seq<Row>, v6: seq<Row>, reject: Prefix -> bool,
                      x: nat)
    requires NativeRows(rows) && NonOverlapping(rows) && SortedForm(rows, sorted)
    requires TableOf(rows, V4, v4) && TableOf(rows, V6, v6) && x < Pow2(V6_BITS)
    requires AcceptsRows(Coalesced(sorted), reject)
    ensures BuildFold(TableItems(ref, Coalesced(sorted)), reject).Built?
    ensures var m := Held(TableItems(ref, Coalesced(sorted)), reject, x);
            var o4, o6 := OwnerIn(sorted, V4, x), OwnerIn(sorted, V6, x);
            && (m.Some? <==> o4.Some? || o6.Some?)
            && (m.Some? ==> FromTable(m.value, ref, o4.None?))
            && ExtOf(m) == ExtFor(Coalesced(sorted), o4) + ExtFor(Coalesced(sorted), o6)
            && StampAt(v4, v6, V4, x) == StampOf(o4) && StampAt(v4, v6, V6, x) == StampOf(o6)
            && (AsnIn(ExtOf(m)) == AsnIn(StampAt(v4, v6, V6, x)) <==> (o6.None? ==> o4.None?))
            && (AsnIn(ExtOf(m)) == AsnIn(StampAt(v4, v6, V4, x)) <==> (o6.Some? ==> AsnOf(o4) == AsnOf(o6)))
  {
    hide Owner, Coalesced, BuildFold, TableItems, NonOverlapping, Find, TableOf, KeyOf, SortedForm, NativeRows, ExtFor,
      ExtOf, FromTable, AsnIn, Disjoint, AllValid, Irreducible, SameOwners, Pow2, StampOf, OwnerIn, AcceptsRows;
    var out := Coalesced(sorted);
    SortedNative(rows, sorted);
    NativeAreValid(rows);
    SortedApart(rows, sorted);
    CoalescedNative(sorted);
    CoalescedMeaning(sorted);
    SameOwner(rows, sorted, V4, v4, x);
    SameOwner(rows, sorted, V6, v6, x);
    SameOwnersIn(out, sorted, V4, x);
    SameOwnersIn(out, sorted, V6, x);
    StoredAsn(ref, out, reject, x);
    AsnInExts(out, x);
    var o4, o6 := OwnerIn(sorted, V4, x), OwnerIn(sorted, V6, x);
    AsnInStamp(if o6.Some? then o6 else o4, o4);
    AsnInStamp(if o6.Some? then o6 else o4, o6);
  }

  lemma NativeAreValid(rows: seq<Row>)
    requires NativeRows(rows)
    ensures AllValid(rows)
  {
    assert forall i :: 0 <= i < |rows| ==> NativeRow(rows[i]);
  }

  // ----- when both paths store the same ext -----

  /** Rows of one ASN have one org. */
  ghost predicate OneOrg(rows: seq<Row>) {
    forall q, r :: q in rows && r in rows && q.asn == r.asn ==> q.org == r.org
  }

  /** No v4 row and v6 row have a tree slot in common. */
  ghost predicate SlotsApart(rows: seq<Row>) {
    forall q, r :: q in rows && r in rows && q.Valid() && r.Valid() && q.first.fam == V4 && r.first.fam == V6
      ==> q.last.n < r.first.n || r.last.n < q.first.n
  }

  /** The standalone database stores at `x` exactly the ext entries that enrichment stamps there, on a
      v4 entry and then on a v6 entry. */
  ghost predicate SameExt(items: seq<Item>, v4: seq<Row>, v6: seq<Row>, x: nat, reject: Prefix -> bool)
    requires BuildFold(items, reject).Built?
  {
    StampAt(v4, v6, V4, x) + StampAt(v4, v6, V6, x) == ExtOf(Held(items, reject, x))
  }

  /** Every AS of the coalesced table is that of an input row. */
  lemma CoalescedOneOrg(sorted: seq<Row>, out: seq<Row>)
    requires OneOrg(sorted) && AllValid(out) && Disjoint(out) && SameOwners(out, sorted)
    ensures OneOrg(out)
  {
    hide Owner, Disjoint;
    forall r | r in out ensures exists s :: s in sorted && s.AS() == r.AS() {
      var i :| 0 <= i < |out| && out[i] == r;
      OwnerAt(out, i, r.Lo());
      var j := OwnerIndex(sorted, r.Lo());
      assert sorted[j] in sorted;
    }
  }

  lemma SharedIsOwn(out: seq<Row>, f: Family, x: nat)
    requires OneOrg(out)
    ensures ExtFor(out, OwnerIn(out, f, x)) == StampOf(OwnerIn(out, f, x))
  {
    hide Decimal, Key, KeyOf, Pow2, Width;
    if OwnerIn(out, f, x).Some? {
      OwnerAsn(out, KeyOf(f, x));
      var i := OwnerIndex(out, KeyOf(f, x));
      FirstIsMember(out, out[i].asn);
      assert out[i] in out;
    }
  }

  lemma StampOrg(asn: nat, org: string, other: string)
    ensures StampOf(Some((asn, org))) == StampOf(Some((asn, other))) <==> org == other
  {
    hide Decimal;
    var s, t := StampOf(Some((asn, org))), StampOf(Some((asn, other)));
    assert org != "" ==> s[EXT_AS_ORG] == org;
    assert other != "" ==> t[EXT_AS_ORG] == other;
  }

  /** Both ASN paths store the same ext at every address if rows of one ASN all have the same org, and
      only then if the families share no slot. */
  lemma SameExtExactlyWhen(ref: string, rows: seq<Row>, sorted: seq<Row>, v4: seq<Row>, v6: seq<Row>,
                           reject: Prefix -> bool)
    requires NativeRows(rows) && NonOverlapping(rows) && SortedForm(rows, sorted)
    requires TableOf(rows, V4, v4) && TableOf(rows, V6, v6) && AcceptsRows(Coalesced(sorted), reject)
    ensures BuildFold(TableItems(ref, Coalesced(sorted)), reject).Built?
    ensures var same := forall x: nat :: x < Pow2(V6_BITS)
                                ==> SameExt(TableItems(ref, Coalesced(sorted)), v4, v6, x, reject);
            && (OneOrg(rows) ==> same)
            && (SlotsApart(rows) && same ==> OneOrg(rows))
  {
    hide Coalesced, BuildFold, TableItems, NonOverlapping, NativeRows, SortedForm, TableOf, OneOrg, Find, Pow2,
      SameExt, AcceptsRows, SlotsApart;
    var items := TableItems(ref, Coalesced(sorted));
    MappedSizes();
    AsnPathsAgree(ref, rows, sorted, v4, v6, reject, 0);
    if OneOrg(rows) {
      forall x: nat | x < Pow2(V6_BITS) ensures SameExt(items, v4, v6, x, reject) {
        OneOrgSameExt(ref, rows, sorted, v4, v6, reject, x);
      }
    } else if SlotsApart(rows) && forall x: nat :: x < Pow2(V6_BITS) ==> SameExt(items, v4, v6, x, reject) {
      SameExtOneOrg(ref, rows, sorted, v4, v6, reject);
    }
  }

  lemma OneOrgSameExt(ref: string, rows: seq<Row>, sorted: seq<Row>, v4: seq<Row>, v6: seq<Row>, reject: Prefix -> bool,
                      x: nat)
    requires NativeRows(rows) && NonOverlapping(rows) && SortedForm(rows, sorted) && OneOrg(rows)
    requires TableOf(rows, V4, v4) && TableOf(rows, V6, v6) && x < Pow2(V6_BITS)
             && AcceptsRows(Coalesced(sorted), reject)
    ensures BuildFold(TableItems(ref, Coalesced(sorted)), reject).Built?
    ensures SameExt(TableItems(ref, Coalesced(sorted)), v4, v6, x, reject)
  {
    hide Owner, OwnerIn, Coalesced, BuildFold, TableItems, NonOverlapping, Find, StampOf, ExtFor, KeyOf, TableOf, Pow2,
      NativeRows, SortedForm, AcceptsRows, Disjoint, Irreducible, SameOwners, AllValid, StampAt, AsnIn;
    AsnPathsAgree(ref, rows, sorted, v4, v6, reject, x);
    SortedNative(rows, sorted);
    CoalescedMeaning(sorted);
    var out := Coalesced(sorted);
    SameOwnersIn(out, sorted, V4, x);
    SameOwnersIn(out, sorted, V6, x);
    CoalescedOneOrg(sorted, out);
    SharedIsOwn(out, V4, x);
    SharedIsOwn(out, V6, x);
  }

  lemma SameExtOneOrg(ref: string, rows: seq<Row>, sorted: seq<Row>, v4: seq<Row>, v6: seq<Row>, reject: Prefix -> bool)
    requires NativeRows(rows) && NonOverlapping(rows) && SortedForm(rows, sorted) && SlotsApart(rows)
    requires TableOf(rows, V4, v4) && TableOf(rows, V6, v6) && AcceptsRows(Coalesced(sorted), reject)
    requires BuildFold(TableItems(ref, Coalesced(sorted)), reject).Built?
    requires forall x: nat :: x < Pow2(V6_BITS) ==> SameExt(TableItems(ref, Coalesced(sorted)), v4, v6, x, reject)
    ensures OneOrg(rows)
  {
    hide Coalesced, BuildFold, TableItems, NonOverlapping, NativeRows, SortedForm, Find, StampOf, SharedExt, TableOf,
      SameExt, Pow2, SlotsApart, AcceptsRows;
    forall q, r | q in rows && r in rows && q.asn == r.asn ensures q.org == r.org {
      FirstStored(ref, rows, sorted, v4, v6, reject, q);
      FirstStored(ref, rows, sorted, v4, v6, reject, r);
      StampOrg(q.asn, q.org, r.org);
    }
  }

  /** With non-overlapping rows each row owns its first address. */
  lemma OwnsFirst(rows: seq<Row>, sorted: seq<Row>, r: Row)
    requires NativeRows(rows) && NonOverlapping(rows) && SortedForm(rows, sorted) && r in rows
    ensures r.first.IP? && r.first.n < Pow2(V6_BITS)
    ensures OwnerIn(sorted, r.first.fam, r.first.n) == Some(r.AS())
  {
    hide Owner, NonOverlapping, Pow2, SortedForm, NativeRow, Key, KeyOf, Width;
    SortedNative(rows, sorted);
    NativeAreValid(rows);
    SortedApart(rows, sorted);
    assert r in sorted;
    var j :| 0 <= j < |sorted| && sorted[j] == r;
    FirstKey(r);
    HolderOwns(sorted, j, KeyOf(r.first.fam, r.first.n));
  }

  lemma FirstKey(r: Row)
    requires r.Valid()
    ensures KeyOf(r.first.fam, r.first.n) == r.Lo() <= r.Hi()
    ensures r.first.n < Pow2(Width(r.first.fam)) && r.first.n < Pow2(V6_BITS)
  {
    MappedSizes();
    hide Pow2, MappedBase;
  }

  /** The row that owns an address. */
  lemma OwnerRow(rows: seq<Row>, sorted: seq<Row>, f: Family, x: nat) returns (q: Row)
    requires NativeRows(rows) && SortedForm(rows, sorted) && OwnerIn(sorted, f, x).Some?
    ensures q in rows && q.first.fam == f && q.first.n <= x <= q.last.n && OwnerIn(sorted, f, x) == Some(q.AS())
  {
    hide Owner, Pow2, SortedForm, NativeRow, KeyOf, Key, Width;
    SortedNative(rows, sorted);
    var j := OwnerIndex(sorted, KeyOf(f, x));
    q := sorted[j];
    HoldsIn(q, f, x);
  }

  /** At the first address of a row, the stamp is the row's own and the stored ext is shared by its ASN. */
  lemma FirstStored(ref: string, rows: seq<Row>, sorted: seq<Row>, v4: seq<Row>, v6: seq<Row>, reject: Prefix -> bool,
                    r: Row)
    requires NativeRows(rows) && NonOverlapping(rows) && SortedForm(rows, sorted) && r in rows && SlotsApart(rows)
    requires TableOf(rows, V4, v4) && TableOf(rows, V6, v6) && AcceptsRows(Coalesced(sorted), reject)
    ensures BuildFold(TableItems(ref, Coalesced(sorted)), reject).Built?
    ensures r.first.IP? && r.first.n < Pow2(V6_BITS)
    ensures SameExt(TableItems(ref, Coalesced(sorted)), v4, v6, r.first.n, reject)
            ==> StampOf(Some(r.AS())) == SharedExt(Coalesced(sorted), r.asn)
  {
    hide Owner, OwnerIn, Coalesced, BuildFold, TableItems, NonOverlapping, NativeRows, SortedForm, Find, StampOf,
      SharedExt, KeyOf, TableOf, Pow2, AcceptsRows, StampAt, AsnIn;
    OwnsFirst(rows, sorted, r);
    AsnPathsAgree(ref, rows, sorted, v4, v6, reject, r.first.n);
    ValidIn(rows, r);
    var g := if r.first.fam == V4 then V6 else V4;
    if OwnerIn(sorted, g, r.first.n).Some? {
      var q := OwnerRow(rows, sorted, g, r.first.n);
      ValidIn(rows, q);
      assert false;
    }
    NoStamp();
  }

  lemma ValidIn(rows: seq<Row>, r: Row)
    requires NativeRows(rows) && r in rows
    ensures r.Valid() && r.first.n <= r.last.n
  {
    var i :| 0 <= i < |rows| && rows[i] == r;
    assert NativeRow(rows[i]);
  }

  lemma NoStamp()
    ensures StampOf(None) == map[]
  {
  }

  /** Two rows of one ASN with different orgs: at the second row the standalone database stores the
      first row's org, while enrichment stamps the second row's. */
  lemma SecondOrgIsLost(ref: string, q: Row, r: Row, v4: seq<Row>, v6: seq<Row>, reject: Prefix -> bool)
    requires NativeRow(q) && NativeRow(r) && q.Hi() < r.Lo() && q.asn == r.asn && q.org != r.org
    requires TableOf([q, r], V4, v4) && TableOf([q, r], V6, v6) && AcceptsRows([q, r], reject)
    ensures SortedForm([q, r], [q, r]) && BuildFold(TableItems(ref, Coalesced([q, r])), reject).Built?
    ensures var m := Held(TableItems(ref, Coalesced([q, r])), reject, r.first.n);
            && m.Some? && m.value.ext == StampOf(Some(q.AS()))
            && StampAt(v4, v6, r.first.fam, r.first.n) == StampOf(Some(r.AS())) != m.value.ext
  {
    hide Owner, OwnerIn, Coalesced, BuildFold, TableItems, Find, StampOf, KeyOf, TableOf, NativeRow, Pow2, StampAt,
      AsnIn, Key, NonOverlapping, SortedForm, AcceptsRows, SharedExt;
    var rows := [q, r];
    PairNative(q, r);
    CoalescedPair(q, r);
    OwnsFirst(rows, rows, r);
    AsnPathsAgree(ref, rows, rows, v4, v6, reject, r.first.n);
    StampOrg(q.asn, q.org, r.org);
    PairExt(q, r);
    var g := if r.first.fam == V4 then V6 else V4;
    if OwnerIn(rows, g, r.first.n).Some? { var p := OwnerRow(rows, rows, g, r.first.n); }
  }

  lemma PairNative(q: Row, r: Row)
    requires NativeRow(q) && NativeRow(r)
    ensures NativeRows([q, r]) && r in [q, r] && q.Valid() && r.Valid()
  {
    hide Pow2, MappedBase;
  }

  lemma PairExt(q: Row, r: Row)
    requires q.asn == r.asn
    ensures SharedExt([q, r], q.asn) == StampOf(Some(q.AS()))
  {
    hide StampOf;
  }

  lemma CoalescedPair(q: Row, r: Row)
    requires q.Valid() && r.Valid() && q.Hi() < r.Lo() && q.org != r.org
    ensures SortedForm([q, r], [q, r]) && Coalesced([q, r]) == [q, r] && NonOverlapping([q, r])
  {
    assert [q, r][..1] == [q] && [q][..0] == [];
    assert Coalesced([q]) == [q];
  }

  // ----- bad and mapped ranges -----

  /** A row with v4-mapped bounds yields what the row with the IPv4 bounds does. */
  lemma MappedRowItems(ref: string, r: Row, ext: map<string, string>)
    ensures RowItems(ref, r, ext) == RowItems(ref, Unmapped(r), ext)
  {
    hide Pow2, MappedBase, Emit;
  }

  /** A row is a range if its bounds stand for addresses of one family, in order. */
  ghost predicate IsRange(r: Row) {
    exists f: Family, lo: nat, hi: nat :: Denotes(r.first, f, lo) && Denotes(r.last, f, hi) && lo <= hi
  }

  lemma RangeIsValid(r: Row)
    ensures IsRange(r) <==> RangeValid(Unmap(r.first), Unmap(r.last))
  {
    hide Denotes, Unmap;
    forall f: Family, n: nat
      ensures Denotes(r.first, f, n) <==> Unmap(r.first).IP? && Unmap(r.first).fam == f && Unmap(r.first).n == n
      ensures Denotes(r.last, f, n) <==> Unmap(r.last).IP? && Unmap(r.last).fam == f && Unmap(r.last).n == n
    {
      UnmapDenotes(r.first, f, n);
      UnmapDenotes(r.last, f, n);
    }
    if RangeValid(Unmap(r.first), Unmap(r.last)) {
      assert Denotes(r.first, Unmap(r.first).fam, Unmap(r.first).n)
        && Denotes(r.last, Unmap(r.first).fam, Unmap(r.last).n);
    }
  }

  lemma EmitClean(f: Family, lo: nat, hi: nat, rec: Record)
    requires lo <= hi < Pow2(Width(f))
    ensures Clean(Emit(f, lo, hi, rec))
  {
    hide Decompose, Aligned, Pow2;
    PrefixesCorrect(f, lo, hi);
    var bs, items := Prefixes(f, lo, hi), Emit(f, lo, hi, rec);
    forall i | 0 <= i < |items| ensures !Aborts(items[i]) {
      assert Within(bs[i], lo, hi, Width(f));
    }
  }

  lemma RowItemsClean(ref: string, r: Row, ext: map<string, string>)
    ensures Clean(RowItems(ref, r, ext)) <==> IsRange(r)
  {
    hide Emit, Unmap, IsRange, Pow2, Width;
    RangeIsValid(r);
    var first, last := Unmap(r.first), Unmap(r.last);
    if RangeValid(first, last) {
      EmitClean(first.fam, first.n, last.n, AsnRecord(ref, ext));
    } else {
      assert Aborts(RowItems(ref, r, ext)[0]);
    }
  }

  /** A build of the standalone database aborts exactly when some coalesced row is no range. */
  lemma {:induction false} BadRangeAborts(ref: string, rows: seq<Row>, reject: Prefix -> bool)
    ensures BuildFold(TableItems(ref, rows), reject).Built? <==> forall i :: 0 <= i < |rows| ==> IsRange(rows[i])
  {
    hide RowItems, IsRange, BuildFold, SharedExt, Clean, SomeInserted, InsertedAt, TableItems;
    BuildOutcome(TableItems(ref, rows), reject);
    if rows == [] {
      NoTableItems(ref);
      NothingAborts();
    } else {
      var n := |rows| - 1;
      BadRangeAborts(ref, rows[..n], reject);
      BuildOutcome(TableItems(ref, rows[..n]), reject);
      assert rows[..n + 1] == rows;
      TableItemsSnoc(ref, rows, n);
      RowItemsClean(ref, rows[n], SharedExt(rows, rows[n].asn));
      ConcatOutcome(TableItems(ref, rows[..n]), RowItems(ref, rows[n], SharedExt(rows, rows[n].asn)), reject);
      assert forall i :: 0 <= i < n ==> rows[..n][i] == rows[i];
    }
  }

  lemma NothingAborts()
    ensures Clean([])
  {
  }
}
