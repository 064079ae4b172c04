// The standalone ASN database built from the iptoasn table
// (plugins/asn/iptoasn/iptoasn.go), from decoded rows on.
module IpToAsn {
  import opened Net
  import opened Records
  import opened Streams
  import opened AsnRanges
  import opened AsnTables
  import opened Enriching

  /** The first row announced by `asn`: its ext map is shared by all rows of that ASN. */
  function FirstOf(rows: seq<Row>, asn: nat): Option<Row> {
    if rows == [] then None
    else if rows[0].asn == asn then Some(rows[0])
    else FirstOf(rows[1..], asn)
  }

  lemma {:induction false} FirstOfSnoc(rows: seq<Row>, r: Row, asn: nat)
    ensures FirstOf(rows + [r], asn) ==
            if FirstOf(rows, asn).Some? then FirstOf(rows, asn) else if r.asn == asn then Some(r) else None
  {
    if rows == [] {
      assert rows + [r] == [r];
    } else {
      assert (rows + [r])[1..] == rows[1..] + [r];
      FirstOfSnoc(rows[1..], r, asn);
    }
  }

  function AsnRecord(ref: string, ext: map<string, string>): Record {
    Record("iptoasn", "", [], [], false, ref, ZeroTime, ext)
  }

  predicate RangeValid(first: Addr, last: Addr) {
    first.IP? && last.IP? && first.fam == last.fam && first.n <= last.n
  }

  /** What one coalesced row yields. */
  function RowItems(ref: string, row: Row, ext: map<string, string>): seq<Item> {
    var first, last := Unmap(row.first), Unmap(row.last);
    if RangeValid(first, last) then Emit(first.fam, first.n, last.n, AsnRecord(ref, ext))
    else [Err("ip2asn: invalid range")]
  }

  function SharedExt(rows: seq<Row>, asn: nat): map<string, string> {
    var r := FirstOf(rows, asn);
    StampOf(if r.Some? then Some(r.value.AS()) else None)
  }

  /** The stream of the plugin over coalesced rows. */
  function TableItems(ref: string, rows: seq<Row>): seq<Item> {
    if rows == [] then []
    else
      var n := |rows| - 1;
      TableItems(ref, rows[..n]) + RowItems(ref, rows[n], SharedExt(rows, rows[n].asn))
  }

  /** The cache after some rows: one ext map per ASN seen, that of its first row. */
  ghost predicate CacheOf(exts: map<nat, map<string, string>>, rows: seq<Row>) {
    && (forall asn :: asn in exts <==> FirstOf(rows, asn).Some?)
    && forall asn :: asn in exts ==> exts[asn] == SharedExt(rows, asn)
  }

  method CachedExt(exts: map<nat, map<string, string>>, row: Row, ghost seen: seq<Row>)
    returns (exts': map<nat, map<string, string>>, ext: map<string, string>)
    requires CacheOf(exts, seen)
    ensures CacheOf(exts', seen + [row]) && ext == SharedExt(seen + [row], row.asn)
  {
    hide StampOf;
    forall asn ensures FirstOf(seen + [row], asn) ==
        if FirstOf(seen, asn).Some? then FirstOf(seen, asn) else if row.asn == asn then Some(row) else None {
      FirstOfSnoc(seen, row, asn);
    }
    exts' := exts;
    if row.asn !in exts {
      ext := RowExt(row);
      exts' := exts[row.asn := ext];
    }
    ext := exts'[row.asn];
  }

  /** Plugin.Parse after ParseTable: one pass over the coalesced rows with a cache of ext maps. */
  method Parse(ref: string, rows: seq<Row>, c: Consumer<Item>) returns (ghost sorted: seq<Row>)
    requires !c.Done()
    modifies c
    ensures SortedForm(rows, sorted)
    ensures c.got == Deliver(old(c.got), TableItems(ref, Coalesced(sorted)), c.limit)
  {
    hide Deliver, RowItems, SharedExt, TableItems, CacheOf, Coalesced, SortedForm;
    var coalesced := CoalesceSlice(rows);
    sorted :| SortedForm(rows, sorted) && coalesced == Coalesced(sorted);
    var exts: map<nat, map<string, string>> := map[];
    var i := 0;
    NoRowsYet(ref, c.got, c.limit);
    assert coalesced[..0] == [];
    while i < |coalesced|
      invariant i <= |coalesced| && !c.Done()
      invariant c.got == Deliver(old(c.got), TableItems(ref, coalesced[..i]), c.limit)
      invariant CacheOf(exts, coalesced[..i])
    {
      var row := coalesced[i];
      var ext;
      assert coalesced[..i + 1] == coalesced[..i] + [row];
      exts, ext := CachedExt(exts, row, coalesced[..i]);
      TableItemsSnoc(ref, coalesced, i);
      DeliverConcat(old(c.got), TableItems(ref, coalesced[..i]), RowItems(ref, row, ext), c.limit);
      var more := YieldRow(ref, row, ext, c);
      i := i + 1;
      if !more {
        TableItemsStop(ref, coalesced, i, old(c.got), c.limit);
        return;
      }
    }
    assert coalesced[..i] == coalesced;
  }

  lemma NoRowsYet(ref: string, got: seq<Item>, limit: nat)
    ensures Deliver(got, TableItems(ref, []), limit) == got && CacheOf(map[], [])
  {
  }

  method RowExt(row: Row) returns (ext: map<string, string>)
    ensures ext == StampOf(Some(row.AS()))
  {
    ext := map[EXT_ASN := Decimal(row.asn)];
    if row.org != "" {
      ext := ext[EXT_AS_ORG := row.org];
    }
  }

  method YieldRow(ref: string, row: Row, ext: map<string, string>, c: Consumer<Item>) returns (more: bool)
    requires !c.Done()
    modifies c
    ensures c.got == Deliver(old(c.got), RowItems(ref, row, ext), c.limit)
    ensures more == !c.Done()
  {
    hide Emit;
    var first, last := Unmap(row.first), Unmap(row.last);
    if !RangeValid(first, last) {
      more := c.Yield(Err("ip2asn: invalid range"));
      return;
    }
    var e := Entry(Prefix(first, 0), AsnRecord(ref, ext));
    StampNone(e.record);
    more := YieldRange(e, first, last, None, c);
  }

  lemma TableItemsSnoc(ref: string, rows: seq<Row>, i: nat)
    requires i < |rows|
    ensures TableItems(ref, rows[..i + 1])
         == TableItems(ref, rows[..i]) + RowItems(ref, rows[i], SharedExt(rows[..i + 1], rows[i].asn))
  {
    assert rows[..i + 1][..i] == rows[..i];
  }

  lemma {:induction false} TableItemsStop(ref: string, rows: seq<Row>, n: nat, got: seq<Item>, limit: nat)
    requires n <= |rows| && |Deliver(got, TableItems(ref, rows[..n]), limit)| >= limit
    ensures Deliver(got, TableItems(ref, rows), limit) == Deliver(got, TableItems(ref, rows[..n]), limit)
    decreases |rows|
  {
    hide Deliver, RowItems;
    if n < |rows| {
      var m := |rows| - 1;
      assert rows[..m][..n] == rows[..n];
      TableItemsStop(ref, rows[..m], n, got, limit);
      var next := RowItems(ref, rows[m], SharedExt(rows, rows[m].asn));
      DeliverConcat(got, TableItems(ref, rows[..m]), next, limit);
      DeliverDone(Deliver(got, TableItems(ref, rows[..m]), limit), next, limit);
    } else {
      assert rows[..n] == rows;
    }
  }
}
