// EnrichASN: entries split at announcement boundaries and stamped with their
// origin AS (attribution/asn.go).
module Enriching {
  import opened Bits
  import opened Net
  import opened Cidr
  import opened Records
  import opened Streams
  import opened AsnRanges
  import opened Coalescing
  import opened AsnTables

  const EXT_ASN := "asn"
  const EXT_AS_ORG := "as_org"

  function Digit(d: nat): char
    requires d < 10
  {
    "0123456789"[d]
  }

  /** strconv.FormatUint in base 10. */
  function Decimal(n: nat): (s: string)
    ensures s != ""
  {
    if n < 10 then [Digit(n)] else Decimal(n / 10) + [Digit(n % 10)]
  }

  /** The number a decimal numeral stands for, most significant digit first. */
  function ValueOf(s: string): int {
    if s == [] then 0 else 10 * ValueOf(s[..|s| - 1]) + (s[|s| - 1] as int - '0' as int)
  }

  /** Decimal writes the numeral of `n`, without leading zeros. */
  lemma {:induction false} DecimalValue(n: nat)
    ensures ValueOf(Decimal(n)) == n
    ensures forall i :: 0 <= i < |Decimal(n)| ==> '0' <= Decimal(n)[i] <= '9'
    ensures n > 0 ==> Decimal(n)[0] != '0'
  {
    var s := Decimal(n);
    DigitValue(n % 10);
    if n >= 10 {
      DecimalValue(n / 10);
      assert s[..|s| - 1] == Decimal(n / 10);
      assert s[0] == Decimal(n / 10)[0];
    } else {
      assert s[..0] == [];
      DigitValue(n);
    }
  }

  lemma DecimalApart(m: nat, n: nat)
    ensures Decimal(m) == Decimal(n) <==> m == n
  {
    hide Decimal, ValueOf;
    DecimalValue(m);
    DecimalValue(n);
  }

  lemma DigitValue(d: nat)
    requires d < 10
    ensures Digit(d) as int - '0' as int == d && '0' <= Digit(d) <= '9'
  {
    assert "0123456789"[d] as int == '0' as int + d;
  }

  /** The ext entries a row contributes. */
  function StampOf(owner: Option<(nat, string)>): map<string, string> {
    match owner
    case None => map[]
    case Some((asn, org)) =>
      if org == "" then map[EXT_ASN := Decimal(asn)] else map[EXT_ASN := Decimal(asn), EXT_AS_ORG := org]
  }

  function Stamped(rec: Record, owner: Option<(nat, string)>): Record {
    rec.(ext := rec.ext + StampOf(owner))
  }

  lemma StampNone(rec: Record)
    ensures Stamped(rec, None) == rec
  {
    assert rec.ext + map[] == rec.ext;
  }

  // ----- the reference: a scan over all rows of the family -----

  function BlockPrefix(f: Family, b: Block): Prefix
    requires b.k <= Width(f) && b.base < Pow2(Width(f))
  {
    Prefix(IP(f, b.base), Width(f) - b.k)
  }

  /** The CIDR pieces of lo..hi, each carrying `rec`. */
  function Emit(f: Family, lo: nat, hi: nat, rec: Record): seq<Item>
    requires lo <= hi < Pow2(Width(f))
  {
    PrefixesCorrect(f, lo, hi);
    var bs := Prefixes(f, lo, hi);
    assert forall i :: 0 <= i < |bs| ==> Within(bs[i], lo, hi, Width(f));
    seq(|bs|, i requires 0 <= i < |bs| => Ok(Entry(BlockPrefix(f, bs[i]), rec)))
  }

  /** The overlap of a row with cur..hi. */
  function OverlapLo(row: Row, cur: nat): nat
    requires row.Valid()
  {
    if row.first.n >= cur then row.first.n else cur
  }

  function OverlapHi(row: Row, hi: nat): nat
    requires row.Valid()
  {
    if row.last.n <= hi then row.last.n else hi
  }

  ghost predicate Touches(f: Family, row: Row, cur: nat, hi: nat) {
    row.Valid() && row.first.fam == f && cur <= row.last.n && row.first.n <= hi && cur <= hi < Pow2(Width(f))
  }

  /** What a row contributes: the unannounced gap before it, then the part it covers, stamped. */
  function RowPieces(f: Family, row: Row, cur: nat, hi: nat, rec: Record): seq<Item>
    requires Touches(f, row, cur, hi)
  {
    var a, b := OverlapLo(row, cur), OverlapHi(row, hi);
    (if cur < a then Emit(f, cur, a - 1, rec) else []) + Emit(f, a, b, Stamped(rec, Some(row.AS())))
  }

  /** Pieces of cur..hi: stamped where a row covers them, unstamped in between. */
  function Scan(f: Family, rows: seq<Row>, cur: nat, hi: nat, rec: Record): seq<Item>
    requires AllOf(rows, f) && cur <= hi < Pow2(Width(f))
  {
    if rows == [] then Emit(f, cur, hi, rec)
    else if rows[0].last.n < cur then Scan(f, rows[1..], cur, hi, rec)
    else if rows[0].first.n > hi then Emit(f, cur, hi, rec)
    else
      var b := OverlapHi(rows[0], hi);
      RowPieces(f, rows[0], cur, hi, rec) + if b == hi then [] else Scan(f, rows[1..], b + 1, hi, rec)
  }

  ghost predicate Untouched(rows: seq<Row>, lo: nat, hi: nat) {
    forall i :: 0 <= i < |rows| && rows[i].Valid() ==> rows[i].last.n < lo || hi < rows[i].first.n
  }

  /** What one entry becomes, by scanning every row of its family. */
  ghost function Pieces(e: Entry, v4: seq<Row>, v6: seq<Row>): seq<Item>
    requires AllOf(v4, V4) && AllOf(v6, V6)
  {
    match NormalizePrefix(e.network)
    case None => [Ok(e)]
    case Some(p) =>
      var rows := if Is4(p.addr) then v4 else v6;
      if !p.IsValid() then [Ok(Entry(p, e.record))]
      else
        PrefixInFamily(p);
        if Untouched(rows, p.First(), p.Last()) then [Ok(Entry(p, e.record))]
        else Scan(p.addr.fam, rows, p.First(), p.Last(), e.record)
  }

  ghost function Enriched(items: seq<Item>, v4: seq<Row>, v6: seq<Row>): seq<Item>
    requires AllOf(v4, V4) && AllOf(v6, V6)
  {
    if items == [] then []
    else
      Enriched(items[..|items| - 1], v4, v6)
      + match items[|items| - 1] { case Err(_) => [items[|items| - 1]] case Ok(e) => Pieces(e, v4, v6) }
  }

  /** Rows that end before `cur` do not matter to the scan. */
  lemma {:induction false} ScanSkips(f: Family, rows: seq<Row>, i: nat, cur: nat, hi: nat, rec: Record)
    requires AllOf(rows, f) && cur <= hi < Pow2(Width(f)) && i <= |rows|
    requires forall j :: 0 <= j < i ==> rows[j].last.n < cur
    ensures Scan(f, rows, cur, hi, rec) == Scan(f, rows[i..], cur, hi, rec)
  {
    if i > 0 {
      assert rows[1..][i - 1..] == rows[i..];
      ScanSkips(f, rows[1..], i - 1, cur, hi, rec);
    } else {
      assert rows[0..] == rows;
    }
  }

  // ----- owners in the table of one family -----

  function RowsFor(f: Family, v4: seq<Row>, v6: seq<Row>): seq<Row> {
    if f == V4 then v4 else v6
  }

  lemma RowKeys(f: Family, row: Row, x: nat)
    requires row.Valid() && row.first.fam == f
    ensures row.Lo() <= KeyOf(f, x) <= row.Hi() <==> row.first.n <= x <= row.last.n
    ensures KeyOf(f, x) < row.Lo() <==> x < row.first.n
  {
  }

  /** A key before the first row of a table has no owner. */
  lemma {:induction false} OwnerBefore(rows: seq<Row>, x: int)
    requires Disjoint(rows) && AllValid(rows) && (rows != [] ==> x < rows[0].Lo())
    ensures Owner(rows, x) == None
  {
    if rows != [] {
      if |rows| > 1 { assert rows[0].Lo() <= rows[0].Hi() < rows[1].Lo(); }
      OwnerBefore(rows[1..], x);
    }
  }

  /** The owner of an address up to the end of the first row. */
  lemma HeadOwner(f: Family, rows: seq<Row>, x: nat)
    requires AllOf(rows, f) && Disjoint(rows) && rows != []
    ensures x < rows[0].first.n ==> Owner(rows, KeyOf(f, x)) == None
    ensures rows[0].first.n <= x <= rows[0].last.n ==> Owner(rows, KeyOf(f, x)) == Some(rows[0].AS())
    ensures rows[0].last.n < x ==> Owner(rows, KeyOf(f, x)) == Owner(rows[1..], KeyOf(f, x))
  {
    RowKeys(f, rows[0], x);
    if x < rows[0].first.n { OwnerBefore(rows, KeyOf(f, x)); }
  }

  lemma TailTable(f: Family, rows: seq<Row>)
    requires AllOf(rows, f) && Disjoint(rows) && rows != []
    ensures AllOf(rows[1..], f) && Disjoint(rows[1..])
  {
  }

  // ----- the code: binary search and sweep -----

  /** sort.Search for the first row that ends at or after `lo`. */
  method SearchLast(rows: seq<Row>, lo: Addr) returns (i: nat)
    requires forall j, k :: 0 <= j < k < |rows| ==> Le(rows[j].last, rows[k].last)
    ensures i <= |rows|
    ensures forall j :: 0 <= j < i ==> !Le(lo, rows[j].last)
    ensures forall j :: i <= j < |rows| ==> Le(lo, rows[j].last)
  {
    hide Key;
    i := 0;
    var j := |rows|;
    while i < j
      invariant i <= j <= |rows|
      invariant forall k :: 0 <= k < i ==> !Le(lo, rows[k].last)
      invariant forall k :: j <= k < |rows| ==> Le(lo, rows[k].last)
    {
      var h := (i + j) / 2;
      if !Le(lo, rows[h].last) {
        i := h + 1;
      } else {
        j := h;
      }
    }
  }

  /** The rows the binary search may be used on: as built by NewASNTable. */
  ghost predicate TableRows(rows: seq<Row>, f: Family) {
    AllOf(rows, f) && Disjoint(rows)
  }

  lemma SortedByLast(rows: seq<Row>, f: Family)
    requires TableRows(rows, f)
    ensures forall j, k :: 0 <= j < k < |rows| ==> Le(rows[j].last, rows[k].last)
  {
    forall j, k | 0 <= j < k < |rows|
      ensures Le(rows[j].last, rows[k].last)
    {
      assert rows[j].Hi() < rows[k].Lo() <= rows[k].Hi();
    }
  }

  /** yieldRange's copied ext map, with the row's ASN on top. */
  method StampRow(rec: Record, row: Row) returns (out: Record)
    ensures out == Stamped(rec, Some(row.AS()))
  {
    var ext := rec.ext;
    ext := ext[EXT_ASN := Decimal(row.asn)];
    if row.org != "" {
      ext := ext[EXT_AS_ORG := row.org];
    }
    out := rec.(ext := ext);
  }

  /** yieldRange. */
  method YieldRange(e: Entry, first: Addr, last: Addr, row: Option<Row>, c: Consumer<Item>) returns (more: bool)
    requires first.IP? && last.IP? && first.fam == last.fam && first.n <= last.n
    requires !c.Done()
    modifies c
    ensures c.got == Deliver(old(c.got), Emit(first.fam, first.n, last.n,
                             Stamped(e.record, if row.Some? then Some(row.value.AS()) else None)), c.limit)
    ensures more == !c.Done()
  {
    hide Deliver, Emit, Stamped, Pow2, Width;
    var rec := e.record;
    StampNone(rec);
    if row.Some? {
      rec := StampRow(rec, row.value);
    }
    var items := Emit(first.fam, first.n, last.n, rec);
    more := true;
    var i := 0;
    while i < |items|
      invariant i <= |items|
      invariant c.got == old(c.got) + items[..i]
      invariant !c.Done()
    {
      more := c.Yield(items[i]);
      assert items[..i + 1] == items[..i] + [items[i]];
      i := i + 1;
      if !more {
        DeliverPart(old(c.got), items, i, c.limit);
        return;
      }
    }
    DeliverPart(old(c.got), items, i, c.limit);
    more := true;
  }

  function RangeFrom(p: Prefix): Addr {
    if p.IsValid() then PrefixInFamily(p); IP(p.addr.fam, p.First()) else ZeroAddr
  }

  function RangeTo(p: Prefix): Addr {
    if p.IsValid() then PrefixInFamily(p); IP(p.addr.fam, p.Last()) else ZeroAddr
  }

  /** enrichEntry: the consumer receives what the scan of the whole table would give it. */
  method EnrichEntry(e: Entry, t: ASNTable, c: Consumer<Item>) returns (more: bool)
    requires TableRows(t.v4, V4) && TableRows(t.v6, V6)
    requires !c.Done()
    modifies c
    ensures c.got == Deliver(old(c.got), Pieces(e, t.v4, t.v6), c.limit)
    ensures more == !c.Done()
  {
    var normalized := NormalizePrefix(e.network);
    if normalized.None? {
      more := c.Yield(Ok(e));
      return;
    }
    var network := normalized.value;
    var rows := if Is4(network.addr) then t.v4 else t.v6;
    ghost var f := if Is4(network.addr) then V4 else V6;
    var lo, hi := RangeFrom(network), RangeTo(network);
    SortedByLast(rows, f);
    var i := SearchLast(rows, lo);
    if i == |rows| || !Le(rows[i].first, hi) {
      if network.IsValid() { NothingAnnounced(rows, f, network, i); }
      more := c.Yield(Ok(e.(network := network)));
      return;
    }
    SomethingAnnounced(rows, f, network, i);
    more := Sweep(e, rows, f, i, lo, hi, c);
  }

  lemma NothingAnnounced(rows: seq<Row>, f: Family, p: Prefix, i: nat)
    requires TableRows(rows, f) && p.IsValid() && p.addr.fam == f && i <= |rows|
    requires forall j :: 0 <= j < i ==> !Le(RangeFrom(p), rows[j].last)
    requires i == |rows| || !Le(rows[i].first, RangeTo(p))
    ensures Untouched(rows, p.First(), p.Last())
  {
    forall j | 0 <= j < |rows|
      ensures rows[j].last.n < p.First() || p.Last() < rows[j].first.n
    {
      if i < j { assert rows[i].Lo() <= rows[i].Hi() < rows[j].Lo(); }
    }
  }

  lemma SomethingAnnounced(rows: seq<Row>, f: Family, p: Prefix, i: nat)
    requires TableRows(rows, f) && (p.IsValid() ==> p.addr.fam == f) && i < |rows|
    requires Le(RangeFrom(p), rows[i].last) && Le(rows[i].first, RangeTo(p))
    ensures p.IsValid() && !Untouched(rows, p.First(), p.Last())
  {
    assert p.IsValid() by { assert Key(rows[i].first) >= 0; }
    assert !(rows[i].last.n < p.First() || p.Last() < rows[i].first.n);
  }

  /** One row of the sweep. Every Prev it takes is in bounds, and the overlap is never empty. */
  method SweepRow(e: Entry, row: Row, cur: Addr, hi: Addr, c: Consumer<Item>) returns (ovHi: Addr, more: bool)
    requires cur.IP? && hi.IP? && cur.fam == hi.fam && Touches(cur.fam, row, cur.n, hi.n)
    requires !c.Done()
    modifies c
    ensures ovHi == IP(cur.fam, OverlapHi(row, hi.n))
    ensures c.got == Deliver(old(c.got), RowPieces(cur.fam, row, cur.n, hi.n, e.record), c.limit)
    ensures more == !c.Done()
  {
    hide Emit, Deliver, Stamped, Pow2, Width;
    var ovLo := if Le(cur, row.first) then row.first else cur;
    ovHi := if Le(row.last, hi) then row.last else hi;
    assert Le(ovLo, ovHi);
    ghost var got, gap := c.got, if cur.n < ovLo.n then Emit(cur.fam, cur.n, ovLo.n - 1, e.record) else [];
    ghost var hit := Emit(cur.fam, ovLo.n, ovHi.n, Stamped(e.record, Some(row.AS())));
    assert RowPieces(cur.fam, row, cur.n, hi.n, e.record) == gap + hit;
    DeliverConcat(got, gap, hit, c.limit);
    DeliverNone(got, c.limit);
    if !Le(ovLo, cur) {
      assert Prev(ovLo).IP?;
      more := YieldRange(e, cur, Prev(ovLo), None, c);
      StampNone(e.record);
      if !more {
        DeliverDone(c.got, hit, c.limit);
        return;
      }
    }
    assert c.got == Deliver(got, gap, c.limit);
    more := YieldRange(e, ovLo, ovHi, Some(row), c);
  }

  /** The sweep over the rows from the first candidate on. Every Next it takes is in bounds, and a
      row it looks at always overlaps what is left of the entry. */
  method Sweep(e: Entry, rows: seq<Row>, ghost f: Family, start: nat, lo: Addr, hi: Addr, c: Consumer<Item>)
    returns (more: bool)
    requires TableRows(rows, f)
    requires lo.IP? && hi.IP? && lo.fam == hi.fam == f && lo.n <= hi.n
    requires start <= |rows| && forall j :: 0 <= j < start ==> !Le(lo, rows[j].last)
    requires start < |rows| ==> Le(lo, rows[start].last)
    requires !c.Done()
    modifies c
    ensures c.got == Deliver(old(c.got), Scan(f, rows, lo.n, hi.n, e.record), c.limit)
    ensures more == !c.Done()
  {
    hide Emit, RowPieces, Stamped, Deliver, Scan, Disjoint, Pow2, Width;
    ghost var all := Deliver(c.got, Scan(f, rows, lo.n, hi.n, e.record), c.limit);
    ScanSkips(f, rows, start, lo.n, hi.n, e.record);
    var cur, i := lo, start;
    while i < |rows| && Le(rows[i].first, hi)
      invariant i <= |rows| && cur.IP? && cur.fam == f && cur.n <= hi.n && !c.Done()
      invariant i < |rows| ==> cur.n <= rows[i].last.n
      invariant all == Deliver(c.got, Scan(f, rows[i..], cur.n, hi.n, e.record), c.limit)
    {
      ghost var b := OverlapHi(rows[i], hi.n);
      ghost var rest := if b == hi.n then [] else Scan(f, rows[i + 1..], b + 1, hi.n, e.record);
      UnfoldScan(f, rows, i, cur.n, hi.n, e.record, c.got, c.limit);
      var ovHi;
      ovHi, more := SweepRow(e, rows[i], cur, hi, c);
      assert all == Deliver(c.got, rest, c.limit);
      if !more {
        DeliverDone(c.got, rest, c.limit);
        return;
      }
      if Le(hi, ovHi) {
        DeliverNone(c.got, c.limit);
        return;
      }
      NextRowLater(rows, f, i, hi);
      cur, i := Next(ovHi), i + 1;
      assert rest == Scan(f, rows[i..], cur.n, hi.n, e.record);
    }
    ScanEnds(f, rows, i, cur.n, hi.n, e.record);
    StampNone(e.record);
    more := YieldRange(e, cur, hi, None, c);
  }

  /** The row ends inside the entry: the next address exists, and the next row does not start before it. */
  lemma NextRowLater(rows: seq<Row>, f: Family, i: nat, hi: Addr)
    requires TableRows(rows, f) && i < |rows| && hi.IP? && hi.fam == f && rows[i].last.n < hi.n
    ensures Next(rows[i].last) == IP(f, rows[i].last.n + 1)
    ensures i + 1 < |rows| ==> rows[i].last.n + 1 <= rows[i + 1].last.n
  {
    assert i + 1 < |rows| ==> rows[i].Hi() < rows[i + 1].Lo();
  }

  lemma ScanEnds(f: Family, rows: seq<Row>, i: nat, cur: nat, hi: nat, rec: Record)
    requires AllOf(rows, f) && i <= |rows| && cur <= hi < Pow2(Width(f))
    requires i < |rows| ==> cur <= rows[i].last.n && hi < rows[i].first.n
    ensures Scan(f, rows[i..], cur, hi, rec) == Emit(f, cur, hi, rec)
  {
    if i < |rows| { assert rows[i..][0] == rows[i]; }
  }

  /** One step of the scan, as a consumer sees it. */
  lemma UnfoldScan(f: Family, rows: seq<Row>, i: nat, cur: nat, hi: nat, rec: Record, got: seq<Item>, limit: nat)
    requires AllOf(rows, f) && i < |rows| && Touches(f, rows[i], cur, hi)
    ensures var b := OverlapHi(rows[i], hi);
            var rest := if b == hi then [] else Scan(f, rows[i + 1..], b + 1, hi, rec);
            Deliver(got, Scan(f, rows[i..], cur, hi, rec), limit)
            == Deliver(Deliver(got, RowPieces(f, rows[i], cur, hi, rec), limit), rest, limit)
  {
    hide Emit, RowPieces, Stamped, Deliver, Pow2, Width;
    var b := OverlapHi(rows[i], hi);
    assert rows[i..][1..] == rows[i + 1..] && rows[i..][0] == rows[i];
    var rest := if b == hi then [] else Scan(f, rows[i + 1..], b + 1, hi, rec);
    assert Scan(f, rows[i..], cur, hi, rec) == RowPieces(f, rows[i], cur, hi, rec) + rest;
    DeliverConcat(got, RowPieces(f, rows[i], cur, hi, rec), rest, limit);
  }

  /** EnrichASN as one pass: stream errors go through, entries become their pieces. */
  method EnrichASN(items: seq<Item>, t: ASNTable, c: Consumer<Item>)
    requires TableRows(t.v4, V4) && TableRows(t.v6, V6)
    requires !c.Done()
    modifies c
    ensures c.got == Deliver(old(c.got), Enriched(items, t.v4, t.v6), c.limit)
  {
    ghost var v4, v6 := t.v4, t.v6;
    DeliverNone(c.got, c.limit);
    for i := 0 to |items|
      invariant !c.Done()
      invariant c.got == Deliver(old(c.got), Enriched(items[..i], v4, v6), c.limit)
    {
      ghost var next := match items[i] { case Err(_) => [items[i]] case Ok(e) => Pieces(e, v4, v6) };
      assert items[..i + 1][..i] == items[..i];
      assert Enriched(items[..i + 1], v4, v6) == Enriched(items[..i], v4, v6) + next;
      DeliverConcat(old(c.got), Enriched(items[..i], v4, v6), next, c.limit);
      var more;
      if items[i].Err? {
        more := c.Yield(items[i]);
      } else {
        more := EnrichEntry(items[i].entry, t, c);
      }
      if !more {
        EnrichedPrefix(items, i + 1, v4, v6, old(c.got), c.limit);
        return;
      }
    }
    assert items[..|items|] == items;
  }

  /** A consumer that stopped has seen all it ever will. */
  lemma {:induction false} EnrichedPrefix(items: seq<Item>, n: nat, v4: seq<Row>, v6: seq<Row>, got: seq<Item>,
                                          limit: nat)
    requires AllOf(v4, V4) && AllOf(v6, V6) && n <= |items|
    requires |Deliver(got, Enriched(items[..n], v4, v6), limit)| >= limit
    ensures Deliver(got, Enriched(items, v4, v6), limit) == Deliver(got, Enriched(items[..n], v4, v6), limit)
    decreases |items|
  {
    hide Pieces, Deliver;
    if n < |items| {
      var m := |items| - 1;
      assert items[..m][..n] == items[..n];
      EnrichedPrefix(items[..m], n, v4, v6, got, limit);
      var last := match items[m] { case Err(_) => [items[m]] case Ok(e) => Pieces(e, v4, v6) };
      DeliverConcat(got, Enriched(items[..m], v4, v6), last, limit);
      DeliverDone(Deliver(got, Enriched(items[..m], v4, v6), limit), last, limit);
    } else {
      assert items[..n] == items;
    }
  }
}
