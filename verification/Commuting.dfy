// ASN enrichment commutes with building the tree.
module Commuting {
  import opened Bits
  import opened Net
  import opened Cidr
  import opened Strings
  import opened Records
  import opened MergeLaws
  import opened Streams
  import opened AsnRanges
  import opened Coalescing
  import opened AsnTables
  import opened Enriching
  import opened Tries
  import opened Partitioning
  import opened Building
  import opened BuildLaws

  /** The tree takes every item. */
  ghost predicate Taken(items: seq<Item>, reject: Prefix -> bool) {
    forall i :: 0 <= i < |items| ==> !Skips(items[i], reject)
  }

  ghost predicate NoneTaken(items: seq<Item>, reject: Prefix -> bool) {
    forall i :: 0 <= i < |items| ==> Skips(items[i], reject)
  }

  lemma TakenConcat(a: seq<Item>, b: seq<Item>, reject: Prefix -> bool)
    ensures Taken(a + b, reject) <==> Taken(a, reject) && Taken(b, reject)
  {
    hide Skips;
    var c := a + b;
    assert forall i :: 0 <= i < |a| ==> c[i] == a[i];
    assert forall i :: 0 <= i < |b| ==> c[|a| + i] == b[i];
  }

  /** No address of lo..hi is a v4-mapped one. */
  predicate Clear(f: Family, lo: nat, hi: nat) {
    f == V6 ==> hi < MappedBase() || MappedBase() + Pow2(V4_BITS) <= lo
  }

  /** Bounds of ::fffe:0:0/95, the smallest network around mapped space that is not part of it. */
  function AroundFirst(): nat {
    MappedSizes();
    MappedBase() - Pow2(V4_BITS)
  }

  function AroundLast(): nat {
    MappedBase() + Pow2(V4_BITS) - 1
  }

  predicate InMapped(f: Family, n: nat) {
    f == V6 && MappedBase() <= n <= AroundLast()
  }

  /** The range is clear of mapped space, or reaches around all of it. */
  predicate Whole(f: Family, lo: nat, hi: nat) {
    Clear(f, lo, hi) || (lo <= AroundFirst() && AroundLast() <= hi)
  }

  /** A boundary of the row splits ::fffe:0:0/95. */
  predicate Cuts(row: Row) {
    row.Valid() && row.first.fam == V6
    && (AroundFirst() < row.first.n <= AroundLast() || AroundFirst() <= row.last.n < AroundLast())
  }

  ghost predicate Uncut(rows: seq<Row>) {
    forall i :: 0 <= i < |rows| ==> !Cuts(rows[i])
  }

  /** No part of lo..hi between row boundaries has an end inside mapped space. */
  ghost predicate Unsplit(f: Family, rows: seq<Row>, lo: nat, hi: nat) {
    Clear(f, lo, hi) || (Whole(f, lo, hi) && Uncut(rows))
  }

  lemma MappedSizes()
    ensures 0 < Pow2(V4_BITS) < MappedBase() && MappedBase() + Pow2(V4_BITS) <= Pow2(V6_BITS)
    ensures Pow2(V4_BITS + 1) == 2 * Pow2(V4_BITS)
    ensures MappedBase() - Pow2(V4_BITS) == Pow2(MAPPED_BITS) - Pow2(V4_BITS + 1)
  {
    Pow2Mono(MAPPED_BITS, V6_BITS);
    Pow2Mono(V4_BITS + 2, MAPPED_BITS);
  }

  lemma AroundAligned()
    ensures Aligned(AroundFirst(), V4_BITS + 1) && AroundFirst() + Pow2(V4_BITS + 1) == AroundLast() + 1
    ensures AroundFirst() < MappedBase() <= AroundLast() < Pow2(V6_BITS)
  {
    MappedSizes();
    LastBlock(MAPPED_BITS, V4_BITS + 1);
  }

  /** An aligned block that starts in mapped space could be doubled without leaving ::fffe:0:0/95. */
  lemma MappedStart(b: Block)
    requires Aligned(b.base, b.k) && MappedBase() <= b.base <= AroundLast()
    ensures b.k <= V4_BITS
    ensures AroundFirst() <= Floor(b.base, b.k + 1) && Floor(b.base, b.k + 1) + Pow2(b.k + 1) <= AroundLast() + 1
  {
    AroundAligned();
    hide Pow2, Aligned, Floor, MappedBase, AroundFirst, AroundLast;
    if b.k > V4_BITS {
      AlignedDown(b.base, b.k, V4_BITS + 1);
      AlignedGap(AroundFirst(), b.base, V4_BITS + 1);
    }
    UpInHalf(b, AroundFirst(), V4_BITS + 1);
  }

  /** Cutting a range into blocks makes none start in mapped space, if the range is whole. */
  lemma WholeBlocks(f: Family, lo: nat, hi: nat)
    requires lo <= hi < Pow2(Width(f)) && Whole(f, lo, hi)
    ensures forall i :: 0 <= i < |Prefixes(f, lo, hi)| ==> !InMapped(f, Prefixes(f, lo, hi)[i].base)
  {
    hide Decompose, Prefixes, Pow2, Aligned, Floor, MappedBase, AroundFirst, AroundLast, InMapped, Inside, Maximal,
      Tiles, Whole, Width;
    PrefixesCorrect(f, lo, hi);
    var bs := Prefixes(f, lo, hi);
    forall i | 0 <= i < |bs| ensures !InMapped(f, bs[i].base) { MaximalNotMapped(f, bs, i, lo, hi); }
  }

  lemma MaximalNotMapped(f: Family, bs: seq<Block>, i: nat, lo: nat, hi: nat)
    requires Inside(bs, lo, hi, Width(f)) && Maximal(bs, lo, hi, Width(f)) && Whole(f, lo, hi) && i < |bs|
    ensures !InMapped(f, bs[i].base)
  {
    hide Pow2, Aligned, Floor, MappedBase, AroundFirst, AroundLast, InMapped, Within, Whole, Width;
    if InMapped(f, bs[i].base) {
      assert Within(bs[i], lo, hi, Width(f));
      MappedIsDoubled(f, bs[i], lo, hi);
    }
  }

  lemma MappedIsDoubled(f: Family, b: Block, lo: nat, hi: nat)
    requires Within(b, lo, hi, Width(f)) && Whole(f, lo, hi) && InMapped(f, b.base)
    ensures var up := Block(Floor(b.base, b.k + 1), b.k + 1); b.k < Width(f) && lo <= up.base && up.Last() <= hi
  {
    MappedStart(b);
    hide Pow2, Aligned, Floor, MappedBase, AroundFirst;
    assert b.base <= b.Last();
  }

  lemma BlockReach(f: Family, b: Block, lo: nat, hi: nat, rec: Record, x: nat, reject: Prefix -> bool)
    requires Within(b, lo, hi, Width(f)) && hi < Pow2(Width(f)) && !InMapped(f, b.base)
    requires !Skips(Ok(Entry(BlockPrefix(f, b), rec)), reject)
    ensures Reach(Ok(Entry(BlockPrefix(f, b), rec)), x, reject)
         == if b.base <= x <= b.Last() then [ToStored(rec, f == V6)] else []
  {
    hide Aligned, Floor, Pow2;
    var p := BlockPrefix(f, b);
    FloorUnique(b.base, b.base, b.k);
    assert p.First() == b.base && p.Last() == b.Last();
    assert NormalizePrefix(p) == Some(p);
  }

  /** The part of a tiling up to block `n` delivers the record once, to the addresses it covers. */
  lemma {:induction false} TilesReach(f: Family, bs: seq<Block>, items: seq<Item>, n: nat, lo: nat, hi: nat,
                                      rec: Record, x: nat, reject: Prefix -> bool)
    requires Inside(bs, lo, hi, Width(f)) && Tiles(bs, lo, hi)
    requires hi < Pow2(Width(f)) && Taken(items, reject)
    requires 0 < n <= |bs| == |items|
    requires forall i :: 0 <= i < |bs| ==> !InMapped(f, bs[i].base)
    requires forall i :: 0 <= i < |bs| ==> items[i] == Ok(Entry(BlockPrefix(f, bs[i]), rec))
    ensures Reaching(items[..n], x, reject) == if lo <= x <= bs[n - 1].Last() then [ToStored(rec, f == V6)] else []
    ensures lo <= bs[n - 1].Last() + 1
    decreases n
  {
    hide Reach, ToStored, InMapped, Pow2, BlockPrefix, Aligned, Skips;
    assert items[..n][..n - 1] == items[..n - 1];
    assert bs[n - 1].base <= bs[n - 1].Last() + 1;
    BlockReach(f, bs[n - 1], lo, hi, rec, x, reject);
    if n > 1 {
      TilesReach(f, bs, items, n - 1, lo, hi, rec, x, reject);
    }
  }

  /** The pieces of a range deliver its record exactly once to each of its addresses. */
  lemma EmitReach(f: Family, lo: nat, hi: nat, rec: Record, x: nat, reject: Prefix -> bool)
    requires lo <= hi < Pow2(Width(f)) && Whole(f, lo, hi) && Taken(Emit(f, lo, hi, rec), reject)
    ensures Reaching(Emit(f, lo, hi, rec), x, reject) == if lo <= x <= hi then [ToStored(rec, f == V6)] else []
  {
    hide Reach, Reaching, Taken, Whole, ToStored, Decompose, InMapped;
    PrefixesCorrect(f, lo, hi);
    WholeBlocks(f, lo, hi);
    var bs, items := Prefixes(f, lo, hi), Emit(f, lo, hi, rec);
    TilesReach(f, bs, items, |bs|, lo, hi, rec, x, reject);
    assert items[..|bs|] == items;
  }

  /** What reaches an address from the scan of cur..hi. */
  function ScanDelivers(f: Family, rows: seq<Row>, cur: nat, hi: nat, rec: Record, x: nat): seq<Stored> {
    if cur <= x <= hi then [ToStored(Stamped(rec, Owner(rows, KeyOf(f, x))), f == V6)] else []
  }

  /** The ranges into which a row divides cur..hi. */
  lemma DivideWhole(f: Family, rows: seq<Row>, cur: nat, hi: nat)
    requires rows != [] && Touches(f, rows[0], cur, hi) && Unsplit(f, rows, cur, hi)
    ensures var a, b := OverlapLo(rows[0], cur), OverlapHi(rows[0], hi);
            && (cur < a ==> Whole(f, cur, a - 1)) && Whole(f, a, b)
            && (b < hi ==> Unsplit(f, rows[1..], b + 1, hi))
  {
    AroundAligned();
    hide Pow2, Aligned, MappedBase, AroundFirst;
    assert !Cuts(rows[0]) || Clear(f, cur, hi);
  }

  lemma UnsplitTail(f: Family, rows: seq<Row>, lo: nat, hi: nat)
    requires Unsplit(f, rows, lo, hi)
    ensures Whole(f, lo, hi) && (rows != [] ==> Unsplit(f, rows[1..], lo, hi))
  {
    hide Cuts, Clear;
  }

  lemma GapReach(f: Family, cur: nat, a: nat, hi: nat, rec: Record, x: nat, reject: Prefix -> bool)
    requires cur <= a <= hi < Pow2(Width(f))
    requires cur < a ==> Whole(f, cur, a - 1) && Taken(Emit(f, cur, a - 1, rec), reject)
    ensures Reaching(if cur < a then Emit(f, cur, a - 1, rec) else [], x, reject)
         == if cur <= x < a then [ToStored(rec, f == V6)] else []
  {
    hide Emit, Reach, Taken, Whole, ToStored, Pow2, Width;
    if cur < a {
      EmitReach(f, cur, a - 1, rec, x, reject);
    }
  }

  lemma RowPiecesReach(f: Family, row: Row, cur: nat, hi: nat, rec: Record, x: nat, owner: Option<(nat, string)>,
                       reject: Prefix -> bool)
    requires Touches(f, row, cur, hi) && Taken(RowPieces(f, row, cur, hi, rec), reject)
    requires var a := OverlapLo(row, cur); (cur < a ==> Whole(f, cur, a - 1)) && Whole(f, a, OverlapHi(row, hi))
    requires x < row.first.n ==> owner == None
    requires row.first.n <= x <= row.last.n ==> owner == Some(row.AS())
    ensures Reaching(RowPieces(f, row, cur, hi, rec), x, reject)
         == if cur <= x <= OverlapHi(row, hi) then [ToStored(Stamped(rec, owner), f == V6)] else []
  {
    hide Emit, Reach, Reaching, Taken, Whole, ToStored, Stamped, Pow2, Width;
    var a, b := OverlapLo(row, cur), OverlapHi(row, hi);
    var hit := Emit(f, a, b, Stamped(rec, Some(row.AS())));
    TakenConcat(if cur < a then Emit(f, cur, a - 1, rec) else [], hit, reject);
    GapReach(f, cur, a, hi, rec, x, reject);
    EmitReach(f, a, b, Stamped(rec, Some(row.AS())), x, reject);
    ReachingConcat(if cur < a then Emit(f, cur, a - 1, rec) else [], hit, x, reject);
    StampNone(rec);
  }

  /** The scan delivers to each address of cur..hi the record once, stamped by the row that owns it. */
  lemma {:induction false} ScanReach(f: Family, rows: seq<Row>, cur: nat, hi: nat, rec: Record, x: nat,
                                     reject: Prefix -> bool)
    requires AllOf(rows, f) && Disjoint(rows) && cur <= hi < Pow2(Width(f))
    requires Unsplit(f, rows, cur, hi) && Taken(Scan(f, rows, cur, hi, rec), reject)
    ensures Reaching(Scan(f, rows, cur, hi, rec), x, reject) == ScanDelivers(f, rows, cur, hi, rec, x)
    decreases |rows|
  {
    hide Emit, Reach, Reaching, Taken, Whole, Clear, Uncut, ToStored, Stamped, RowPieces, KeyOf, Disjoint, Pow2, Width;
    StampNone(rec);
    UnsplitTail(f, rows, cur, hi);
    if rows == [] {
      EmitReach(f, cur, hi, rec, x, reject);
    } else {
      HeadOwner(f, rows, x);
      TailTable(f, rows);
      if rows[0].last.n < cur {
        ScanReach(f, rows[1..], cur, hi, rec, x, reject);
      } else if rows[0].first.n > hi {
        EmitReach(f, cur, hi, rec, x, reject);
      } else {
        var b := OverlapHi(rows[0], hi);
        DivideWhole(f, rows, cur, hi);
        TakenConcat(RowPieces(f, rows[0], cur, hi, rec), if b < hi then Scan(f, rows[1..], b + 1, hi, rec)
          else [], reject);
        RowPiecesReach(f, rows[0], cur, hi, rec, x, Owner(rows, KeyOf(f, x)), reject);
        if b < hi {
          ScanReach(f, rows[1..], b + 1, hi, rec, x, reject);
          ReachingConcat(RowPieces(f, rows[0], cur, hi, rec), Scan(f, rows[1..], b + 1, hi, rec), x, reject);
        } else {
          assert RowPieces(f, rows[0], cur, hi, rec) + [] == RowPieces(f, rows[0], cur, hi, rec);
        }
      }
    }
  }

  /** What enrichment asks of an entry that is valid and not malformed: if the tree refuses its
      network, it refuses every piece; otherwise it takes every piece, and no row of the v6 table
      splits ::fffe:0:0/95 if the network reaches into mapped space. */
  ghost predicate Plain(e: Entry, v4: seq<Row>, v6: seq<Row>, reject: Prefix -> bool) {
    && AllOf(v4, V4) && AllOf(v6, V6)
    && (e.network.IsValid() && NormalizePrefix(e.network).Some? ==>
          var p := NormalizePrefix(e.network).value;
          if reject(p) then NoneTaken(Pieces(e, v4, v6), reject)
          else Taken(Pieces(e, v4, v6), reject) && (Clear(p.addr.fam, p.First(), p.Last()) || Uncut(v6)))
  }

  /** A network that reaches into mapped space and is not rewritten contains ::fffe:0:0/95. */
  lemma AroundMapped(p: Prefix)
    requires p.IsValid() && NormalizePrefix(p) == Some(p) && !Clear(p.addr.fam, p.First(), p.Last())
    ensures p.addr.fam == V6 && p.First() <= AroundFirst() && AroundLast() <= p.Last()
  {
    PrefixInFamily(p);
    if p.Host() <= V4_BITS { InsideMapped(p); }
    hide Pow2, Aligned, Floor, MappedBase, AroundFirst, AroundLast, Is4In6;
    LargeBlock(p.First(), p.Host());
  }

  lemma LargeBlock(b: nat, k: nat)
    requires Aligned(b, k) && k > V4_BITS && b <= AroundLast() && MappedBase() < b + Pow2(k)
    ensures b <= AroundFirst() && AroundLast() < b + Pow2(k)
  {
    AroundAligned();
    hide Pow2, Aligned, MappedBase, AroundFirst, AroundLast;
    AlignedDown(b, k, V4_BITS + 1);
    AlignedPow2(k, V4_BITS + 1);
    AlignedSum(b, Pow2(k), V4_BITS + 1);
    if AroundFirst() < b { AlignedGap(AroundFirst(), b, V4_BITS + 1); }
    AlignedGap(AroundFirst(), b + Pow2(k), V4_BITS + 1);
  }

  /** A block of at most 2^32 addresses that meets mapped space lies inside it. */
  lemma InsideMapped(p: Prefix)
    requires p.IsValid() && p.addr.fam == V6 && p.Host() <= V4_BITS && !Clear(V6, p.First(), p.Last())
    ensures Is4In6(p.addr)
  {
    hide Pow2, Aligned, Floor, MappedBase;
    PrefixInFamily(p);
    BlockInside(p.First(), p.Host());
  }

  lemma BlockInside(b: nat, k: nat)
    requires Aligned(b, k) && k <= V4_BITS && b < MappedBase() + Pow2(V4_BITS) && MappedBase() < b + Pow2(k)
    ensures MappedBase() <= b && b + Pow2(k) <= MappedBase() + Pow2(V4_BITS)
  {
    hide Pow2, Aligned, MappedBase;
    MappedAligned(k);
    AlignedPow2(V4_BITS, k);
    AlignedSum(MappedBase(), Pow2(V4_BITS), k);
    if b < MappedBase() { AlignedGap(b, MappedBase(), k); }
    AlignedGap(b, MappedBase() + Pow2(V4_BITS), k);
  }

  lemma PlainUnsplit(p: Prefix, v4: seq<Row>, v6: seq<Row>)
    requires p.IsValid() && NormalizePrefix(p) == Some(p) && (Clear(p.addr.fam, p.First(), p.Last()) || Uncut(v6))
    ensures Unsplit(p.addr.fam, RowsFor(p.addr.fam, v4, v6), p.First(), p.Last())
  {
    hide Clear, Uncut, AroundFirst, AroundLast;
    if !Clear(p.addr.fam, p.First(), p.Last()) { AroundMapped(p); }
  }

  function ReachStamp(item: Item, v4: seq<Row>, v6: seq<Row>, x: nat): map<string, string> {
    if item.Ok? && NormalizePrefix(item.entry.network).Some? && NormalizePrefix(item.entry.network).value.IsValid() then
      var f := NormalizePrefix(item.entry.network).value.addr.fam;
      StampOf(Owner(RowsFor(f, v4, v6), KeyOf(f, x)))
    else map[]
  }

  lemma {:induction false} UntouchedOwner(f: Family, rows: seq<Row>, lo: nat, hi: nat, x: nat)
    requires AllOf(rows, f) && Untouched(rows, lo, hi) && lo <= x <= hi
    ensures Owner(rows, KeyOf(f, x)) == None
  {
    if rows != [] {
      RowKeys(f, rows[0], x);
      UntouchedOwner(f, rows[1..], lo, hi, x);
    }
  }

  lemma StampedStored(rec: Record, owner: Option<(nat, string)>, ipv6: bool)
    ensures ToStored(Stamped(rec, owner), ipv6) == Stamp(ToStored(rec, ipv6), StampOf(owner))
  {
    hide Canon, PresentOnly, Epoch;
  }

  lemma OneReach(e: Entry, p: Prefix, x: nat, reject: Prefix -> bool)
    ensures Reaching([Ok(e)], x, reject) == Reach(Ok(e), x, reject)
    ensures p.IsValid() && NormalizePrefix(e.network) == Some(p)
            ==> Reach(Ok(e.(network := p)), x, reject) == Reach(Ok(e), x, reject)
  {
    assert [Ok(e)][..0] == [];
  }

  /** The exact partition: the pieces of an entry deliver to each address of its network what the
      entry would, once, stamped by the row that owns the address; and nothing anywhere else. */
  lemma PiecesReach(e: Entry, v4: seq<Row>, v6: seq<Row>, x: nat, reject: Prefix -> bool)
    requires TableRows(v4, V4) && TableRows(v6, V6) && Plain(e, v4, v6, reject)
    ensures Reaching(Pieces(e, v4, v6), x, reject) == StampAll(Reach(Ok(e), x, reject), ReachStamp(Ok(e), v4, v6, x))
  {
    hide Reaching, Taken, NoneTaken, Clear, Uncut, Unsplit, ToStored, Stamped, Scan, Owner, Merge, StampOf, Pow2,
      MappedBase;
    if NormalizePrefix(e.network).None? {
      OneReach(e, e.network, x, reject);
    } else if !e.network.IsValid() {
      OneReach(e.(network := NormalizePrefix(e.network).value), e.network, x, reject);
    } else {
      var p := NormalizePrefix(e.network).value;
      var f := p.addr.fam;
      var rows := RowsFor(f, v4, v6);
      PrefixInFamily(p);
      OwnReach(e, p, x, reject);
      StampedStored(e.record, Owner(rows, KeyOf(f, x)), f == V6);
      if reject(p) {
        NoneTakenReach(Pieces(e, v4, v6), x, reject);
      } else if Untouched(rows, p.First(), p.Last()) {
        OneReach(e, p, x, reject);
        OneReach(e.(network := p), p, x, reject);
        if p.Holds(x) {
          UntouchedOwner(f, rows, p.First(), p.Last(), x);
          StampNone(e.record);
        }
      } else {
        PlainUnsplit(p, v4, v6);
        ScanReach(f, rows, p.First(), p.Last(), e.record, x, reject);
      }
    }
  }

  lemma OwnReach(e: Entry, p: Prefix, x: nat, reject: Prefix -> bool)
    requires NormalizePrefix(e.network) == Some(p) && p.IsValid()
    ensures Reach(Ok(e), x, reject)
         == if p.Holds(x) && !reject(p) then [ToStored(e.record, p.addr.fam == V6)] else []
  {
  }

  lemma NoneTakenReach(items: seq<Item>, x: nat, reject: Prefix -> bool)
    requires NoneTaken(items, reject)
    ensures Reaching(items, x, reject) == []
  {
    forall i | 0 <= i < |items| ensures Reach(items[i], x, reject) == [] { assert Skips(items[i], reject); }
    NoneReaches(items, x, reject);
  }

  // ----- a tree that decides about all parts of a network alike -----

  /** The tree takes every network inside lo..hi of family `f`. */
  ghost predicate Accepts(f: Family, lo: nat, hi: nat, reject: Prefix -> bool) {
    forall q: Prefix :: q.IsValid() && q.addr.fam == f && lo <= q.First() && q.Last() <= hi ==> !reject(q)
  }

  /** The tree refuses every network inside lo..hi of family `f`. */
  ghost predicate Refuses(f: Family, lo: nat, hi: nat, reject: Prefix -> bool) {
    forall q: Prefix :: q.IsValid() && q.addr.fam == f && lo <= q.First() && q.Last() <= hi ==> reject(q)
  }

  /** An item whose network Build does not rewrite. */
  predicate Unmoved(i: Item) {
    i.Ok? && i.entry.network.IsValid() && !Is4In6(i.entry.network.addr)
  }

  ghost predicate AllUnmoved(items: seq<Item>) {
    forall i :: 0 <= i < |items| ==> Unmoved(items[i])
  }

  lemma EmitUnmoved(f: Family, lo: nat, hi: nat, rec: Record)
    requires lo <= hi < Pow2(Width(f)) && Whole(f, lo, hi)
    ensures AllUnmoved(Emit(f, lo, hi, rec))
  {
    hide Aligned, Floor, Pow2, Decompose, Maximal, Whole, MappedBase;
    PrefixesCorrect(f, lo, hi);
    WholeBlocks(f, lo, hi);
    var bs, items := Prefixes(f, lo, hi), Emit(f, lo, hi, rec);
    forall i | 0 <= i < |items| ensures Unmoved(items[i]) {
      assert Within(bs[i], lo, hi, Width(f));
      assert !InMapped(f, bs[i].base);
    }
  }

  lemma {:induction false} ScanUnmoved(f: Family, rows: seq<Row>, cur: nat, hi: nat, rec: Record)
    requires AllOf(rows, f) && cur <= hi < Pow2(Width(f)) && Unsplit(f, rows, cur, hi)
    ensures AllUnmoved(Scan(f, rows, cur, hi, rec))
    decreases |rows|
  {
    hide Emit, Whole, Clear, Uncut, Unmoved, Stamped, RowPieces, Pow2, Width;
    UnsplitTail(f, rows, cur, hi);
    if rows == [] || (rows[0].first.n > hi && rows[0].last.n >= cur) {
      EmitUnmoved(f, cur, hi, rec);
    } else if rows[0].last.n < cur {
      ScanUnmoved(f, rows[1..], cur, hi, rec);
    } else {
      var b := OverlapHi(rows[0], hi);
      DivideWhole(f, rows, cur, hi);
      RowUnmoved(f, rows[0], cur, hi, rec);
      if b < hi { ScanUnmoved(f, rows[1..], b + 1, hi, rec); }
    }
  }

  lemma RowUnmoved(f: Family, row: Row, cur: nat, hi: nat, rec: Record)
    requires Touches(f, row, cur, hi)
    requires var a := OverlapLo(row, cur); (cur < a ==> Whole(f, cur, a - 1)) && Whole(f, a, OverlapHi(row, hi))
    ensures AllUnmoved(RowPieces(f, row, cur, hi, rec))
  {
    hide Emit, Whole, Unmoved, Stamped, Pow2, Width;
    var a, b := OverlapLo(row, cur), OverlapHi(row, hi);
    EmitUnmoved(f, a, b, Stamped(rec, Some(row.AS())));
    if cur < a { EmitUnmoved(f, cur, a - 1, rec); }
  }

  /** The pieces of a network without a split in mapped space are parts of it as they stand. */
  lemma PiecesInside(e: Entry, v4: seq<Row>, v6: seq<Row>, i: nat)
    requires TableRows(v4, V4) && TableRows(v6, V6) && e.network.IsValid() && NormalizePrefix(e.network).Some?
    requires var p := NormalizePrefix(e.network).value; Clear(p.addr.fam, p.First(), p.Last()) || Uncut(v6)
    requires i < |Pieces(e, v4, v6)|
    ensures var p, item := NormalizePrefix(e.network).value, Pieces(e, v4, v6)[i];
            && Unmoved(item) && item.entry.network.addr.fam == p.addr.fam
            && p.First() <= item.entry.network.First() && item.entry.network.Last() <= p.Last()
  {
    hide Scan, Disjoint, Pow2, MappedBase, Floor, Clear, Uncut, Unsplit, Uniform, Stamped;
    var p := NormalizePrefix(e.network).value;
    var rows := RowsFor(p.addr.fam, v4, v6);
    PrefixInFamily(p);
    if !Untouched(rows, p.First(), p.Last()) {
      PlainUnsplit(p, v4, v6);
      ScanUnmoved(p.addr.fam, rows, p.First(), p.Last(), e.record);
      EntryPartition(e, v4, v6);
      PieceInside(Pieces(e, v4, v6), p.addr.fam, rows, p.First(), p.Last(), e.record, i);
    }
  }

  /** If the tree takes all parts of the network, or refuses them all, the entry is plain. */
  lemma UniformIsPlain(e: Entry, v4: seq<Row>, v6: seq<Row>, reject: Prefix -> bool)
    requires TableRows(v4, V4) && TableRows(v6, V6)
    requires e.network.IsValid() && NormalizePrefix(e.network).Some? ==>
               var p := NormalizePrefix(e.network).value;
               && (Accepts(p.addr.fam, p.First(), p.Last(), reject) || Refuses(p.addr.fam, p.First(), p.Last(), reject))
               && (Clear(p.addr.fam, p.First(), p.Last()) || Uncut(v6))
    ensures Plain(e, v4, v6, reject)
  {
    hide Pieces, Disjoint, Pow2, MappedBase, Floor, Clear, Uncut;
    if e.network.IsValid() && NormalizePrefix(e.network).Some? {
      var p, ps := NormalizePrefix(e.network).value, Pieces(e, v4, v6);
      forall i | 0 <= i < |ps| ensures Skips(ps[i], reject) <==> reject(p) {
        PiecesInside(e, v4, v6, i);
        assert NormalizePrefix(ps[i].entry.network) == Some(ps[i].entry.network);
      }
    }
  }

  lemma BlockTaken(f: Family, b: Block, lo: nat, hi: nat, rec: Record, reject: Prefix -> bool)
    requires hi < Pow2(Width(f)) && Within(b, lo, hi, Width(f)) && Accepts(f, lo, hi, reject)
    requires Unmoved(Ok(Entry(BlockPrefix(f, b), rec)))
    ensures var item := Ok(Entry(BlockPrefix(f, b), rec)); !Aborts(item) && !Skips(item, reject)
  {
    hide Aligned, Floor, Pow2;
    FloorUnique(b.base, b.base, b.k);
    var p := BlockPrefix(f, b);
    assert p.First() == b.base && NormalizePrefix(p) == Some(p);
  }

  /** The CIDR pieces of a range of which the tree takes all parts. */
  lemma EmitTaken(f: Family, lo: nat, hi: nat, rec: Record, reject: Prefix -> bool)
    requires lo <= hi < Pow2(Width(f)) && Whole(f, lo, hi) && Accepts(f, lo, hi, reject)
    ensures var items := Emit(f, lo, hi, rec); |items| > 0 && Taken(items, reject) && Clean(items)
  {
    hide Aligned, Floor, Pow2, Decompose, Maximal, Whole, Accepts, Within, Unmoved, Skips, Aborts;
    PrefixesCorrect(f, lo, hi);
    EmitUnmoved(f, lo, hi, rec);
    var bs, items := Prefixes(f, lo, hi), Emit(f, lo, hi, rec);
    forall i | 0 <= i < |items| ensures !Aborts(items[i]) && !Skips(items[i], reject) {
      assert Unmoved(items[i]) && Within(bs[i], lo, hi, Width(f));
      BlockTaken(f, bs[i], lo, hi, rec, reject);
    }
  }

  // ----- whole streams -----

  ghost predicate PlainStream(items: seq<Item>, v4: seq<Row>, v6: seq<Row>, reject: Prefix -> bool) {
    forall i :: 0 <= i < |items| && items[i].Ok? ==> Plain(items[i].entry, v4, v6, reject)
  }

  /** The records that reach `x`, each stamped by the row of its own family that owns `x`. */
  function StampedReaching(items: seq<Item>, v4: seq<Row>, v6: seq<Row>, x: nat, reject: Prefix -> bool): seq<Stored> {
    if items == [] then []
    else
      var n := |items| - 1;
      StampedReaching(items[..n], v4, v6, x, reject)
        + StampAll(Reach(items[n], x, reject), ReachStamp(items[n], v4, v6, x))
  }

  lemma ErrReach(item: Item, x: nat, reject: Prefix -> bool)
    requires item.Err?
    ensures Reaching([item], x, reject) == []
  {
    assert [item][..0] == [];
  }

  /** Enrichment in general: it delivers to every address exactly the records the stream itself
      delivers, in the same order, each stamped by the row that owns the address. */
  lemma {:induction false} EnrichedReaching(items: seq<Item>, v4: seq<Row>, v6: seq<Row>, x: nat,
                                            reject: Prefix -> bool)
    requires TableRows(v4, V4) && TableRows(v6, V6) && PlainStream(items, v4, v6, reject)
    ensures Reaching(Enriched(items, v4, v6), x, reject) == StampedReaching(items, v4, v6, x, reject)
  {
    hide Pieces, Reach, Reaching, Stamp, ReachStamp, Plain;
    if items == [] {
      NoneReach(x, reject);
    } else {
      var n := |items| - 1;
      var pre, last := items[..n], items[n];
      assert PlainStream(pre, v4, v6, reject) by { assert forall i :: 0 <= i < n ==> pre[i] == items[i]; }
      EnrichedReaching(pre, v4, v6, x, reject);
      match last {
        case Err(_) =>
          ReachingConcat(Enriched(pre, v4, v6), [last], x, reject);
          ErrReach(last, x, reject);
          ErrStamped(last, v4, v6, x, reject);
        case Ok(e) =>
          ReachingConcat(Enriched(pre, v4, v6), Pieces(e, v4, v6), x, reject);
          PiecesReach(e, v4, v6, x, reject);
      }
    }
  }

  lemma NoneReach(x: nat, reject: Prefix -> bool)
    ensures Reaching([], x, reject) == []
  {
  }

  lemma ErrStamped(item: Item, v4: seq<Row>, v6: seq<Row>, x: nat, reject: Prefix -> bool)
    requires item.Err?
    ensures StampAll(Reach(item, x, reject), ReachStamp(item, v4, v6, x)) == []
  {
  }

  /** The stamps in StampedReaching, one for each record that reaches `x`. */
  function OwnerStamps(items: seq<Item>, v4: seq<Row>, v6: seq<Row>, x: nat, reject: Prefix -> bool):
    (r: seq<map<string, string>>)
    ensures |r| == |Reaching(items, x, reject)|
  {
    if items == [] then []
    else
      var n := |items| - 1;
      OwnerStamps(items[..n], v4, v6, x, reject)
      + if Reach(items[n], x, reject) == [] then [] else [ReachStamp(items[n], v4, v6, x)]
  }

  lemma {:induction false} StampedEach(items: seq<Item>, v4: seq<Row>, v6: seq<Row>, x: nat, reject: Prefix -> bool)
    ensures StampedReaching(items, v4, v6, x, reject)
         == StampEach(Reaching(items, x, reject), OwnerStamps(items, v4, v6, x, reject))
  {
    hide Stamp, Owner, StampOf, ToStored, ReachStamp;
    if items != [] {
      StampedEach(items[..|items| - 1], v4, v6, x, reject);
    }
  }

  /** Every entry of `who` that covers `x` is of family `f`. */
  ghost predicate CoversIn(items: seq<Item>, x: nat, who: string, f: Family, reject: Prefix -> bool) {
    forall i :: 0 <= i < |items| && Reach(items[i], x, reject) != [] && items[i].entry.record.provider == who ==>
      NormalizePrefix(items[i].entry.network).value.addr.fam == f
  }

  /** Every entry that covers `x` is of family `f`, if it is of the provider that comes first. This
      can fail only below 2^32, where a v6 network inside ::/96 shares tree slots with IPv4. */
  ghost predicate OneFamily(items: seq<Item>, x: nat, f: Family, reject: Prefix -> bool) {
    var rs := Reaching(items, x, reject);
    rs != [] ==> CoversIn(items, x, rs[0].provider, f, reject)
  }

  lemma HighIsV6(items: seq<Item>, x: nat, reject: Prefix -> bool)
    requires x >= Pow2(V4_BITS)
    ensures OneFamily(items, x, V6, reject)
  {
    hide Pow2, Floor, MappedBase, ToStored, Reaching;
    forall i | 0 <= i < |items| && Reach(items[i], x, reject) != []
      ensures NormalizePrefix(items[i].entry.network).value.addr.fam == V6
    {
      PrefixInFamily(NormalizePrefix(items[i].entry.network).value);
    }
  }

  lemma {:induction false} OneStamp(items: seq<Item>, v4: seq<Row>, v6: seq<Row>, x: nat, who: string, f: Family,
                                    reject: Prefix -> bool)
    requires CoversIn(items, x, who, f, reject)
    ensures var rs := Reaching(items, x, reject);
            forall i :: 0 <= i < |rs| && rs[i].provider == who ==>
              OwnerStamps(items, v4, v6, x, reject)[i] == StampOf(Owner(RowsFor(f, v4, v6), KeyOf(f, x)))
  {
    hide Owner, StampOf, Canon, NonEmpty, Epoch, KeyOf;
    if items != [] {
      var n := |items| - 1;
      assert CoversIn(items[..n], x, who, f, reject) by { assert forall i :: 0 <= i < n ==> items[..n][i] == items[i]; }
      OneStamp(items[..n], v4, v6, x, who, f, reject);
    }
  }

  // ----- outcome of the build -----

  /** The pieces of an entry abort a build exactly when the entry does, and insert something exactly
      when it does. */
  lemma PiecesOutcome(e: Entry, v4: seq<Row>, v6: seq<Row>, reject: Prefix -> bool)
    requires TableRows(v4, V4) && TableRows(v6, V6) && Plain(e, v4, v6, reject)
    ensures var ps := Pieces(e, v4, v6);
            && (Clean(ps) <==> !Aborts(Ok(e)))
            && (!Aborts(Ok(e)) ==> (SomeInserted(ps, reject) <==> !Skips(Ok(e), reject)))
  {
    hide Scan, Disjoint, Pow2, MappedBase, Floor, Clear, Uncut, Partition;
    var ps := Pieces(e, v4, v6);
    if NormalizePrefix(e.network).Some? && e.network.IsValid() {
      var p := NormalizePrefix(e.network).value;
      PiecesValid(e, v4, v6);
      if reject(p) {
        assert forall i :: 0 <= i < |ps| ==> Skips(ps[i], reject);
      } else {
        assert !Skips(ps[0], reject);
      }
    } else {
      assert Aborts(ps[0]) <==> Aborts(Ok(e));
      assert Skips(ps[0], reject) || Aborts(ps[0]);
    }
  }

  lemma PiecesValid(e: Entry, v4: seq<Row>, v6: seq<Row>)
    requires TableRows(v4, V4) && TableRows(v6, V6) && e.network.IsValid() && NormalizePrefix(e.network).Some?
    ensures |Pieces(e, v4, v6)| > 0 && Clean(Pieces(e, v4, v6))
  {
    hide Scan, Disjoint, Pow2, MappedBase, Floor, Stamped, Uniform;
    var p := NormalizePrefix(e.network).value;
    PrefixInFamily(p);
    if !Untouched(RowsFor(p.addr.fam, v4, v6), p.First(), p.Last()) { EntryPartition(e, v4, v6); }
  }

  lemma ConcatOutcome(a: seq<Item>, b: seq<Item>, reject: Prefix -> bool)
    ensures Clean(a + b) <==> Clean(a) && Clean(b)
    ensures SomeInserted(a + b, reject) <==> SomeInserted(a, reject) || SomeInserted(b, reject)
  {
    var c := a + b;
    assert forall i :: 0 <= i < |a| ==> c[i] == a[i];
    assert forall i :: 0 <= i < |b| ==> c[|a| + i] == b[i];
    if SomeInserted(a, reject) {
      var i :| 0 <= i < |a| && !Skips(a[i], reject);
      assert !Skips(c[i], reject);
    }
    if SomeInserted(b, reject) {
      var i :| 0 <= i < |b| && !Skips(b[i], reject);
      assert !Skips(c[|a| + i], reject);
    }
  }

  lemma {:induction false} EnrichedOutcome(items: seq<Item>, v4: seq<Row>, v6: seq<Row>, reject: Prefix -> bool)
    requires TableRows(v4, V4) && TableRows(v6, V6) && PlainStream(items, v4, v6, reject)
    ensures var en := Enriched(items, v4, v6);
            && (Clean(en) <==> Clean(items))
            && (Clean(items) ==> (SomeInserted(en, reject) <==> SomeInserted(items, reject)))
  {
    hide Pieces, Aborts, Skips, Plain;
    if items != [] {
      var n := |items| - 1;
      var pre, last := items[..n], items[n];
      assert items == pre + [last];
      assert PlainStream(pre, v4, v6, reject) by { assert forall i :: 0 <= i < n ==> pre[i] == items[i]; }
      EnrichedOutcome(pre, v4, v6, reject);
      var next := match last { case Err(_) => [last] case Ok(e) => Pieces(e, v4, v6) };
      ConcatOutcome(Enriched(pre, v4, v6), next, reject);
      ConcatOutcome(pre, [last], reject);
      if last.Ok? { PiecesOutcome(last.entry, v4, v6, reject); }
    }
  }

  // ----- the main theorem -----

  lemma OneFamilyStamps(items: seq<Item>, v4: seq<Row>, v6: seq<Row>, x: nat, f: Family, reject: Prefix -> bool)
    requires OneFamily(items, x, f, reject)
    ensures var rs := Reaching(items, x, reject);
            forall i :: 0 <= i < |rs| && rs[i].provider == rs[0].provider ==>
              OwnerStamps(items, v4, v6, x, reject)[i] == StampOf(Owner(RowsFor(f, v4, v6), KeyOf(f, x)))
  {
    var rs := Reaching(items, x, reject);
    hide Reaching, OwnerStamps, Owner, StampOf, KeyOf, CoversIn;
    if rs != [] { OneStamp(items, v4, v6, x, rs[0].provider, f, reject); }
  }

  /** Building the enriched stream succeeds with building the stream, and holds the fold of its
      records, each stamped by its own owner. */
  lemma EnrichedFold(items: seq<Item>, v4: seq<Row>, v6: seq<Row>, reject: Prefix -> bool, x: nat)
    requires TableRows(v4, V4) && TableRows(v6, V6) && PlainStream(items, v4, v6, reject) && x < Pow2(V6_BITS)
    ensures var plain, en := Finish(BuildFold(items, reject)), Finish(BuildFold(Enriched(items, v4, v6), reject));
            var rs := Reaching(items, x, reject);
            && (en.Built? <==> plain.Built?)
            && (plain.Built? ==>
                  && Find(plain.tree, V6_BITS, x) == Fold(rs)
                  && Find(en.tree, V6_BITS, x) == Fold(StampEach(rs, OwnerStamps(items, v4, v6, x, reject))))
  {
    hide Find, Fold, Fits, Reaching, StampedReaching, Reach, BuildFold, PlainStream, Clean, SomeInserted, InsertedAt,
      Enriched, AllOf, Disjoint, StampEach, OwnerStamps, Pow2;
    var en := Enriched(items, v4, v6);
    BuildOutcome(items, reject);
    BuildOutcome(en, reject);
    EnrichedOutcome(items, v4, v6, reject);
    BuildRefines(items, reject, x);
    BuildRefines(en, reject, x);
    EnrichedReaching(items, v4, v6, x, reject);
    StampedEach(items, v4, v6, x, reject);
  }

  /** Enrichment commutes with building. However entries overlap and split: building the enriched
      stream succeeds exactly when building the stream does, and the record at every address is the
      one the plain build holds there, stamped by the row that owns the address. */
  lemma EnrichmentCommutes(items: seq<Item>, v4: seq<Row>, v6: seq<Row>, reject: Prefix -> bool, x: nat, f: Family)
    requires TableRows(v4, V4) && TableRows(v6, V6) && PlainStream(items, v4, v6, reject)
    requires x < Pow2(V6_BITS) && OneFamily(items, x, f, reject)
    ensures var plain, en := Finish(BuildFold(items, reject)), Finish(BuildFold(Enriched(items, v4, v6), reject));
            && (en.Built? <==> plain.Built?)
            && (plain.Built? ==>
                  var m, n := Find(plain.tree, V6_BITS, x), Find(en.tree, V6_BITS, x);
                  && (n.Some? <==> m.Some?)
                  && (m.Some? ==> n.value == Stamp(m.value, StampOf(Owner(RowsFor(f, v4, v6), KeyOf(f, x))))))
  {
    hide Find, Fold, Reaching, BuildFold, OneFamily, PlainStream, Enriched, AllOf, Disjoint, StampEach, OwnerStamps,
      Pow2, Owner, KeyOf, StampOf;
    var rs := Reaching(items, x, reject);
    EnrichedFold(items, v4, v6, reject, x);
    FoldSome(rs);
    OneFamilyStamps(items, v4, v6, x, f, reject);
    StampFold(rs, OwnerStamps(items, v4, v6, x, reject), StampOf(Owner(RowsFor(f, v4, v6), KeyOf(f, x))));
  }

  ghost predicate NoAsnKeys(items: seq<Item>) {
    forall i :: 0 <= i < |items| && items[i].Ok? ==>
      EXT_ASN !in items[i].entry.record.ext && EXT_AS_ORG !in items[i].entry.record.ext
  }

  lemma {:induction false} ReachingLacks(items: seq<Item>, x: nat, reject: Prefix -> bool)
    requires NoAsnKeys(items)
    ensures forall r :: r in Reaching(items, x, reject) ==> EXT_ASN !in r.ext && EXT_AS_ORG !in r.ext
  {
    if items != [] {
      var n := |items| - 1;
      assert NoAsnKeys(items[..n]) by { assert forall i :: 0 <= i < n ==> items[..n][i] == items[i]; }
      ReachingLacks(items[..n], x, reject);
    }
  }

  /** For a stream that carries no ASN keys of its own and a table built from arbitrary rows: the
      stored `asn` is the ASN of a row that starts first among those holding the address, it is
      absent exactly when no row does, and without the two keys the record is the
      plain build's. */
  lemma EnrichedAsn(items: seq<Item>, rows: seq<Row>, v4: seq<Row>, v6: seq<Row>, reject: Prefix -> bool, x: nat,
                    f: Family)
    requires TableOf(rows, V4, v4) && TableOf(rows, V6, v6) && PlainStream(items, v4, v6, reject) && NoAsnKeys(items)
    requires x < Pow2(V6_BITS) && OneFamily(items, x, f, reject)
    requires Finish(BuildFold(items, reject)).Built? && Held(items, reject, x).Some?
    ensures TableRows(v4, V4) && TableRows(v6, V6) && Finish(BuildFold(Enriched(items, v4, v6), reject)).Built?
    ensures Held(Enriched(items, v4, v6), reject, x).Some?
    ensures var m, n := Held(items, reject, x).value, Held(Enriched(items, v4, v6), reject, x).value;
            && m == n.(ext := n.ext - {"asn", "as_org"})
            && ("asn" in n.ext <==> exists r :: r in rows && HoldsAddress(r, f, x))
            && ("asn" in n.ext ==> exists asn: nat, org ::
                  n.ext["asn"] == Decimal(asn) && Announces(rows, f, x, (asn, org))
                  && (if org == "" then "as_org" !in n.ext else "as_org" in n.ext && n.ext["as_org"] == org))
  {
    hide HoldsAddress, Announces, BuildFold, Find, Decimal, OneFamily, PlainStream, NoAsnKeys, Owner, KeyOf, StampOf,
      TableOf, Enriched, Disjoint, AllOf;
    TableMeaning(rows, V4, v4);
    TableMeaning(rows, V6, v6);
    EnrichmentCommutes(items, v4, v6, reject, x, f);
    HeldLacks(items, reject, x);
    TableOwners(rows, f, RowsFor(f, v4, v6), x);
    StampRemoved(Held(items, reject, x).value, Owner(RowsFor(f, v4, v6), KeyOf(f, x)));
  }

  lemma HeldLacks(items: seq<Item>, reject: Prefix -> bool, x: nat)
    requires NoAsnKeys(items) && x < Pow2(V6_BITS)
    requires BuildFold(items, reject).Built? && Held(items, reject, x).Some?
    ensures var m := Held(items, reject, x).value; EXT_ASN !in m.ext && EXT_AS_ORG !in m.ext
  {
    var rs := Reaching(items, x, reject);
    HeldClosedForm(items, reject, x);
    ReachingLacks(items, x, reject);
    var m := Held(items, reject, x).value;
    forall k | k in m.ext ensures k != EXT_ASN && k != EXT_AS_ORG {
      var i: nat :| SetsLast(rs, i, k);
      assert rs[i] in rs;
    }
  }

  lemma StampRemoved(m: Stored, owner: Option<(nat, string)>)
    requires EXT_ASN !in m.ext && EXT_AS_ORG !in m.ext
    ensures Stamp(m, StampOf(owner)).ext - {EXT_ASN, EXT_AS_ORG} == m.ext
    ensures EXT_ASN in Stamp(m, StampOf(owner)).ext <==> owner.Some?
    ensures owner.Some? ==>
              var n := Stamp(m, StampOf(owner));
              && n.ext[EXT_ASN] == Decimal(owner.value.0)
              && if owner.value.1 == "" then EXT_AS_ORG !in n.ext
                else EXT_AS_ORG in n.ext && n.ext[EXT_AS_ORG] == owner.value.1
  {
  }
}
