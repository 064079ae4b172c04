// v6 networks around ::ffff:0:0/96: exactly when enrichment keeps their addresses.
module MappedCuts {
  import opened Bits
  import opened Net
  import opened Cidr
  import opened Records
  import opened MergeLaws
  import opened Streams
  import opened AsnRanges
  import opened Coalescing
  import opened AsnTables
  import opened Enriching
  import opened Partitioning
  import opened Building
  import opened Commuting

  /** A block inside v6 that starts in mapped space is rewritten to IPv4 or refused, and any other
      block that holds ::ffff:0:0 contains ::fffe:0:0/95. */
  lemma BlockLosesBase(b: Block, rec: Record, reject: Prefix -> bool)
    requires b.k <= V6_BITS && Aligned(b.base, b.k) && b.Last() < Pow2(V6_BITS)
    requires !(b.base <= AroundFirst() && AroundLast() <= b.Last())
    ensures b.base < Pow2(V6_BITS) && Reach(Ok(Entry(BlockPrefix(V6, b), rec)), MappedBase(), reject) == []
  {
    hide Pow2, Aligned, Floor, MappedBase, AroundFirst, AroundLast, Reach;
    FloorUnique(b.base, b.base, b.k);
    var p := BlockPrefix(V6, b);
    PrefixLosesBase(p, rec, reject);
  }

  lemma PrefixLosesBase(p: Prefix, rec: Record, reject: Prefix -> bool)
    requires p.IsValid() && p.addr.fam == V6 && p.First() == p.addr.n
    requires !(p.First() <= AroundFirst() && AroundLast() <= p.Last())
    ensures Reach(Ok(Entry(p, rec)), MappedBase(), reject) == []
  {
    hide Pow2, Aligned, Floor, MappedBase, AroundFirst, AroundLast, ToStored, Is4In6;
    if Is4In6(p.addr) {
      MovedBelow(p);
    } else if p.Holds(MappedBase()) {
      AroundMapped(p);
      assert false;
    }
  }

  lemma MovedBelow(p: Prefix)
    requires p.IsValid() && Is4In6(p.addr)
    ensures NormalizePrefix(p).Some?
            ==> NormalizePrefix(p).value.IsValid() && NormalizePrefix(p).value.Last() < MappedBase()
  {
    MappedSizes();
    hide Pow2, MappedBase, Floor, Aligned;
    if NormalizePrefix(p).Some? { PrefixInFamily(NormalizePrefix(p).value); }
  }

  /** The pieces of a range that does not contain ::fffe:0:0/95 leave ::ffff:0:0 uncovered. */
  lemma EmitLosesBase(lo: nat, hi: nat, rec: Record, reject: Prefix -> bool)
    requires lo <= hi < Pow2(V6_BITS) && !(lo <= AroundFirst() && AroundLast() <= hi)
    ensures Reaching(Emit(V6, lo, hi, rec), MappedBase(), reject) == []
  {
    PrefixesCorrect(V6, lo, hi);
    hide Decompose, Reach, Pow2, Aligned, MappedBase, AroundFirst, AroundLast, Maximal;
    var bs, items := Prefixes(V6, lo, hi), Emit(V6, lo, hi, rec);
    forall i | 0 <= i < |items| ensures Reach(items[i], MappedBase(), reject) == [] {
      assert Within(bs[i], lo, hi, V6_BITS);
      BlockLosesBase(bs[i], rec, reject);
    }
    NoneReaches(items, MappedBase(), reject);
  }

  /** No part into which a row divides cur..hi contains ::fffe:0:0/95. */
  ghost predicate Misses(row: Row, cur: nat, hi: nat)
    requires row.Valid()
  {
    var a, b := OverlapLo(row, cur), OverlapHi(row, hi);
    && (cur < a ==> !(cur <= AroundFirst() && AroundLast() <= a - 1))
    && !(a <= AroundFirst() && AroundLast() <= b)
  }

  lemma RowLosesBase(row: Row, cur: nat, hi: nat, rec: Record, reject: Prefix -> bool)
    requires Touches(V6, row, cur, hi) && Misses(row, cur, hi)
    ensures Reaching(RowPieces(V6, row, cur, hi, rec), MappedBase(), reject) == []
  {
    hide Emit, Reaching, Stamped, Pow2, MappedBase, AroundFirst, AroundLast;
    var a, b := OverlapLo(row, cur), OverlapHi(row, hi);
    var hit := Stamped(rec, Some(row.AS()));
    EmitLosesBase(a, b, hit, reject);
    NoneReach(MappedBase(), reject);
    if cur < a { EmitLosesBase(cur, a - 1, rec, reject); }
    ReachingConcat(if cur < a then Emit(V6, cur, a - 1, rec) else [], Emit(V6, a, b, hit), MappedBase(), reject);
  }

  /** If a row cuts ::fffe:0:0/95, or the scan starts inside it, no piece covers ::ffff:0:0. */
  lemma {:induction false} ScanLosesBase(rows: seq<Row>, cur: nat, hi: nat, rec: Record, reject: Prefix -> bool)
    requires AllOf(rows, V6) && Disjoint(rows) && cur <= hi < Pow2(V6_BITS)
    requires AroundLast() <= hi ==> AroundFirst() < cur || !Uncut(rows)
    ensures Reaching(Scan(V6, rows, cur, hi, rec), MappedBase(), reject) == []
    decreases |rows|
  {
    AroundAligned();
    hide Emit, Reach, Reaching, Stamped, RowPieces, Disjoint, Pow2, Aligned, MappedBase, AroundFirst, AroundLast;
    if rows == [] {
      EmitLosesBase(cur, hi, rec, reject);
    } else {
      TailTable(V6, rows);
      CutHere(rows, cur, hi);
      if rows[0].last.n < cur {
        ScanLosesBase(rows[1..], cur, hi, rec, reject);
      } else if rows[0].first.n > hi {
        EmitLosesBase(cur, hi, rec, reject);
      } else {
        var b := OverlapHi(rows[0], hi);
        RowLosesBase(rows[0], cur, hi, rec, reject);
        if b < hi {
          ScanLosesBase(rows[1..], b + 1, hi, rec, reject);
          ReachingConcat(RowPieces(V6, rows[0], cur, hi, rec), Scan(V6, rows[1..], b + 1, hi, rec), MappedBase(),
            reject);
        } else {
          assert RowPieces(V6, rows[0], cur, hi, rec) + [] == RowPieces(V6, rows[0], cur, hi, rec);
        }
      }
    }
  }

  /** Where the cut lies relative to the first row. */
  lemma CutHere(rows: seq<Row>, cur: nat, hi: nat)
    requires AllOf(rows, V6) && Disjoint(rows) && rows != [] && cur <= hi
    requires AroundLast() <= hi ==> AroundFirst() < cur || !Uncut(rows)
    ensures rows[0].last.n < cur && AroundLast() <= hi ==> AroundFirst() < cur || !Uncut(rows[1..])
    ensures rows[0].first.n > hi ==> !(cur <= AroundFirst() && AroundLast() <= hi)
    ensures cur <= rows[0].last.n && rows[0].first.n <= hi ==>
              Misses(rows[0], cur, hi)
              && (rows[0].last.n < hi && AroundLast() <= hi ==> AroundFirst() < rows[0].last.n + 1 || !Uncut(rows[1..]))
  {
    AroundAligned();
    hide Pow2, Aligned, MappedBase, AroundFirst, AroundLast;
    if AroundLast() <= hi && cur <= AroundFirst() {
      var i :| 0 <= i < |rows| && Cuts(rows[i]);
      if i > 0 {
        assert Cuts(rows[1..][i - 1]);
      }
    }
  }

  /** What enrichment keeps of one entry: the pieces deliver to every address what the entry would,
      stamped by its owner. */
  ghost predicate Commutes(e: Entry, v4: seq<Row>, v6: seq<Row>, reject: Prefix -> bool)
    requires AllOf(v4, V4) && AllOf(v6, V6)
  {
    forall x: nat :: Reaching(Pieces(e, v4, v6), x, reject)
      == StampAll(Reach(Ok(e), x, reject), ReachStamp(Ok(e), v4, v6, x))
  }

  /** Enrichment keeps the addresses of an entry if and only if the tree decides about every piece as
      it does about the network itself and, if it takes them, the network is clear of mapped space
      or no row of the v6 table starts or ends inside ::fffe:0:0/95. */
  lemma CommutesExactlyWhen(e: Entry, v4: seq<Row>, v6: seq<Row>, reject: Prefix -> bool)
    requires TableRows(v4, V4) && TableRows(v6, V6) && e.network.IsValid() && NormalizePrefix(e.network).Some?
    ensures Commutes(e, v4, v6, reject) <==> Plain(e, v4, v6, reject)
  {
    hide Clear, Uncut, Reaching, Reach, Pieces, ReachStamp, StampAll, Disjoint, AllOf, Floor, Pow2, MappedBase, Skips;
    var p, ps := NormalizePrefix(e.network).value, Pieces(e, v4, v6);
    if Plain(e, v4, v6, reject) {
      forall x: nat
        ensures Reaching(ps, x, reject) == StampAll(Reach(Ok(e), x, reject), ReachStamp(Ok(e), v4, v6, x))
      {
        PiecesReach(e, v4, v6, x, reject);
      }
    } else if reject(p) {
      var i :| 0 <= i < |ps| && !Skips(ps[i], reject);
      TakenPiece(e, v4, v6, reject, i);
    } else if !Clear(p.addr.fam, p.First(), p.Last()) && !Uncut(v6) {
      CutLosesBase(e, v4, v6, reject);
    } else {
      var i :| 0 <= i < |ps| && Skips(ps[i], reject);
      SkippedPiece(e, v4, v6, reject, i);
    }
  }

  /** For a network of which the tree takes all parts this is a condition on the table alone. */
  lemma AcceptedCommutesExactlyWhen(e: Entry, v4: seq<Row>, v6: seq<Row>, reject: Prefix -> bool)
    requires TableRows(v4, V4) && TableRows(v6, V6) && e.network.IsValid() && NormalizePrefix(e.network).Some?
    requires var p := NormalizePrefix(e.network).value; Accepts(p.addr.fam, p.First(), p.Last(), reject)
    ensures var p := NormalizePrefix(e.network).value;
            Commutes(e, v4, v6, reject) <==> Clear(p.addr.fam, p.First(), p.Last()) || Uncut(v6)
  {
    hide Clear, Uncut, Pieces, Disjoint, AllOf, Floor, Pow2, MappedBase, Taken, Commutes;
    var p := NormalizePrefix(e.network).value;
    PrefixInFamily(p);
    CommutesExactlyWhen(e, v4, v6, reject);
    if Clear(p.addr.fam, p.First(), p.Last()) || Uncut(v6) { UniformIsPlain(e, v4, v6, reject); }
  }

  lemma {:induction false} SomeReach(items: seq<Item>, i: nat, x: nat, reject: Prefix -> bool)
    requires i < |items| && Reach(items[i], x, reject) != []
    ensures Reaching(items, x, reject) != []
  {
    hide Reach;
    if i < |items| - 1 { SomeReach(items[..|items| - 1], i, x, reject); }
  }

  /** A piece the tree takes although it refuses the network covers addresses the entry does not. */
  lemma TakenPiece(e: Entry, v4: seq<Row>, v6: seq<Row>, reject: Prefix -> bool, i: nat)
    requires TableRows(v4, V4) && TableRows(v6, V6) && e.network.IsValid() && NormalizePrefix(e.network).Some?
    requires reject(NormalizePrefix(e.network).value) && i < |Pieces(e, v4, v6)| && !Skips(Pieces(e, v4, v6)[i], reject)
    ensures !Commutes(e, v4, v6, reject)
  {
    hide Pieces, Disjoint, AllOf, Pow2, MappedBase, Floor, Reaching, ToStored;
    PiecesValid(e, v4, v6);
    var item := Pieces(e, v4, v6)[i];
    assert !Aborts(item);
    var q := NormalizePrefix(item.entry.network).value;
    PrefixInFamily(q);
    var x := q.First();
    SomeReach(Pieces(e, v4, v6), i, x, reject);
    assert Reach(Ok(e), x, reject) == [];
  }

  /** A piece the tree refuses although it takes the network leaves addresses uncovered. */
  lemma SkippedPiece(e: Entry, v4: seq<Row>, v6: seq<Row>, reject: Prefix -> bool, i: nat)
    requires TableRows(v4, V4) && TableRows(v6, V6) && e.network.IsValid() && NormalizePrefix(e.network).Some?
    requires var p := NormalizePrefix(e.network).value;
             !reject(p) && (Clear(p.addr.fam, p.First(), p.Last()) || Uncut(v6))
    requires i < |Pieces(e, v4, v6)| && Skips(Pieces(e, v4, v6)[i], reject)
    ensures !Commutes(e, v4, v6, reject)
  {
    hide Pieces, Disjoint, AllOf, Pow2, MappedBase, Floor, Clear, Uncut, Reaching, Reach, ToStored, StampAll,
      ReachStamp;
    var p, ps := NormalizePrefix(e.network).value, Pieces(e, v4, v6);
    PiecesInside(e, v4, v6, i);
    PrefixInFamily(ps[i].entry.network);
    var x := ps[i].entry.network.First();
    forall j | 0 <= j < |ps| ensures Reach(ps[j], x, reject) == [] {
      PiecesInside(e, v4, v6, j);
      if j == i {
        RefusedReach(ps[i], x, reject);
      } else {
        PiecesApart(e, v4, v6, i, j);
        ElsewhereReach(ps[j], x, reject);
      }
    }
    NoneReaches(ps, x, reject);
    OwnReach(e, p, x, reject);
  }

  lemma RefusedReach(item: Item, x: nat, reject: Prefix -> bool)
    requires Skips(item, reject)
    ensures Reach(item, x, reject) == []
  {
  }

  lemma ElsewhereReach(item: Item, x: nat, reject: Prefix -> bool)
    requires Unmoved(item) && !item.entry.network.Holds(x)
    ensures Reach(item, x, reject) == []
  {
  }

  /** No address lies in two pieces. */
  lemma PiecesApart(e: Entry, v4: seq<Row>, v6: seq<Row>, i: nat, j: nat)
    requires TableRows(v4, V4) && TableRows(v6, V6) && e.network.IsValid() && NormalizePrefix(e.network).Some?
    requires i < |Pieces(e, v4, v6)| && j < |Pieces(e, v4, v6)| && i != j
    requires Unmoved(Pieces(e, v4, v6)[i]) && Unmoved(Pieces(e, v4, v6)[j])
    ensures !Pieces(e, v4, v6)[j].entry.network.Holds(Pieces(e, v4, v6)[i].entry.network.First())
  {
    hide Scan, Disjoint, Pow2, MappedBase, Floor, Partition, Is4In6;
    var p := NormalizePrefix(e.network).value;
    var f, ps := p.addr.fam, Pieces(e, v4, v6);
    var rows := RowsFor(f, v4, v6);
    PrefixInFamily(p);
    if !Untouched(rows, p.First(), p.Last()) {
      EntryPartition(e, v4, v6);
      PrefixInFamily(ps[i].entry.network);
      if i < j {
        PieceNotBefore(ps, f, rows, p.First(), p.Last(), e.record, i, j);
      } else {
        PieceNotBefore(ps, f, rows, p.First(), p.Last(), e.record, j, i);
      }
    }
  }

  /** A cut network covers ::ffff:0:0 and none of its pieces does. */
  lemma CutLosesBase(e: Entry, v4: seq<Row>, v6: seq<Row>, reject: Prefix -> bool)
    requires TableRows(v4, V4) && TableRows(v6, V6) && e.network.IsValid() && NormalizePrefix(e.network).Some?
             && !Uncut(v6)
    requires var p := NormalizePrefix(e.network).value; !Clear(p.addr.fam, p.First(), p.Last()) && !reject(p)
    ensures Reaching(Pieces(e, v4, v6), MappedBase(), reject) == []
    ensures |Reach(Ok(e), MappedBase(), reject)| == 1
  {
    var p := NormalizePrefix(e.network).value;
    AroundAligned();
    PrefixInFamily(p);
    AroundMapped(p);
    OwnReach(e, p, MappedBase(), reject);
    hide Clear, Reaching, Reach, Scan, Disjoint, Floor, Pow2, MappedBase, AroundFirst, AroundLast, Aligned, ToStored;
    ScanLosesBase(v6, p.First(), p.Last(), e.record, reject);
  }

  // ----- a split that reaches IPv4 -----

  /** A range that is one aligned block stays one block. */
  lemma {:induction false} DecomposeBlock(base: nat, h: nat, b: nat, k: nat)
    requires Aligned(base, h) && Aligned(b, k) && k <= h && base <= b && b + Pow2(k) <= base + Pow2(h)
    ensures Decompose(base, h, b, b + Pow2(k) - 1) == [Block(b, k)]
    decreases h
  {
    hide Aligned;
    AlignedDown(base, h, k);
    if base < b { AlignedGap(base, b, k); }
    if k < h {
      var mid := base + Pow2(h - 1);
      AlignedHalves(base, h - 1);
      AlignedDown(mid, h - 1, k);
      Pow2Mono(k, h - 1);
      if b < mid {
        AlignedGap(b, mid, k);
        DecomposeBlock(base, h - 1, b, k);
      } else {
        DecomposeBlock(mid, h - 1, b, k);
      }
    }
  }

  function MappedPrefix(): Prefix {
    MappedSizes();
    Prefix(IP(V6, MappedBase()), V6_BITS - V4_BITS)
  }

  lemma MappedSpaceBlock()
    ensures MappedBase() <= AroundLast() < Pow2(V6_BITS)
    ensures Prefixes(V6, MappedBase(), AroundLast()) == [Block(MappedBase(), V4_BITS)]
  {
    hide Aligned, Pow2, MappedBase, Decompose;
    MappedSizes();
    MappedAligned(V4_BITS);
    ZeroAligned(V6_BITS);
    DecomposeBlock(0, V6_BITS, MappedBase(), V4_BITS);
  }

  /** ::ffff:0:0/96 is emitted as one network, which Build turns into 0.0.0.0/0. */
  lemma MappedSpaceReach(rec: Record, x: nat, reject: Prefix -> bool)
    requires x < Pow2(V4_BITS) && forall p: Prefix :: !reject(p)
    ensures MappedBase() <= AroundLast() < Pow2(V6_BITS)
    ensures Reaching(Emit(V6, MappedBase(), AroundLast(), rec), x, reject) == [ToStored(rec, false)]
  {
    MappedSpaceBlock();
    hide Aligned, Pow2, MappedBase, Decompose, Prefixes, Reach, Reaching, ToStored, AroundLast;
    var e := Entry(MappedPrefix(), rec);
    assert Emit(V6, MappedBase(), AroundLast(), rec) == [Ok(e)];
    OneReach(e, e.network, x, reject);
    AllOfV4(e, x, reject);
  }

  lemma AllOfV4(e: Entry, x: nat, reject: Prefix -> bool)
    requires e.network.IsValid() && e.network.addr.fam == V6 && e.network.addr.n == MappedBase()
    requires e.network.bits == V6_BITS - V4_BITS && x < Pow2(V4_BITS) && forall p: Prefix :: !reject(p)
    ensures Reach(Ok(e), x, reject) == [ToStored(e.record, false)]
  {
    MappedSizes();
    hide Aligned, Pow2, MappedBase, Floor, ToStored;
    var q := NormalizePrefix(e.network).value;
    assert q.addr.n == 0 && q.bits == 0;
    ZeroAligned(V4_BITS);
    FloorUnique(0, 0, V4_BITS);
    assert q.Holds(x) && !reject(q);
  }

  /** ::fffe:0:0/95, and a row for its first half. */
  predicate HalfRow(p: Prefix, row: Row) {
    && p.addr.IP? && p.addr.fam == V6 && p.addr.n == AroundFirst() && p.bits == V6_BITS - V4_BITS - 1
    && row.first == p.addr && row.last.IP? && row.last.fam == V6 && row.last.n == MappedBase() - 1
  }

  lemma HalfRowBounds(p: Prefix, row: Row)
    requires HalfRow(p, row)
    ensures p.IsValid() && p.First() == AroundFirst() && p.Last() == AroundLast() && NormalizePrefix(p) == Some(p)
    ensures row.Valid() && TableRows([row], V6) && !Is4In6(row.first) && !Is4In6(row.last)
    ensures Pow2(V4_BITS) <= AroundFirst() < MappedBase() <= AroundLast() < Pow2(V6_BITS)
  {
    AroundAligned();
    MappedFar();
    hide Pow2, MappedBase, AroundFirst, AroundLast, Floor, Aligned;
    FloorUnique(AroundFirst(), AroundFirst(), V4_BITS + 1);
  }

  lemma HalfTables(row: Row)
    requires row.Valid() && row.first.fam == V6 && !Is4In6(row.first) && !Is4In6(row.last)
    ensures TableOf([row], V4, []) && TableOf([row], V6, [row])
  {
    hide Pow2, MappedBase;
    assert [row][..0] == [] && Unmapped(row) == row;
    assert Usable([], V6) == [];
    assert Usable([row], V4) == [] + [] == [];
    assert Usable([row], V6) == [] + [row] == [row];
    assert SortedForm([row], [row]) && Coalesced([row]) == [row];
    assert SortedForm([], []) && Coalesced([]) == [];
  }

  lemma MappedFar()
    ensures Pow2(V4_BITS) <= AroundFirst()
  {
    Pow2Mono(V4_BITS + 2, MAPPED_BITS);
  }

  /** The stamped half of ::fffe:0:0/95 stays in v6. */
  lemma HalfReach(rec: Record, x: nat, reject: Prefix -> bool)
    requires x < Pow2(V4_BITS) && forall q: Prefix :: !reject(q)
    ensures AroundFirst() < MappedBase() <= AroundLast() < Pow2(V6_BITS)
    ensures Reaching(Emit(V6, AroundFirst(), MappedBase() - 1, rec), x, reject) == []
  {
    hide Pow2, MappedBase, AroundFirst, AroundLast, Aligned, Emit, Reaching, Taken, ToStored;
    AroundAligned();
    MappedFar();
    EmitTaken(V6, AroundFirst(), MappedBase() - 1, rec, reject);
    EmitReach(V6, AroundFirst(), MappedBase() - 1, rec, x, reject);
  }

  /** A v6 entry for ::fffe:0:0/95, split by a row that announces its first half: the entry covers no
      IPv4 address, its enriched form covers all of them. */
  lemma MappedPieceReachesV4(p: Prefix, rec: Record, row: Row, x: nat, reject: Prefix -> bool)
    requires HalfRow(p, row) && x < Pow2(V4_BITS) && forall q: Prefix :: !reject(q)
    ensures TableOf([row], V4, []) && TableOf([row], V6, [row]) && TableRows([row], V6)
    ensures Reaching([Ok(Entry(p, rec))], x, reject) == []
    ensures Reaching(Enriched([Ok(Entry(p, rec))], [], [row]), x, reject) == [ToStored(rec, false)]
  {
    HalfRowBounds(p, row);
    HalfTables(row);
    hide Pow2, MappedBase, AroundFirst, AroundLast, Floor, Aligned, Emit, Reach, Reaching, ToStored, Enriched, Stamped,
      TableOf;
    var e := Entry(p, rec);
    OneReach(e, p, x, reject);
    OwnReach(e, p, x, reject);
    HalfPieces(e, row);
    MappedSpaceReach(rec, x, reject);
    var hit := Stamped(rec, Some(row.AS()));
    HalfReach(hit, x, reject);
    ReachingConcat(Emit(V6, AroundFirst(), MappedBase() - 1, hit), Emit(V6, MappedBase(), AroundLast(), rec), x,
      reject);
  }

  lemma HalfPieces(e: Entry, row: Row)
    requires HalfRow(e.network, row)
    ensures AroundFirst() < MappedBase() <= AroundLast() < Pow2(V6_BITS) && TableRows([row], V6)
    ensures Enriched([Ok(e)], [], [row])
         == Emit(V6, AroundFirst(), MappedBase() - 1, Stamped(e.record, Some(row.AS())))
          + Emit(V6, MappedBase(), AroundLast(), e.record)
  {
    hide Emit, Stamped, Pow2, Floor, MappedBase, AroundFirst, AroundLast, Scan, Pieces, TableRows;
    HalfRowBounds(e.network, row);
    HalfScan(row, AroundFirst(), AroundLast(), e.record);
    ScannedPieces(e, row);
    assert [Ok(e)][..0] == [];
  }

  lemma ScannedPieces(e: Entry, row: Row)
    requires var p := e.network; p.IsValid() && p.addr.fam == V6 && NormalizePrefix(p) == Some(p)
    requires row.Valid() && TableRows([row], V6) && e.network.First() == row.first.n <= row.last.n
             && e.network.Last() < Pow2(V6_BITS)
    requires row.first.n <= e.network.Last()
    ensures Pieces(e, [], [row]) == Scan(V6, [row], e.network.First(), e.network.Last(), e.record)
  {
    hide Scan, Floor, Pow2;
    assert [row][0] == row;
  }

  lemma HalfScan(row: Row, lo: nat, hi: nat, rec: Record)
    requires row.Valid() && TableRows([row], V6) && row.first.n == lo <= row.last.n < hi < Pow2(V6_BITS)
    ensures Scan(V6, [row], lo, hi, rec)
         == Emit(V6, lo, row.last.n, Stamped(rec, Some(row.AS()))) + Emit(V6, row.last.n + 1, hi, rec)
  {
    hide Emit, Stamped, Pow2;
    assert [row][1..] == [] && [row][0] == row;
    var hit := Emit(V6, lo, row.last.n, Stamped(rec, Some(row.AS())));
    assert [] + hit == hit;
  }
}
