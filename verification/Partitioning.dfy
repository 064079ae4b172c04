// The pieces enrichEntry emits are an exact partition of the entry's network.
module Partitioning {
  import opened Bits
  import opened Net
  import opened Cidr
  import opened Records
  import opened Streams
  import opened AsnRanges
  import opened Coalescing
  import opened AsnTables
  import opened Enriching

  function Network(i: Item): Prefix
    requires i.Ok?
  {
    i.entry.network
  }

  /** A masked CIDR of family `f` whose addresses all have one owner, or all none, stamped with it. */
  ghost predicate PieceOf(i: Item, f: Family, rows: seq<Row>, rec: Record) {
    && i.Ok? && Network(i).IsValid() && Network(i).addr.fam == f && Network(i).First() == Network(i).addr.n
    && exists owner: Option<(nat, string)> :: i.entry.record == Stamped(rec, owner)
        && Uniform(f, rows, Network(i).First(), Network(i).Last(), owner)
  }

  ghost predicate Uniform(f: Family, rows: seq<Row>, lo: nat, hi: int, owner: Option<(nat, string)>) {
    forall x: nat :: lo <= x <= hi ==> Owner(rows, KeyOf(f, x)) == owner
  }

  /** Pieces of lo..hi in ascending order, each starting right after the one before. */
  ghost predicate Partition(items: seq<Item>, f: Family, rows: seq<Row>, lo: nat, hi: nat, rec: Record) {
    && |items| > 0
    && (forall i :: 0 <= i < |items| ==> PieceOf(items[i], f, rows, rec))
    && Network(items[0]).First() == lo && Network(items[|items| - 1]).Last() == hi
    && forall i :: 0 < i < |items| ==> Network(items[i]).First() == Network(items[i - 1]).Last() + 1
  }

  lemma JoinPartitions(a: seq<Item>, b: seq<Item>, f: Family, rows: seq<Row>, lo: nat, mid: nat, hi: nat, rec: Record)
    requires lo < mid <= hi
    requires Partition(a, f, rows, lo, mid - 1, rec) && Partition(b, f, rows, mid, hi, rec)
    ensures Partition(a + b, f, rows, lo, hi, rec)
  {
    hide PieceOf;
    PiecesOk(a, f, rows, rec);
    PiecesOk(b, f, rows, rec);
    var c := a + b;
    forall i | 0 < i < |c| ensures Network(c[i]).First() == Network(c[i - 1]).Last() + 1 {
      if i < |a| {
        assert c[i] == a[i] && c[i - 1] == a[i - 1];
      } else if i > |a| {
        assert c[i] == b[i - |a|] && c[i - 1] == b[i - |a| - 1];
      }
    }
  }

  lemma PiecesOk(a: seq<Item>, f: Family, rows: seq<Row>, rec: Record)
    requires forall i :: 0 <= i < |a| ==> PieceOf(a[i], f, rows, rec)
    ensures forall i :: 0 <= i < |a| ==> a[i].Ok? && Network(a[i]).IsValid()
  {
  }

  lemma BlockPiece(f: Family, b: Block, lo: nat, hi: nat, rows: seq<Row>, rec: Record, owner: Option<(nat, string)>)
    requires Within(b, lo, hi, Width(f)) && hi < Pow2(Width(f)) && Uniform(f, rows, lo, hi, owner)
    ensures var i := Ok(Entry(BlockPrefix(f, b), Stamped(rec, owner)));
            PieceOf(i, f, rows, rec) && Network(i).First() == b.base && Network(i).Last() == b.Last()
  {
    hide Aligned, Floor, Pow2, Stamped;
    FloorUnique(b.base, b.base, b.k);
    var p := BlockPrefix(f, b);
    assert p.First() == b.base && p.Last() == b.Last();
    assert Uniform(f, rows, p.First(), p.Last(), owner);
  }

  /** The pieces of a range with one owner. */
  lemma EmitPartition(f: Family, lo: nat, hi: nat, rows: seq<Row>, rec: Record, owner: Option<(nat, string)>)
    requires lo <= hi < Pow2(Width(f)) && Uniform(f, rows, lo, hi, owner)
    ensures Partition(Emit(f, lo, hi, Stamped(rec, owner)), f, rows, lo, hi, rec)
  {
    hide Aligned, Floor, Pow2, Stamped, Decompose, Maximal, PieceOf, Uniform, Within;
    PrefixesCorrect(f, lo, hi);
    var bs, items := Prefixes(f, lo, hi), Emit(f, lo, hi, Stamped(rec, owner));
    forall i | 0 <= i < |items|
      ensures PieceOf(items[i], f, rows, rec) && Network(items[i]).IsValid()
      ensures Network(items[i]).First() == bs[i].base && Network(items[i]).Last() == bs[i].Last()
    {
      assert Within(bs[i], lo, hi, Width(f));
      BlockPiece(f, bs[i], lo, hi, rows, rec, owner);
      PiecesOk([items[i]], f, rows, rec);
      assert [items[i]][0] == items[i];
    }
  }

  /** Every piece of a partition lies between its bounds. */
  lemma {:induction false} PieceInside(items: seq<Item>, f: Family, rows: seq<Row>, lo: nat, hi: nat, rec: Record,
                                       i: nat)
    requires Partition(items, f, rows, lo, hi, rec) && i < |items|
    ensures PieceOf(items[i], f, rows, rec) && lo <= Network(items[i]).First() && Network(items[i]).Last() <= hi
  {
    hide Pow2, Floor, Stamped, Uniform;
    PieceNotBefore(items, f, rows, lo, hi, rec, 0, i);
    PieceNotBefore(items, f, rows, lo, hi, rec, i, |items| - 1);
  }

  /** Pieces ascend. */
  lemma {:induction false} PieceNotBefore(items: seq<Item>, f: Family, rows: seq<Row>, lo: nat, hi: nat, rec: Record,
                                          i: nat, j: nat)
    requires Partition(items, f, rows, lo, hi, rec) && i <= j < |items|
    ensures PieceOf(items[i], f, rows, rec) && PieceOf(items[j], f, rows, rec)
    ensures Network(items[i]).First() <= Network(items[j]).First()
            && Network(items[i]).Last() <= Network(items[j]).Last()
    ensures i < j ==> Network(items[i]).Last() < Network(items[j]).First()
    decreases j
  {
    hide Pow2, Floor, Stamped, Uniform;
    if i < j {
      PieceNotBefore(items, f, rows, lo, hi, rec, i, j - 1);
      PrefixInFamily(Network(items[j - 1]));
      PrefixInFamily(Network(items[j]));
    }
  }

  lemma {:induction false} OwnerSkips(f: Family, rows: seq<Row>, i: nat, x: nat)
    requires AllOf(rows, f) && i <= |rows| && forall j :: 0 <= j < i ==> rows[j].last.n < x
    ensures Owner(rows, KeyOf(f, x)) == Owner(rows[i..], KeyOf(f, x))
  {
    hide KeyOf;
    if i == 0 {
      assert rows[0..] == rows;
    } else {
      RowKeys(f, rows[0], x);
      OwnerSkips(f, rows[1..], i - 1, x);
      assert rows[1..][i - 1..] == rows[i..];
    }
  }

  /** Rows before `i` end before `cur`. */
  ghost predicate Passed(rows: seq<Row>, i: nat, cur: nat) {
    i <= |rows| && forall j :: 0 <= j < i ==> rows[j].Valid() && rows[j].last.n < cur
  }

  lemma GapUniform(f: Family, rows: seq<Row>, i: nat, cur: nat, end: int)
    requires TableRows(rows, f) && Passed(rows, i, cur) && (i < |rows| ==> end < rows[i].first.n)
    ensures Uniform(f, rows, cur, end, None)
  {
    hide KeyOf;
    forall x: nat | cur <= x <= end ensures Owner(rows, KeyOf(f, x)) == None {
      OwnerSkips(f, rows, i, x);
      if i < |rows| {
        assert AllOf(rows[i..], f) && Disjoint(rows[i..]);
        HeadOwner(f, rows[i..], x);
      }
    }
  }

  lemma RowUniform(f: Family, rows: seq<Row>, i: nat, a: nat, b: nat)
    requires TableRows(rows, f) && i < |rows| && Passed(rows, i, a) && rows[i].first.n <= a && b <= rows[i].last.n
    ensures Uniform(f, rows, a, b, Some(rows[i].AS()))
  {
    hide KeyOf;
    forall x: nat | a <= x <= b ensures Owner(rows, KeyOf(f, x)) == Some(rows[i].AS()) {
      RowKeys(f, rows[i], x);
      OwnerAt(rows, i, KeyOf(f, x));
    }
  }

  lemma RowPartition(f: Family, rows: seq<Row>, i: nat, cur: nat, hi: nat, rec: Record)
    requires TableRows(rows, f) && i < |rows| && Passed(rows, i, cur) && Touches(f, rows[i], cur, hi)
    ensures Partition(RowPieces(f, rows[i], cur, hi, rec), f, rows, cur, OverlapHi(rows[i], hi), rec)
  {
    hide Emit, Stamped, Partition, Uniform, Disjoint;
    var a, b := OverlapLo(rows[i], cur), OverlapHi(rows[i], hi);
    var hit := Emit(f, a, b, Stamped(rec, Some(rows[i].AS())));
    RowUniform(f, rows, i, a, b);
    EmitPartition(f, a, b, rows, rec, Some(rows[i].AS()));
    if cur < a {
      GapUniform(f, rows, i, cur, a - 1);
      EmitPartition(f, cur, a - 1, rows, rec, None);
      StampNone(rec);
      JoinPartitions(Emit(f, cur, a - 1, rec), hit, f, rows, cur, a, b, rec);
    } else {
      assert [] + hit == hit;
    }
  }

  lemma {:induction false} ScanPartition(f: Family, rows: seq<Row>, i: nat, cur: nat, hi: nat, rec: Record)
    requires TableRows(rows, f) && Passed(rows, i, cur) && cur <= hi < Pow2(Width(f))
    ensures Partition(Scan(f, rows[i..], cur, hi, rec), f, rows, cur, hi, rec)
    decreases |rows| - i
  {
    hide Emit, Stamped, Partition, Uniform, RowPieces, Disjoint, Pow2, Width;
    if i == |rows| || (rows[i].first.n > hi && rows[i].last.n >= cur) {
      GapUniform(f, rows, i, cur, hi);
      EmitPartition(f, cur, hi, rows, rec, None);
      StampNone(rec);
    } else {
      assert rows[i..][1..] == rows[i + 1..] && rows[i..][0] == rows[i];
      if rows[i].last.n < cur {
        ScanPartition(f, rows, i + 1, cur, hi, rec);
      } else {
        var b := OverlapHi(rows[i], hi);
        var head := RowPieces(f, rows[i], cur, hi, rec);
        RowPartition(f, rows, i, cur, hi, rec);
        if b < hi {
          ScanPartition(f, rows, i + 1, b + 1, hi, rec);
          JoinPartitions(head, Scan(f, rows[i + 1..], b + 1, hi, rec), f, rows, cur, b + 1, hi, rec);
        } else {
          assert head + [] == head;
        }
      }
    }
  }

  /** enrichEntry on a valid network that some row touches: aligned CIDRs in ascending order, disjoint
      and without gaps, from the first to the last address of the normalized network; each inside
      one row and stamped with it, or touched by none and unchanged. */
  lemma EntryPartition(e: Entry, v4: seq<Row>, v6: seq<Row>)
    requires TableRows(v4, V4) && TableRows(v6, V6)
    requires NormalizePrefix(e.network).Some? && NormalizePrefix(e.network).value.IsValid()
    requires var p := NormalizePrefix(e.network).value; !Untouched(RowsFor(p.addr.fam, v4, v6), p.First(), p.Last())
    ensures var p := NormalizePrefix(e.network).value;
            Partition(Pieces(e, v4, v6), p.addr.fam, RowsFor(p.addr.fam, v4, v6), p.First(), p.Last(), e.record)
  {
    hide Scan, Partition, Untouched, Disjoint;
    var p := NormalizePrefix(e.network).value;
    var rows := RowsFor(p.addr.fam, v4, v6);
    PrefixInFamily(p);
    ScanPartition(p.addr.fam, rows, 0, p.First(), p.Last(), e.record);
    assert rows[0..] == rows;
  }
}
