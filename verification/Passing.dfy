// What enrichment leaves as it is: stream errors, entries Build skips or aborts
// on, and networks that no announcement touches.
module Passing {
  import opened Bits
  import opened Net
  import opened Cidr
  import opened Records
  import opened Streams
  import opened AsnRanges
  import opened Coalescing
  import opened Enriching
  import opened Partitioning
  import opened Building
  import opened Commuting

  /** An error, an invalid network, or a v4-mapped network of fewer than 96 bits. */
  predicate Odd(item: Item) {
    item.Err? || !item.entry.network.IsValid() || (Is4In6(item.entry.network.addr) && item.entry.network.bits < 96)
  }

  function OddOnes(items: seq<Item>): seq<Item> {
    if items == [] then []
    else OddOnes(items[..|items| - 1]) + if Odd(items[|items| - 1]) then [items[|items| - 1]] else []
  }

  /** netip.Prefix.Bits is -1 in an invalid prefix. */
  predicate Proper(item: Item) {
    item.Ok? ==> item.entry.network.IsValid() || item.entry.network.bits == -1
  }

  lemma {:induction false} OddConcat(a: seq<Item>, b: seq<Item>)
    ensures OddOnes(a + b) == OddOnes(a) + OddOnes(b)
    decreases |b|
  {
    hide Odd;
    if b == [] {
      assert a + b == a;
    } else {
      var n := |b| - 1;
      assert (a + b)[..|a + b| - 1] == a + b[..n];
      OddConcat(a, b[..n]);
    }
  }

  lemma {:induction false} NoneOdd(items: seq<Item>)
    requires forall i :: 0 <= i < |items| ==> !Odd(items[i])
    ensures OddOnes(items) == []
  {
    hide Odd;
    if items != [] { NoneOdd(items[..|items| - 1]); }
  }

  lemma OneItem(item: Item)
    ensures OddOnes([item]) == if Odd(item) then [item] else []
  {
    assert [item][..0] == [];
  }

  /** A masked piece that starts in mapped space is no longer than /96. */
  lemma MaskedNotOdd(i: Item)
    requires i.Ok? && i.entry.network.IsValid() && i.entry.network.First() == i.entry.network.addr.n
    ensures !Odd(i)
  {
    var p := i.entry.network;
    PrefixInFamily(p);
    hide Pow2, Aligned, Floor, MappedBase;
    if Is4In6(p.addr) { MappedStart(Block(p.addr.n, p.Host())); }
  }

  /** The pieces of one entry: the entry itself if it is odd, and otherwise none that is. */
  lemma PiecesOdd(e: Entry, v4: seq<Row>, v6: seq<Row>)
    requires TableRows(v4, V4) && TableRows(v6, V6) && Proper(Ok(e))
    ensures OddOnes(Pieces(e, v4, v6)) == if Odd(Ok(e)) then [Ok(e)] else []
  {
    hide Scan, Disjoint, Pow2, MappedBase, Floor, OddOnes, Uniform, Stamped;
    var ps := Pieces(e, v4, v6);
    OneItem(Ok(e));
    if !Odd(Ok(e)) {
      var p := NormalizePrefix(e.network).value;
      PrefixInFamily(p);
      OneItem(Ok(Entry(p, e.record)));
      if !Untouched(RowsFor(p.addr.fam, v4, v6), p.First(), p.Last()) {
        EntryPartition(e, v4, v6);
        forall i | 0 <= i < |ps| ensures !Odd(ps[i]) {
          MaskedNotOdd(ps[i]);
        }
        NoneOdd(ps);
      }
    }
  }

  /** Enrichment passes on, untouched and in order, all that Build aborts on or skips as malformed. */
  lemma {:induction false} EnrichedOdd(items: seq<Item>, v4: seq<Row>, v6: seq<Row>)
    requires TableRows(v4, V4) && TableRows(v6, V6) && forall i :: 0 <= i < |items| ==> Proper(items[i])
    ensures OddOnes(Enriched(items, v4, v6)) == OddOnes(items)
  {
    hide Pieces, Odd, Proper;
    if items != [] {
      var n := |items| - 1;
      EnrichedOdd(items[..n], v4, v6);
      var next := match items[n] { case Err(_) => [items[n]] case Ok(e) => Pieces(e, v4, v6) };
      OddConcat(Enriched(items[..n], v4, v6), next);
      OneItem(items[n]);
      match items[n] {
        case Err(_) => ErrIsOdd(items[n]);
        case Ok(e) => PiecesOdd(e, v4, v6);
      }
    }
  }

  lemma ErrIsOdd(item: Item)
    requires item.Err?
    ensures Odd(item)
  {
  }

  // ----- the skip counter -----

  function SkipCount(items: seq<Item>, reject: Prefix -> bool): nat {
    if items == [] then 0
    else SkipCount(items[..|items| - 1], reject) + if Skips(items[|items| - 1], reject) then 1 else 0
  }

  lemma {:induction false} SkipCounted(items: seq<Item>, reject: Prefix -> bool)
    requires BuildFold(items, reject).Built?
    ensures BuildFold(items, reject).skipped == SkipCount(items, reject)
  {
    hide InsertEntry;
    if items != [] { SkipCounted(items[..|items| - 1], reject); }
  }

  lemma {:induction false} SkipConcat(a: seq<Item>, b: seq<Item>, reject: Prefix -> bool)
    ensures SkipCount(a + b, reject) == SkipCount(a, reject) + SkipCount(b, reject)
    decreases |b|
  {
    hide Skips;
    if b == [] {
      assert a + b == a;
    } else {
      var n := |b| - 1;
      assert (a + b)[..|a + b| - 1] == a + b[..n];
      SkipConcat(a, b[..n], reject);
    }
  }

  lemma {:induction false} SkipBounds(items: seq<Item>, reject: Prefix -> bool)
    ensures SkipCount(items, reject) <= |items|
    ensures Taken(items, reject) ==> SkipCount(items, reject) == 0
    ensures NoneTaken(items, reject) ==> SkipCount(items, reject) == |items|
  {
    hide Skips;
    if items != [] {
      var n := |items| - 1;
      SkipBounds(items[..n], reject);
      assert forall i :: 0 <= i < n ==> items[..n][i] == items[i];
    }
  }

  /** A tree that refuses nothing skips exactly the malformed entries. */
  lemma {:induction false} OddAreSkipped(items: seq<Item>, reject: Prefix -> bool)
    requires Clean(items) && forall p: Prefix :: !reject(p)
    ensures SkipCount(items, reject) == |OddOnes(items)|
  {
    hide Pow2, MappedBase;
    if items != [] {
      var n := |items| - 1;
      assert Clean(items[..n]) by { assert forall i :: 0 <= i < n ==> items[..n][i] == items[i]; }
      OddAreSkipped(items[..n], reject);
      assert !Aborts(items[n]);
      assert Skips(items[n], reject) <==> Odd(items[n]);
    }
  }

  /** A stream is clean exactly when its odd items are. */
  lemma {:induction false} CleanByOdd(items: seq<Item>)
    ensures Clean(items) <==> Clean(OddOnes(items))
  {
    if items != [] {
      var n := |items| - 1;
      CleanByOdd(items[..n]);
      AbortsIsOdd(items[n]);
      CleanSnoc(items[..n], items[n]);
      CleanSnoc(OddOnes(items[..n]), items[n]);
      assert items == items[..n] + [items[n]];
      assert OddOnes(items[..n]) + [] == OddOnes(items[..n]);
    }
  }

  lemma AbortsIsOdd(item: Item)
    ensures Aborts(item) ==> Odd(item)
  {
  }

  lemma CleanSnoc(items: seq<Item>, item: Item)
    ensures Clean(items + [item]) <==> Clean(items) && !Aborts(item)
  {
    hide Aborts;
    var all := items + [item];
    assert all[|items|] == item && forall i :: 0 <= i < |items| ==> all[i] == items[i];
  }

  /** What the skip guard sees: with a tree that refuses nothing, a build of the enriched stream goes
      through exactly when a build of the stream does, and skips as many networks. */
  lemma EnrichedSkipsAlike(items: seq<Item>, v4: seq<Row>, v6: seq<Row>, reject: Prefix -> bool)
    requires TableRows(v4, V4) && TableRows(v6, V6) && forall i :: 0 <= i < |items| ==> Proper(items[i])
    requires forall p: Prefix :: !reject(p)
    ensures var plain, en := BuildFold(items, reject), BuildFold(Enriched(items, v4, v6), reject);
            && (en.Built? <==> plain.Built?)
            && (plain.Built? ==> en.skipped == plain.skipped)
  {
    hide BuildFold, Enriched, Clean, OddOnes, Odd, Proper, InsertedAt, SomeInserted;
    var en := Enriched(items, v4, v6);
    EnrichedOdd(items, v4, v6);
    CleanByOdd(items);
    CleanByOdd(en);
    BuildOutcome(items, reject);
    BuildOutcome(en, reject);
    if BuildFold(items, reject).Built? {
      SkipCounted(items, reject);
      SkipCounted(en, reject);
      OddAreSkipped(items, reject);
      OddAreSkipped(en, reject);
    }
  }

  lemma PiecesSkips(e: Entry, v4: seq<Row>, v6: seq<Row>, reject: Prefix -> bool)
    requires TableRows(v4, V4) && TableRows(v6, V6) && Plain(e, v4, v6, reject) && !Aborts(Ok(e))
    ensures if Skips(Ok(e), reject) then 1 <= SkipCount(Pieces(e, v4, v6), reject) == |Pieces(e, v4, v6)|
            else SkipCount(Pieces(e, v4, v6), reject) == 0
  {
    hide Scan, Disjoint, Pow2, MappedBase, Floor, Clear, Uncut, SkipCount;
    SkipBounds(Pieces(e, v4, v6), reject);
    if NormalizePrefix(e.network).Some? { PiecesValid(e, v4, v6); }
  }

  /** With any tree, enrichment hides no skip: a refused network stays refused in all its pieces, so
      splitting it can only raise the count. */
  lemma {:induction false} EnrichedSkipsNoFewer(items: seq<Item>, v4: seq<Row>, v6: seq<Row>, reject: Prefix -> bool)
    requires TableRows(v4, V4) && TableRows(v6, V6) && PlainStream(items, v4, v6, reject) && Clean(items)
    ensures SkipCount(Enriched(items, v4, v6), reject) >= SkipCount(items, reject)
    ensures SkipCount(Enriched(items, v4, v6), reject) == 0 <==> SkipCount(items, reject) == 0
  {
    hide Pieces, Skips, Plain, Aborts;
    if items != [] {
      var n := |items| - 1;
      assert forall i :: 0 <= i < n ==> items[..n][i] == items[i];
      assert PlainStream(items[..n], v4, v6, reject) && Clean(items[..n]);
      EnrichedSkipsNoFewer(items[..n], v4, v6, reject);
      assert !Aborts(items[n]);
      OkItem(items[n]);
      SkipConcat(Enriched(items[..n], v4, v6), Pieces(items[n].entry, v4, v6), reject);
      PiecesSkips(items[n].entry, v4, v6, reject);
    }
  }

  lemma OkItem(item: Item)
    requires !Aborts(item)
    ensures item.Ok?
  {
  }

  // ----- networks no announcement touches, and what a stamp changes -----

  /** If no address of a network has an owner, the entry passes as one item with its own record. */
  lemma UntouchedPasses(e: Entry, v4: seq<Row>, v6: seq<Row>)
    requires TableRows(v4, V4) && TableRows(v6, V6) && e.network.IsValid() && NormalizePrefix(e.network).Some?
    requires var p := NormalizePrefix(e.network).value;
             forall x: nat :: p.Holds(x) ==> Owner(RowsFor(p.addr.fam, v4, v6), KeyOf(p.addr.fam, x)) == None
    ensures Pieces(e, v4, v6) == [Ok(e.(network := NormalizePrefix(e.network).value))]
  {
    hide Scan, Floor, Pow2, MappedBase, Owner, KeyOf, Disjoint;
    var p := NormalizePrefix(e.network).value;
    var f := p.addr.fam;
    var rows := RowsFor(f, v4, v6);
    PrefixInFamily(p);
    forall i | 0 <= i < |rows| && rows[i].Valid() ensures rows[i].last.n < p.First() || p.Last() < rows[i].first.n {
      if !(rows[i].last.n < p.First() || p.Last() < rows[i].first.n) {
        var x := if rows[i].first.n <= p.First() then p.First() else rows[i].first.n;
        RowKeys(f, rows[i], x);
        assert p.Holds(x);
        OwnerAt(rows, i, KeyOf(f, x));
        assert false;
      }
    }
  }

  /** A stamp sets `asn`, sets `as_org` if the row names one, and changes nothing else. */
  lemma StampedRecord(rec: Record, asn: nat, org: string)
    ensures var r := Stamped(rec, Some((asn, org)));
            && r.(ext := rec.ext) == rec
            && r.ext.Keys == rec.ext.Keys + {"asn"} + (if org == "" then {} else {"as_org"})
            && r.ext["asn"] == Decimal(asn)
            && (org != "" ==> r.ext["as_org"] == org)
            && forall k :: k in rec.ext && k != "asn" && (k != "as_org" || org == "") ==> r.ext[k] == rec.ext[k]
  {
    hide Decimal;
  }
}
