// CoalesceASNRanges on rows whose First may come after their Last, as the
// standalone plugin may pass them: exactly when the meaning is kept.
module Inverted {
  import opened Bits
  import opened Net
  import opened AsnRanges
  import opened Coalescing

  /** Both bounds are addresses of one family; the row is empty if they are in the wrong order. */
  predicate Placed(r: Row) {
    r.first.IP? && r.last.IP? && r.first.fam == r.last.fam
  }

  ghost predicate AllPlaced(rows: seq<Row>) {
    forall i :: 0 <= i < |rows| ==> Placed(rows[i])
  }

  /** The merge branch taken with a row that ends before its neighbour does: `prev.Last = r.Last`
      then moves the end of a good row down. */
  predicate Shrinks(out: seq<Row>, r: Row) {
    out != [] &&
    var prev := out[|out| - 1];
    prev.Valid() && !Swallowed(prev, r) && SameFamily(prev, r) && Adjoins(prev, Clamp(prev, r)) && r.Hi() < prev.Hi()
  }

  ghost predicate NeverShrinks(rows: seq<Row>) {
    forall i :: 0 <= i < |rows| ==> !Shrinks(Coalesced(rows[..i]), rows[i])
  }

  /** Every row kept ends before the last one starts. */
  ghost predicate Below(out: seq<Row>) {
    forall j :: 0 <= j < |out| - 1 ==> out[j].Hi() < out[|out| - 1].Lo()
  }

  /** What every iteration keeps while no row shrinks its neighbour. */
  ghost predicate Kept(rows: seq<Row>, out: seq<Row>) {
    && |rows| > 0 && |out| > 0 && Placed(rows[|rows| - 1]) && AllPlaced(out)
    && SameOwners(out, rows) && Covered(rows, out) && Below(out)
    && out[|out| - 1].last.fam == rows[|rows| - 1].first.fam
    && (out[|out| - 1].Lo() > out[|out| - 1].Hi() ==> out[|out| - 1].Lo() <= rows[|rows| - 1].Lo())
  }

  /** Keys around the last kept row and the row read next. */
  lemma NextRow(rows: seq<Row>, out: seq<Row>, r: Row)
    requires Kept(rows, out) && Placed(r) && Le(rows[|rows| - 1].first, r.first)
    ensures var prev := out[|out| - 1]; var c := Clamp(prev, r);
            && (SameFamily(prev, r) <==> prev.last.fam == r.first.fam)
            && (!SameFamily(prev, r) ==> prev.Hi() < r.Lo())
            && (Swallowed(prev, r) ==> r.Hi() <= prev.Hi())
            && (!Swallowed(prev, r) ==> Placed(c) && c.first.fam == r.first.fam && c.last == r.last && c.AS() == r.AS())
            && (!Swallowed(prev, r)
                ==> prev.Hi() < c.Lo() && r.Lo() <= c.Lo() && (c.Lo() == r.Lo() || c.Lo() == prev.Hi() + 1))
            && (!Swallowed(prev, r) && r.Lo() > r.Hi() ==> c == r)
            && (!Swallowed(prev, r) && Adjoins(prev, c) ==> c.Lo() == prev.Hi() + 1)
  {
    hide Owner, SameOwners, Covered, Below;
    var prev := out[|out| - 1];
    assert Placed(prev);
    FamilyKeys(rows[|rows| - 1].first);
    NextPair(prev, r);
  }

  /** What the clamp does when nothing overlaps, and when something does. */
  lemma NextPair(prev: Row, r: Row)
    requires Placed(prev) && Placed(r) && (prev.last.fam == V6 ==> r.first.fam == V6)
    ensures var c := Clamp(prev, r);
            && (SameFamily(prev, r) <==> prev.last.fam == r.first.fam)
            && (!SameFamily(prev, r) ==> prev.Hi() < r.Lo())
            && (Swallowed(prev, r) ==> r.Hi() <= prev.Hi())
            && (!Swallowed(prev, r) ==> Placed(c) && c.first.fam == r.first.fam && c.last == r.last && c.AS() == r.AS())
            && (!Swallowed(prev, r)
                ==> prev.Hi() < c.Lo() && r.Lo() <= c.Lo() && (c.Lo() == r.Lo() || c.Lo() == prev.Hi() + 1))
            && (!Swallowed(prev, r) && r.Lo() > r.Hi() ==> c == r)
            && (!Swallowed(prev, r) && Adjoins(prev, c) ==> c.Lo() == prev.Hi() + 1)
  {
    FamilyKeys(r.first);
    FamilyKeys(prev.last);
    NextKey(prev.last);
    hide Pow2;
    if Overlaps(prev, r) {
      assert prev.last.fam == r.first.fam;
      LastInFamily(prev.last, r.last);
    }
  }

  /** No address of a family lies above its last one. */
  lemma LastInFamily(a: Addr, b: Addr)
    requires a.IP? && b.IP? && a.fam == b.fam
    ensures !Next(a).IP? ==> Key(b) <= Key(a)
  {
  }

  lemma CoveredUpTo(rows: seq<Row>, out: seq<Row>, x: int)
    requires Covered(rows, out) && rows[|rows| - 1].Lo() <= x <= out[|out| - 1].Hi()
    ensures Owner(out, x).Some?
  {
  }

  lemma KeptSwallow(rows: seq<Row>, out: seq<Row>, r: Row)
    requires Kept(rows, out) && Placed(r) && Le(rows[|rows| - 1].first, r.first) && Swallowed(out[|out| - 1], r)
    ensures Kept(rows + [r], out)
  {
    NextRow(rows, out, r);
    hide Owner, Key;
    forall x ensures Owner(out, x) == Owner(rows + [r], x) {
      OwnerSnoc(rows, r, x);
      if r.Lo() <= x <= r.Hi() { CoveredUpTo(rows, out, x); }
    }
  }

  lemma KeptAppend(rows: seq<Row>, out: seq<Row>, r: Row)
    requires Kept(rows, out) && Placed(r) && Le(rows[|rows| - 1].first, r.first) && !Swallowed(out[|out| - 1], r)
    ensures Kept(rows + [r], out + [Clamp(out[|out| - 1], r)])
  {
    NextRow(rows, out, r);
    var c := Clamp(out[|out| - 1], r);
    AppendKeepsOwners(rows, out, r, c);
    AppendBelow(rows, out, r, c);
    hide Owner, Key, Clamp, Swallowed, SameOwners, Covered, Below;
  }

  lemma AppendKeepsOwners(rows: seq<Row>, out: seq<Row>, r: Row, c: Row)
    requires |rows| > 0 && |out| > 0 && SameOwners(out, rows) && Covered(rows, out) && rows[|rows| - 1].Lo() <= r.Lo()
    requires c.AS() == r.AS() && c.last == r.last
             && (c.Lo() == r.Lo() || (c.Lo() == out[|out| - 1].Hi() + 1 && r.Lo() <= c.Lo()))
    ensures SameOwners(out + [c], rows + [r]) && Covered(rows + [r], out + [c])
  {
    hide Owner, Key;
    forall x
      ensures Owner(out + [c], x) == Owner(rows + [r], x)
      ensures r.Lo() <= x <= c.Hi() ==> Owner(out + [c], x).Some?
    {
      OwnerSnoc(rows, r, x);
      OwnerSnoc(out, c, x);
      if r.Lo() <= x < c.Lo() { CoveredUpTo(rows, out, x); }
    }
  }

  lemma AppendBelow(rows: seq<Row>, out: seq<Row>, r: Row, c: Row)
    requires |rows| > 0 && |out| > 0 && Below(out) && out[|out| - 1].Hi() < c.Lo() && r.Lo() <= c.Lo()
    requires out[|out| - 1].Lo() > out[|out| - 1].Hi() ==> out[|out| - 1].Lo() <= r.Lo()
    ensures Below(out + [c])
  {
    hide Key;
    forall j | 0 <= j < |out| ensures out[j].Hi() < c.Lo() {
      if j < |out| - 1 { assert out[j].Hi() < out[|out| - 1].Lo(); }
    }
  }

  lemma KeptMerge(rows: seq<Row>, init: seq<Row>, prev: Row, r: Row)
    requires Kept(rows, init + [prev]) && Placed(r) && Le(rows[|rows| - 1].first, r.first)
    requires !Swallowed(prev, r) && SameFamily(prev, r) && Adjoins(prev, Clamp(prev, r)) && !Shrinks(init + [prev], r)
    ensures Kept(rows + [r], init + [prev.(last := r.last)])
  {
    var out := init + [prev];
    assert out[|out| - 1] == prev;
    NextRow(rows, out, r);
    NotShrunk(init, prev, r);
    MergeKeepsOwners(rows, init, prev, r, Clamp(prev, r));
    MergeBelow(init, prev, r);
    MergePlaced(init, prev, r);
    hide Owner, Key, Clamp, Swallowed, SameOwners, Covered, Below, Shrinks, AllPlaced;
    var wide := prev.(last := r.last);
    assert (init + [wide])[|init|] == wide;
    assert (rows + [r])[|rows|] == r;
  }

  lemma MergePlaced(init: seq<Row>, prev: Row, r: Row)
    requires Placed(prev) && AllPlaced(init + [prev]) && Placed(r) && prev.last.fam == r.first.fam
    ensures AllPlaced(init + [prev.(last := r.last)])
  {
    var out := init + [prev];
    assert forall j :: 0 <= j < |init| ==> out[j] == init[j];
    assert Placed(out[|init|]);
  }

  lemma NotShrunk(init: seq<Row>, prev: Row, r: Row)
    requires Placed(prev) && !Swallowed(prev, r) && SameFamily(prev, r) && Adjoins(prev, Clamp(prev, r))
             && !Shrinks(init + [prev], r)
    ensures prev.Lo() <= prev.Hi() ==> r.Hi() >= prev.Hi()
  {
    assert (init + [prev])[|init|] == prev;
    if prev.Lo() <= prev.Hi() { assert prev.Valid(); }
  }

  lemma MergeBelow(init: seq<Row>, prev: Row, r: Row)
    requires Below(init + [prev])
    ensures Below(init + [prev.(last := r.last)])
  {
    hide Key;
    var out := init + [prev];
    assert forall j :: 0 <= j < |init| ==> out[j] == init[j];
    assert forall j :: 0 <= j < |init| ==> out[j].Hi() < prev.Lo();
  }

  lemma MergeKeepsOwners(rows: seq<Row>, init: seq<Row>, prev: Row, r: Row, c: Row)
    requires |rows| > 0 && SameOwners(init + [prev], rows) && Covered(rows, init + [prev])
             && rows[|rows| - 1].Lo() <= r.Lo()
    requires c.Lo() == prev.Hi() + 1 && r.Lo() <= c.Lo() && (c.Lo() == r.Lo() || r.Lo() <= r.Hi())
             && prev.AS() == r.AS()
    requires prev.Lo() <= prev.Hi() ==> r.Hi() >= prev.Hi()
    requires prev.Lo() > prev.Hi() ==> prev.Lo() <= r.Lo()
    ensures var wide := prev.(last := r.last);
            SameOwners(init + [wide], rows + [r]) && Covered(rows + [r], init + [wide])
  {
    hide Owner, Key;
    var out, wide := init + [prev], prev.(last := r.last);
    forall x
      ensures Owner(init + [wide], x) == Owner(rows + [r], x)
      ensures r.Lo() <= x <= r.Hi() ==> Owner(rows + [r], x).Some?
    {
      OwnerSnoc(rows, r, x);
      OwnerSnoc(init, prev, x);
      OwnerSnoc(init, wide, x);
      if r.Lo() <= x <= prev.Hi() { CoveredUpTo(rows, out, x); }
    }
  }

  lemma KeptStep(rows: seq<Row>, out: seq<Row>, r: Row)
    requires Kept(rows, out) && Placed(r) && Le(rows[|rows| - 1].first, r.first) && !Shrinks(out, r)
    ensures Kept(rows + [r], Step(out, r))
  {
    hide Kept, Clamp, Swallowed, SameFamily, Adjoins, Shrinks, Key;
    assert out != [] by { KeptSome(rows, out); }
    var m := |out| - 1;
    var prev := out[m];
    if Swallowed(prev, r) {
      KeptSwallow(rows, out, r);
    } else if SameFamily(prev, r) && Adjoins(prev, Clamp(prev, r)) {
      assert out == out[..m] + [prev];
      KeptMerge(rows, out[..m], prev, r);
      assert out[m := prev.(last := r.last)] == out[..m] + [prev.(last := r.last)];
    } else {
      KeptAppend(rows, out, r);
    }
  }

  lemma KeptSome(rows: seq<Row>, out: seq<Row>)
    requires Kept(rows, out)
    ensures out != [] && rows != [] && SameOwners(out, rows) && Below(out)
  {
  }

  lemma KeptOne(r: Row)
    requires Placed(r)
    ensures Kept([r], Coalesced([r]))
  {
    assert [r][..0] == [];
    assert Coalesced([r]) == [r];
  }

  lemma CoalescedSnoc(rows: seq<Row>, r: Row)
    ensures Coalesced(rows + [r]) == Step(Coalesced(rows), r)
  {
    hide Step;
    assert (rows + [r])[..|rows|] == rows;
  }

  lemma {:induction false} KeptAll(rows: seq<Row>, n: nat)
    requires AllPlaced(rows) && SortedByFirst(rows) && 0 < n <= |rows|
    requires forall i :: 0 <= i < n ==> !Shrinks(Coalesced(rows[..i]), rows[i])
    ensures Kept(rows[..n], Coalesced(rows[..n]))
    decreases n
  {
    hide Kept, Shrinks, Key, Step, Placed;
    var r, pre := rows[n - 1], rows[..n - 1];
    if n == 1 {
      assert rows[..1] == [r];
      KeptOne(r);
    } else {
      KeptAll(rows, n - 1);
      assert Le(pre[n - 2].first, r.first);
      CoalescedSnoc(pre, r);
      assert rows[..n] == pre + [r];
      hide Coalesced;
      KeptStep(pre, Coalesced(pre), r);
    }
  }

  // ----- a shrunk row loses addresses for good -----

  /** No kept row holds `x`, and no later row can make one hold it. */
  ghost predicate Lost(out: seq<Row>, x: int) {
    && |out| > 0
    && Owner(out, x) == None
    && !(out[|out| - 1].Lo() <= x <= out[|out| - 1].Hi())
  }

  lemma LostNow(rows: seq<Row>, out: seq<Row>, r: Row)
    requires Kept(rows, out) && Placed(r) && Le(rows[|rows| - 1].first, r.first) && Shrinks(out, r)
    ensures var x := out[|out| - 1].Hi(); Owner(rows, x).Some? && Lost(Step(out, r), x) && x < r.Lo()
  {
    hide Owner, Key, Clamp, Swallowed, SameFamily, Adjoins, Lost, Shrinks, Kept, Below, SameOwners, Step, Placed;
    KeptSome(rows, out);
    ShrinkBounds(out, r);
    var m := |out| - 1;
    var prev := out[m];
    var init := out[..m];
    assert out == init + [prev] && Step(out, r) == init + [prev.(last := r.last)];
    LostRow(init, prev, prev.(last := r.last));
    SameOwnersAt(out, rows, prev.Hi());
  }

  /** Only a row that is itself inverted shrinks its neighbour: it starts above it. */
  lemma ShrinkBounds(out: seq<Row>, r: Row)
    requires Shrinks(out, r) && Placed(r)
    ensures var prev := out[|out| - 1]; prev.Lo() <= prev.Hi() && r.Hi() < prev.Hi() < r.Lo()
    ensures Step(out, r) == out[|out| - 1 := out[|out| - 1].(last := r.last)]
  {
    var prev := out[|out| - 1];
    FamilyKeys(r.first);
    FamilyKeys(prev.last);
    NextKey(prev.last);
  }

  lemma LostRow(init: seq<Row>, prev: Row, short: Row)
    requires Below(init + [prev]) && prev.Lo() <= prev.Hi() && short.Hi() < prev.Hi()
    ensures Owner(init + [prev], prev.Hi()).Some? && Lost(init + [short], prev.Hi())
  {
    hide Owner, Key, Below;
    OwnerSnoc(init, prev, prev.Hi());
    OwnerSnoc(init, short, prev.Hi());
    NotBefore(init, prev);
  }

  lemma NotBefore(init: seq<Row>, prev: Row)
    requires Below(init + [prev]) && prev.Lo() <= prev.Hi()
    ensures Owner(init, prev.Hi()) == None
  {
    hide Key;
    var out := init + [prev];
    assert forall j :: 0 <= j < |init| ==> out[j] == init[j] && out[j].Hi() < prev.Lo();
    NoOwner(init, prev.Hi());
  }

  lemma {:induction false} NoOwner(rows: seq<Row>, x: int)
    requires forall j :: 0 <= j < |rows| ==> rows[j].Hi() < x
    ensures Owner(rows, x) == None
  {
    hide Key;
    if rows != [] { NoOwner(rows[1..], x); }
  }

  /** A row starting above `x` neither holds `x` itself nor takes the last kept row up to it,
      unless that row starts above `x` as well. */
  lemma NotReached(prev: Row, r: Row, x: int)
    requires Placed(prev) && Placed(r) && x < r.Lo() && !(prev.Lo() <= x <= prev.Hi()) && !Swallowed(prev, r)
    ensures var c := Clamp(prev, r); Placed(c) && x < c.Lo() && (Adjoins(prev, c) ==> !(prev.Lo() <= x <= r.Hi()))
    ensures Adjoins(prev, Clamp(prev, r)) && SameFamily(prev, r) ==> prev.last.fam == r.first.fam
  {
    hide Pow2;
    FamilyKeys(r.first);
    FamilyKeys(prev.last);
    NextKey(prev.last);
  }

  lemma LostStays(out: seq<Row>, r: Row, x: int)
    requires Lost(out, x) && AllPlaced(out) && Placed(r) && x < r.Lo()
    ensures Lost(Step(out, r), x) && AllPlaced(Step(out, r))
  {
    hide Owner, Key, Clamp, Swallowed, SameFamily, Adjoins;
    var m := |out| - 1;
    var prev, c := out[m], Clamp(out[m], r);
    if !Swallowed(prev, r) {
      NotReached(prev, r, x);
      var init, wide := out[..m], prev.(last := r.last);
      assert out == init + [prev] && out[m := wide] == init + [wide];
      OwnerSnoc(init, prev, x);
      OwnerSnoc(init, wide, x);
      OwnerSnoc(out, c, x);
    }
  }

  lemma {:induction false} PlacedStep(rows: seq<Row>, n: nat)
    requires AllPlaced(rows) && n <= |rows|
    ensures AllPlaced(Coalesced(rows[..n]))
    decreases n
  {
    if n > 0 {
      PlacedStep(rows, n - 1);
      assert rows[..n][..n - 1] == rows[..n - 1];
      var out := Coalesced(rows[..n - 1]);
      if out != [] { NextKey(out[|out| - 1].last); }
    }
  }

  lemma {:induction false} LostForever(rows: seq<Row>, i: nat, n: nat, x: int)
    requires AllPlaced(rows) && SortedByFirst(rows) && i < n <= |rows| && x < rows[i].Lo()
    requires Lost(Coalesced(rows[..i + 1]), x)
    ensures Lost(Coalesced(rows[..n]), x)
    decreases n
  {
    hide Lost, Step, Key;
    if n > i + 1 {
      LostForever(rows, i, n - 1, x);
      PlacedStep(rows, n - 1);
      assert rows[..n][..n - 1] == rows[..n - 1];
      assert Le(rows[i].first, rows[n - 1].first);
      LostStays(Coalesced(rows[..n - 1]), rows[n - 1], x);
    }
  }

  lemma {:induction false} OwnerOfPrefix(rows: seq<Row>, n: nat, x: int)
    requires n <= |rows| && Owner(rows[..n], x).Some?
    ensures Owner(rows, x).Some?
    decreases |rows| - n
  {
    hide Owner;
    if n < |rows| {
      assert rows[..n + 1] == rows[..n] + [rows[n]];
      OwnerSnoc(rows[..n], rows[n], x);
      OwnerOfPrefix(rows, n + 1, x);
    } else {
      assert rows[..n] == rows;
    }
  }

  lemma BeforeFirstShrink(rows: seq<Row>, i: nat)
    requires AllPlaced(rows) && SortedByFirst(rows) && i < |rows| && Shrinks(Coalesced(rows[..i]), rows[i])
    requires forall j :: 0 <= j < i ==> !Shrinks(Coalesced(rows[..j]), rows[j])
    ensures i > 0 && Coalesced(rows[..i]) != [] && Kept(rows[..i], Coalesced(rows[..i]))
    ensures Placed(rows[i]) && Le(rows[..i][i - 1].first, rows[i].first)
  {
    assert i > 0 by { assert rows[..0] == []; }
    hide Shrinks, Step, Key, Kept, Coalesced;
    KeptAll(rows, i);
  }

  lemma ShrinkingLoses(rows: seq<Row>, i: nat)
    requires AllPlaced(rows) && SortedByFirst(rows) && i < |rows| && Shrinks(Coalesced(rows[..i]), rows[i])
    requires forall j :: 0 <= j < i ==> !Shrinks(Coalesced(rows[..j]), rows[j])
    ensures !SameOwners(Coalesced(rows), rows)
  {
    hide Owner, Shrinks, Step, Key, Kept, SortedByFirst, AllPlaced, Placed, SameFamily, Adjoins, Clamp, Swallowed;
    BeforeFirstShrink(rows, i);
    var out, r := Coalesced(rows[..i]), rows[i];
    LostNow(rows[..i], out, r);
    var x := out[|out| - 1].Hi();
    assert rows[..i + 1][..i] == rows[..i];
    LostForever(rows, i, |rows|, x);
    assert rows[..|rows|] == rows;
    OwnerOfPrefix(rows, i, x);
    assert Owner(Coalesced(rows), x) != Owner(rows, x);
  }

  /** The meaning is kept as long as the merge branch is never taken with a row that ends before the
      good row it is merged into. */
  lemma KeptUnlessShrunk(rows: seq<Row>)
    requires AllPlaced(rows) && SortedByFirst(rows)
    ensures SameOwners(Coalesced(rows), rows) <==> NeverShrinks(rows)
  {
    hide Shrinks, Kept, Step, Coalesced, SameOwners;
    if NeverShrinks(rows) {
      if rows == [] {
        NoRows();
      } else {
        KeptAll(rows, |rows|);
        assert rows[..|rows|] == rows;
        KeptSome(rows, Coalesced(rows));
      }
    } else {
      var i := FirstShrink(rows);
      ShrinkingLoses(rows, i);
    }
  }

  lemma NoRows()
    ensures SameOwners(Coalesced([]), [])
  {
  }

  lemma FirstShrink(rows: seq<Row>) returns (i: nat)
    requires !NeverShrinks(rows)
    ensures i < |rows| && Shrinks(Coalesced(rows[..i]), rows[i])
    ensures forall j :: 0 <= j < i ==> !Shrinks(Coalesced(rows[..j]), rows[j])
  {
    hide Shrinks, Coalesced;
    i := 0;
    while i < |rows| && !Shrinks(Coalesced(rows[..i]), rows[i])
      invariant i <= |rows|
      invariant forall j :: 0 <= j < i ==> !Shrinks(Coalesced(rows[..j]), rows[j])
    {
      i := i + 1;
    }
  }

  // ----- the condition on the input -----

  /** What earlier rows must be for row `r` to be merged into a good row: none of them holds its
      first address, the one before it belongs to the same AS, and rows with the same First are of
      that AS too and end right before it. */
  ghost predicate Resumes(rows: seq<Row>, r: Row) {
    && r.first.IP? && r.first.n > 0
    && Owner(rows, r.Lo()) == None && Owner(rows, r.Lo() - 1) == Some(r.AS())
    && forall j :: 0 <= j < |rows| && rows[j].Lo() == r.Lo() ==> Repeats(rows[j], r)
  }

  predicate Repeats(q: Row, r: Row) {
    q.AS() == r.AS() && q.Hi() == r.Lo() - 1
  }

  /** Row `i` ends more than one address before its First, and would continue an earlier row. */
  ghost predicate CutsShort(rows: seq<Row>, i: nat) {
    i < |rows| && rows[i].Hi() + 1 < rows[i].Lo() && Resumes(rows[..i], rows[i])
  }

  /** The last row kept is good, of the AS of `r`, and ends right before it. */
  predicate Ends(out: seq<Row>, r: Row) {
    && out != [] && r.first.IP? && r.first.n > 0
    && var prev := out[|out| - 1]; prev.Valid() && prev.AS() == r.AS() && prev.Hi() == r.Lo() - 1
  }

  /** Neighbouring addresses of one family. */
  lemma Predecessor(a: Addr, b: Addr)
    requires a.IP? && b.IP? && b.n > 0 && Key(a) == Key(b) - 1
    ensures a.fam == b.fam && Next(a) == b
  {
    FamilyKeys(a);
    FamilyKeys(b);
  }

  lemma ShrinksExactlyWhen(out: seq<Row>, r: Row)
    requires Placed(r)
    ensures Shrinks(out, r) <==> Ends(out, r) && r.Hi() + 1 < r.Lo()
  {
    if Shrinks(out, r) {
      ShrinkBounds(out, r);
      NextKey(out[|out| - 1].last);
    }
    if Ends(out, r) {
      Predecessor(out[|out| - 1].last, r.first);
    }
  }

  /** Reading a row with the same First that ends right before it changes nothing that matters. */
  lemma EndsStep(out: seq<Row>, q: Row, r: Row)
    requires Placed(q) && Ends(out, r) && q.Lo() == r.Lo() && Repeats(q, r)
    ensures Ends(Step(out, q), r)
  {
    SameAddress(q, r);
    Predecessor(out[|out| - 1].last, r.first);
    FamilyKeys(q.last);
    FamilyKeys(q.first);
  }

  lemma SameAddress(q: Row, r: Row)
    requires q.first.IP? && r.first.IP? && q.Lo() == r.Lo()
    ensures q.first == r.first
  {
    FamilyKeys(q.first);
    FamilyKeys(r.first);
  }

  lemma EndsStepBack(rows: seq<Row>, out: seq<Row>, q: Row, r: Row)
    requires Kept(rows, out) && Placed(q) && Le(rows[|rows| - 1].first, q.first)
    requires q.Lo() == r.Lo() && Ends(Step(out, q), r)
    ensures Repeats(q, r) && Ends(out, r)
  {
    NextRow(rows, out, q);
    hide Key, Owner, Swallowed, Below, Covered, SameOwners;
  }

  /** If all rows start below `r`, only the last row kept can end right before it. */
  lemma ResumedIsLast(rows: seq<Row>, out: seq<Row>, r: Row)
    requires Kept(rows, out) && Resumes(rows, r) && rows[|rows| - 1].Lo() < r.Lo()
    ensures Ends(out, r)
  {
    hide Owner, Key;
    var x, m := r.Lo(), |out| - 1;
    assert Owner(out, x) == Owner(rows, x) && Owner(out, x - 1) == Owner(rows, x - 1);
    var k := OwnerIndex(out, x - 1);
    if out[k].Hi() >= x { HeldHasOwner(out, k, x); }
    if x <= out[m].Hi() { CoveredUpTo(rows, out, x); }
    assert out[m].Lo() < x;
    assert k == m;
    assert Placed(out[m]);
    GoodRow(out[m], x - 1);
  }

  lemma GoodRow(r: Row, x: int)
    requires Placed(r) && r.Lo() <= x <= r.Hi()
    ensures r.Valid()
  {
  }

  lemma PrefixFacts(rows: seq<Row>)
    requires rows != [] && AllPlaced(rows) && SortedByFirst(rows) && NeverShrinks(rows)
    ensures var pre := rows[..|rows| - 1];
            && AllPlaced(pre) && SortedByFirst(pre) && NeverShrinks(pre) && rows == pre + [rows[|rows| - 1]]
            && Coalesced(rows) == Step(Coalesced(pre), rows[|rows| - 1])
            && (pre != [] ==> Le(pre[|pre| - 1].first, rows[|rows| - 1].first))
    ensures Kept(rows, Coalesced(rows)) && Placed(rows[|rows| - 1])
  {
    hide Shrinks, Step, Kept, Key, Placed;
    var n := |rows| - 1;
    forall i | 0 <= i < n ensures !Shrinks(Coalesced(rows[..n][..i]), rows[..n][i]) {
      assert rows[..n][..i] == rows[..i];
    }
    assert rows[..n + 1] == rows;
    KeptAll(rows, n + 1);
  }

  lemma {:induction false} ResumesEnds(rows: seq<Row>, r: Row)
    requires AllPlaced(rows) && SortedByFirst(rows) && NeverShrinks(rows) && Placed(r)
    requires Resumes(rows, r) && forall j :: 0 <= j < |rows| ==> Le(rows[j].first, r.first)
    ensures Ends(Coalesced(rows), r)
  {
    hide Kept, Shrinks, Step, Coalesced, Key, NeverShrinks, Owner;
    NoOwnerInNone(r.Lo() - 1);
    var n := |rows| - 1;
    var q, pre := rows[n], rows[..n];
    PrefixFacts(rows);
    if q.Lo() == r.Lo() {
      OwnerSnoc(pre, q, r.Lo());
      OwnerSnoc(pre, q, r.Lo() - 1);
      assert forall j :: 0 <= j < n ==> pre[j] == rows[j];
      ResumesEnds(pre, r);
      EndsStep(Coalesced(pre), q, r);
    } else {
      ResumedIsLast(rows, Coalesced(rows), r);
    }
  }

  lemma NoOwnerInNone(x: int)
    ensures Owner([], x) == None
  {
  }

  lemma {:induction false} EndsRepeats(rows: seq<Row>, r: Row)
    requires AllPlaced(rows) && SortedByFirst(rows) && NeverShrinks(rows) && Ends(Coalesced(rows), r)
    requires forall j :: 0 <= j < |rows| ==> Le(rows[j].first, r.first)
    ensures forall j :: 0 <= j < |rows| && rows[j].Lo() == r.Lo() ==> Repeats(rows[j], r)
  {
    hide Kept, Shrinks, Key, NeverShrinks, Owner, Step, Coalesced, Repeats, Ends, Placed;
    if rows != [] {
      var n := |rows| - 1;
      var q, pre := rows[n], rows[..n];
      PrefixFacts(rows);
      if q.Lo() == r.Lo() {
        if pre == [] {
          OnlyRow(q, r);
        } else {
          PrefixFacts(pre);
          EndsStepBack(pre, Coalesced(pre), q, r);
          EndsRepeats(pre, r);
        }
        assert forall j :: 0 <= j < n ==> pre[j] == rows[j];
      }
    }
  }

  lemma OnlyRow(q: Row, r: Row)
    requires q.Lo() == r.Lo()
    ensures !Ends(Step(Coalesced([]), q), r)
  {
  }

  lemma OwnersAtEnd(out: seq<Row>, r: Row)
    requires Below(out) && Ends(out, r)
    ensures Owner(out, r.Lo()) == None && Owner(out, r.Lo() - 1) == Some(r.AS())
  {
    var m, x := |out| - 1, r.Lo();
    assert out[m].Lo() <= out[m].Hi();
    hide Key, Owner;
    forall j | 0 <= j < |out| ensures out[j].Hi() < x && (j < m ==> out[j].Hi() < x - 1) {}
    NoOwner(out, x);
    OwnerFirst(out, m, x - 1);
  }

  lemma EndsResumes(rows: seq<Row>, r: Row)
    requires AllPlaced(rows) && SortedByFirst(rows) && NeverShrinks(rows) && Ends(Coalesced(rows), r)
    requires rows != [] && forall j :: 0 <= j < |rows| ==> Le(rows[j].first, r.first)
    ensures Resumes(rows, r)
  {
    hide Shrinks, Key, NeverShrinks, Owner, Step, Coalesced, Covered, Below, Repeats, Placed;
    EndsRepeats(rows, r);
    PrefixFacts(rows);
    var out := Coalesced(rows);
    OwnersAtEnd(out, r);
    SameOwnersAt(out, rows, r.Lo());
    SameOwnersAt(out, rows, r.Lo() - 1);
  }

  /** Until a row has been shrunk, the next row shrinks its neighbour exactly when the rows read so
      far let it cut an earlier row short. */
  lemma ShrinksOrNot(rows: seq<Row>, i: nat)
    requires AllPlaced(rows) && SortedByFirst(rows) && i < |rows|
    requires forall j :: 0 <= j < i ==> !Shrinks(Coalesced(rows[..j]), rows[j])
    ensures Shrinks(Coalesced(rows[..i]), rows[i]) <==> CutsShort(rows, i)
  {
    hide Shrinks, Step, Key, Ends, Resumes, Coalesced;
    var pre, r := rows[..i], rows[i];
    assert NeverShrinks(pre) by {
      forall j | 0 <= j < i ensures !Shrinks(Coalesced(pre[..j]), pre[j]) { assert pre[..j] == rows[..j]; }
    }
    ShrinksExactlyWhen(Coalesced(pre), r);
    if Ends(Coalesced(pre), r) {
      if i == 0 { NothingEnds(r); }
      EndsResumes(pre, r);
    }
    if Resumes(pre, r) { ResumesEnds(pre, r); }
  }

  lemma NothingEnds(r: Row)
    ensures !Ends(Coalesced([]), r)
  {
  }

  /** On rows with bounds of one family, in order or not, CoalesceASNRanges keeps the owner of every
      address if and only if no row cuts an earlier one short. */
  lemma MeaningKeptExactlyWhen(rows: seq<Row>)
    requires AllPlaced(rows) && SortedByFirst(rows)
    ensures SameOwners(Coalesced(rows), rows) <==> forall i: nat :: !CutsShort(rows, i)
  {
    hide Shrinks, Coalesced, SameOwners, Resumes, Key;
    KeptUnlessShrunk(rows);
    if NeverShrinks(rows) {
      forall i: nat ensures !CutsShort(rows, i) {
        if i < |rows| { ShrinksOrNot(rows, i); }
      }
    } else {
      var i := FirstShrink(rows);
      ShrinksOrNot(rows, i);
    }
  }
}
