// Rows of an IP-to-AS table and their normalization (attribution/asn.go).
// Addresses of both families are laid out on one line of integers, v4 first,
// in the order Addr.Compare sorts them (Net.Key).
module AsnRanges {
  import opened Net

  datatype Row = Row(first: Addr, last: Addr, asn: nat, org: string) {
    function Lo(): int { Key(first) }
    function Hi(): int { Key(last) }
    function AS(): (nat, string) { (asn, org) }
    predicate Valid() {
      first.IP? && last.IP? && first.fam == last.fam && first.n <= last.n
    }
  }

  ghost predicate AllValid(rows: seq<Row>) {
    forall i :: 0 <= i < |rows| ==> rows[i].Valid()
  }

  ghost predicate SortedByFirst(rows: seq<Row>) {
    forall i, j :: 0 <= i < j < |rows| ==> Le(rows[i].first, rows[j].first)
  }

  /** The AS of the first row that holds key `x`: the reference meaning of a table. */
  function Owner(rows: seq<Row>, x: int): Option<(nat, string)> {
    if rows == [] then None
    else if rows[0].Lo() <= x <= rows[0].Hi() then Some(rows[0].AS())
    else Owner(rows[1..], x)
  }

  // ----- the loop body and its fold -----

  predicate SameFamily(prev: Row, r: Row) {
    Is4(prev.last) == Is4(r.first)
  }

  predicate Overlaps(prev: Row, r: Row) {
    SameFamily(prev, r) && Le(r.first, prev.last)
  }

  /** The overlap branch drops the row: nothing of it lies after `prev`. */
  predicate Swallowed(prev: Row, r: Row) {
    Overlaps(prev, r) && (!Next(prev.last).IP? || !Le(Next(prev.last), r.last))
  }

  function Clamp(prev: Row, r: Row): Row {
    if Overlaps(prev, r) then r.(first := Next(prev.last)) else r
  }

  predicate Adjoins(prev: Row, r: Row) {
    prev.asn == r.asn && prev.org == r.org && Next(prev.last) == r.first
  }

  function Step(out: seq<Row>, r: Row): seq<Row> {
    if out == [] then [r]
    else
      var m := |out| - 1;
      var prev := out[m];
      if Swallowed(prev, r) then out
      else if SameFamily(prev, r) && Adjoins(prev, Clamp(prev, r)) then out[m := prev.(last := r.last)]
      else out + [Clamp(prev, r)]
  }

  /** A pure left fold of the loop body into a fresh list. */
  function Coalesced(rows: seq<Row>): seq<Row> {
    if rows == [] then [] else Step(Coalesced(rows[..|rows| - 1]), rows[|rows| - 1])
  }

  // ----- sort.Slice -----

  function InsertRow(s: seq<Row>, r: Row): seq<Row> {
    if s == [] || Le(r.first, s[0].first) then [r] + s else [s[0]] + InsertRow(s[1..], r)
  }

  function SortRows(s: seq<Row>): seq<Row> {
    if s == [] then [] else InsertRow(SortRows(s[1..]), s[0])
  }

  lemma {:induction false} InsertRowCorrect(s: seq<Row>, r: Row)
    requires SortedByFirst(s)
    ensures SortedByFirst(InsertRow(s, r)) && multiset(InsertRow(s, r)) == multiset(s) + multiset{r}
  {
    hide Key;
    if s == [] {
    } else if Le(r.first, s[0].first) {
      assert forall j :: 0 <= j < |s| ==> Le(r.first, s[j].first);
    } else {
      InsertRowCorrect(s[1..], r);
      assert s == [s[0]] + s[1..];
      hide InsertRow;
      ConsSorted(s[0], s[1..], r, InsertRow(s[1..], r));
    }
  }

  lemma ConsSorted(head: Row, tail: seq<Row>, r: Row, t: seq<Row>)
    requires SortedByFirst([head] + tail) && SortedByFirst(t) && multiset(t) == multiset(tail) + multiset{r}
    requires Le(head.first, r.first)
    ensures SortedByFirst([head] + t)
  {
    hide Key;
    var before := [head] + tail;
    forall j | 0 <= j < |t| ensures Le(head.first, t[j].first) {
      assert t[j] in multiset(t);
      if t[j] != r {
        assert t[j] in tail;
        var i :| 0 <= i < |tail| && tail[i] == t[j];
        assert before[0] == head && before[i + 1] == t[j];
      }
    }
  }

  lemma {:induction false} SortRowsCorrect(s: seq<Row>)
    ensures SortedByFirst(SortRows(s)) && multiset(SortRows(s)) == multiset(s)
  {
    if s != [] {
      SortRowsCorrect(s[1..]);
      InsertRowCorrect(SortRows(s[1..]), s[0]);
      assert s == [s[0]] + s[1..];
    }
  }

  ghost predicate SortedForm(rows: seq<Row>, sorted: seq<Row>) {
    multiset(sorted) == multiset(rows) && SortedByFirst(sorted)
  }

  /** sort.Slice is not stable: callers may use only that the result is some sorted order. */
  method SortByFirst(a: array<Row>)
    modifies a
    ensures SortedForm(old(a[..]), a[..])
  {
    SortRowsCorrect(a[..]);
    var s := SortRows(a[..]);
    assert |s| == |multiset(s)| == |multiset(a[..])| == a.Length;
    forall i | 0 <= i < a.Length { a[i] := s[i]; }
    assert a[..] == s;
  }

  /** The loop body on the shared backing array: `w` is len(out), and `r` was read at or after `w`. */
  method Absorb(rows: array<Row>, w: nat, r: Row) returns (w': nat)
    requires w < rows.Length
    modifies rows
    ensures w <= w' <= w + 1
    ensures rows[..w'] == Step(old(rows[..w]), r)
    ensures forall k :: w < k < rows.Length ==> rows[k] == old(rows[k])
  {
    hide Key, Next;
    ghost var out := rows[..w];
    if w == 0 {
      rows[0] := r;
      return 1;
    }
    var prev, cur := rows[w - 1], r;
    assert prev == out[w - 1];
    var sameFamily := Is4(prev.last) == Is4(r.first);
    if sameFamily && Le(r.first, prev.last) {
      var next := Next(prev.last);
      if !next.IP? || !Le(next, r.last) {
        return w;
      }
      cur := r.(first := next);
    }
    assert cur == Clamp(prev, r);
    if sameFamily && prev.asn == cur.asn && prev.org == cur.org && Next(prev.last) == cur.first {
      rows[w - 1] := prev.(last := r.last);
      assert rows[..w] == out[w - 1 := prev.(last := r.last)];
      return w;
    }
    rows[w] := cur;
    assert rows[..w + 1] == out + [cur];
    return w + 1;
  }

  /** Sorts and compacts in place. The write position never passes the row being read, so the
      result is the fold into a fresh list. */
  method CoalesceASNRanges(rows: array<Row>) returns (w: nat, ghost sorted: seq<Row>)
    modifies rows
    ensures SortedForm(old(rows[..]), sorted)
    ensures w <= rows.Length && rows[..w] == Coalesced(sorted)
  {
    SortByFirst(rows);
    sorted := rows[..];
    w := 0;
    var i := 0;
    while i < rows.Length
      invariant w <= i <= rows.Length
      invariant forall k :: i <= k < rows.Length ==> rows[k] == sorted[k]
      invariant rows[..w] == Coalesced(sorted[..i])
    {
      assert sorted[..i + 1][..i] == sorted[..i];
      w := Absorb(rows, w, rows[i]);
      i := i + 1;
    }
    assert sorted[..i] == sorted;
  }
}
