// Sorted, duplicate-free string lists: the canonical form in which the database
// stores services and categories.
module Strings {

  /** Lexicographic order, the order of sort.Strings. */
  predicate Le(a: string, b: string) {
    a == [] || (b != [] && (a[0] < b[0] || (a[0] == b[0] && Le(a[1..], b[1..]))))
  }

  /** The strings agree up to position `i`, where `a` has the smaller character. */
  predicate Differs(a: string, b: string, i: nat) {
    i < |a| && i < |b| && a[..i] == b[..i] && a[i] < b[i]
  }

  lemma FirstDiffers(a: string, b: string, i: nat)
    requires Differs(a, b, i)
    ensures if i == 0 then a[0] < b[0] else a[0] == b[0]
  {
    if i > 0 { assert a[..i][0] == b[..i][0]; }
  }

  /** A string precedes another if it is a prefix of it, or has the smaller character where they
      first differ. */
  lemma {:induction false} LeByDifference(a: string, b: string)
    ensures Le(a, b) <==> a <= b || exists i :: Differs(a, b, i)
  {
    if a != [] && b != [] && a[0] == b[0] {
      LeByDifference(a[1..], b[1..]);
      assert a == [a[0]] + a[1..] && b == [b[0]] + b[1..];
      assert a <= b <==> a[1..] <= b[1..];
      if i: nat :| Differs(a[1..], b[1..], i) {
        assert a[..i + 1] == [a[0]] + a[1..][..i] && b[..i + 1] == [b[0]] + b[1..][..i];
        assert Differs(a, b, i + 1);
      }
      if i: nat :| Differs(a, b, i) {
        assert i > 0 && a[1..][..i - 1] == a[1..i] == a[..i][1..] && b[1..][..i - 1] == b[1..i] == b[..i][1..];
        assert Differs(a[1..], b[1..], i - 1);
      }
    } else if a != [] && b != [] {
      if a[0] < b[0] { assert Differs(a, b, 0); }
      if i: nat :| Differs(a, b, i) { FirstDiffers(a, b, i); }
    }
  }

  lemma {:induction false} LeTotal(a: string, b: string)
    ensures Le(a, b) || Le(b, a)
  {
    if a != [] && b != [] && a[0] == b[0] { LeTotal(a[1..], b[1..]); }
  }

  lemma {:induction false} LeTrans(a: string, b: string, c: string)
    requires Le(a, b) && Le(b, c)
    ensures Le(a, c)
  {
    if a != [] && a[0] == b[0] && b[0] == c[0] { LeTrans(a[1..], b[1..], c[1..]); }
  }

  lemma {:induction false} LeAntisym(a: string, b: string)
    requires Le(a, b) && Le(b, a)
    ensures a == b
  {
    if a != [] {
      LeAntisym(a[1..], b[1..]);
      assert a == [a[0]] + a[1..] && b == [b[0]] + b[1..];
    }
  }

  predicate Lt(a: string, b: string) {
    a != b && Le(a, b)
  }

  /** Strictly ascending: sorted and without duplicates. */
  ghost predicate Ascending(s: seq<string>) {
    forall i, j :: 0 <= i < j < |s| ==> Lt(s[i], s[j])
  }

  function Elems(s: seq<string>): set<string> {
    set x | x in s
  }

  lemma ElemsAppend(s: seq<string>, x: string)
    ensures Elems(s + [x]) == Elems(s) + {x}
  {
  }

  lemma NoElems(s: seq<string>)
    ensures Elems(s) == {} <==> s == []
  {
    if s != [] { assert s[0] in Elems(s); }
  }

  /** Insertion into an ascending list, dropping a duplicate. */
  function Add(s: seq<string>, x: string): seq<string> {
    if s == [] then [x]
    else if x == s[0] then s
    else if Le(x, s[0]) then [x] + s
    else [s[0]] + Add(s[1..], x)
  }

  /** The canonical form of a list: its elements in ascending order, each once. */
  function Canon(s: seq<string>): seq<string> {
    if s == [] then [] else Add(Canon(s[1..]), s[0])
  }

  lemma {:induction false} AddElems(s: seq<string>, x: string)
    ensures Elems(Add(s, x)) == Elems(s) + {x}
  {
    if s != [] && x != s[0] && !Le(x, s[0]) {
      AddElems(s[1..], x);
      var t := Add(s[1..], x);
      forall y ensures y in [s[0]] + t <==> y in Elems(s) + {x} {
        assert y in t <==> y in Elems(t);
        assert y in s <==> y == s[0] || y in s[1..];
      }
    }
  }

  lemma {:induction false} AddAscending(s: seq<string>, x: string)
    requires Ascending(s)
    ensures Ascending(Add(s, x))
  {
    if s == [] || x == s[0] {
    } else if Le(x, s[0]) {
      forall j | 0 <= j < |s|
        ensures Lt(x, s[j])
      {
        if j > 0 {
          LeTrans(x, s[0], s[j]);
          if x == s[j] { LeAntisym(s[0], s[j]); }
        }
      }
    } else {
      LeTotal(x, s[0]);
      AddAscending(s[1..], x);
      var t := Add(s[1..], x);
      AddElems(s[1..], x);
      forall j | 0 <= j < |t|
        ensures Lt(s[0], t[j])
      {
        assert t[j] in Elems(t);
        if t[j] != x {
          var k :| 0 <= k < |s[1..]| && s[1..][k] == t[j];
          assert s[k + 1] == t[j];
        }
      }
    }
  }

  lemma {:induction false} CanonCorrect(s: seq<string>)
    ensures Ascending(Canon(s))
    ensures Elems(Canon(s)) == Elems(s)
  {
    if s != [] {
      CanonCorrect(s[1..]);
      AddAscending(Canon(s[1..]), s[0]);
      AddElems(Canon(s[1..]), s[0]);
      assert s == [s[0]] + s[1..];
    }
  }

  /** An ascending list is determined by its set of elements. */
  lemma {:induction false} AscendingUnique(a: seq<string>, b: seq<string>)
    requires Ascending(a) && Ascending(b) && Elems(a) == Elems(b)
    ensures a == b
  {
    NoElems(a);
    NoElems(b);
    if a != [] {
      assert a[0] in Elems(a) && a[0] in b;
      assert b != [] && b[0] in Elems(b) && b[0] in a;
      HeadsAgree(a, b);
      forall x ensures x in Elems(a[1..]) <==> x in Elems(b[1..]) {
        assert x in Elems(a) <==> x in Elems(b);
      }
      AscendingUnique(a[1..], b[1..]);
      assert a == [a[0]] + a[1..] && b == [b[0]] + b[1..];
    }
  }

  lemma HeadsAgree(a: seq<string>, b: seq<string>)
    requires Ascending(a) && Ascending(b) && a != [] && b != [] && a[0] in b && b[0] in a
    ensures a[0] == b[0]
  {
    var i :| 0 <= i < |b| && b[i] == a[0];
    var j :| 0 <= j < |a| && a[j] == b[0];
    if i > 0 && j > 0 {
      assert Lt(b[0], b[i]) && Lt(a[0], a[j]);
      LeAntisym(a[0], b[0]);
    }
  }

  /** Canonical forms are equal exactly when the lists have the same elements. */
  lemma CanonByElems(a: seq<string>, b: seq<string>)
    ensures Canon(a) == Canon(b) <==> Elems(a) == Elems(b)
  {
    CanonCorrect(a);
    CanonCorrect(b);
    if Elems(a) == Elems(b) { AscendingUnique(Canon(a), Canon(b)); }
  }

  lemma CanonFixed(s: seq<string>)
    requires Ascending(s)
    ensures Canon(s) == s
  {
    CanonCorrect(s);
    AscendingUnique(Canon(s), s);
  }

  // ----- sort.Strings and the two loops that build canonical lists -----

  /** Insertion into a sorted list, keeping duplicates. */
  function Insert(s: seq<string>, x: string): seq<string> {
    if s == [] || Le(x, s[0]) then [x] + s else [s[0]] + Insert(s[1..], x)
  }

  function Sort(s: seq<string>): seq<string> {
    if s == [] then [] else Insert(Sort(s[1..]), s[0])
  }

  ghost predicate Sorted(s: seq<string>) {
    forall i, j :: 0 <= i < j < |s| ==> Le(s[i], s[j])
  }

  lemma {:induction false} InsertCorrect(s: seq<string>, x: string)
    requires Sorted(s)
    ensures Sorted(Insert(s, x)) && multiset(Insert(s, x)) == multiset(s) + multiset{x}
  {
    if s == [] {
    } else if Le(x, s[0]) {
      forall j | 0 <= j < |s| ensures Le(x, s[j]) {
        if j > 0 { LeTrans(x, s[0], s[j]); }
      }
    } else {
      InsertCorrect(s[1..], x);
      LeTotal(x, s[0]);
      var t := Insert(s[1..], x);
      assert s == [s[0]] + s[1..];
      forall j | 0 <= j < |t| ensures Le(s[0], t[j]) {
        assert t[j] in multiset(t);
        if t[j] != x {
          assert t[j] in multiset(s[1..]);
          assert t[j] in s[1..];
        }
      }
    }
  }

  lemma {:induction false} SortCorrect(s: seq<string>)
    ensures Sorted(Sort(s)) && multiset(Sort(s)) == multiset(s)
  {
    if s != [] {
      SortCorrect(s[1..]);
      InsertCorrect(Sort(s[1..]), s[0]);
      assert s == [s[0]] + s[1..];
    }
  }

  /** sort.Strings, known only by what a sort promises. */
  method SortStrings(a: array<string>)
    modifies a
    ensures Sorted(a[..]) && multiset(a[..]) == multiset(old(a[..]))
  {
    SortCorrect(a[..]);
    var s := Sort(a[..]);
    assert |s| == |multiset(s)| == |multiset(a[..])| == a.Length;
    forall i | 0 <= i < a.Length { a[i] := s[i]; }
    assert a[..] == s;
  }

  lemma SameElems(a: seq<string>, b: seq<string>)
    requires multiset(a) == multiset(b)
    ensures Elems(a) == Elems(b)
  {
    forall x ensures x in a <==> x in b {
      assert x in multiset(a) <==> x in multiset(b);
    }
  }

  /** dedupeSorted: sort a copy, then squeeze out repeats in place; the kept part is always a prefix
      no longer than the part already read. */
  method DedupeSorted(input: seq<string>) returns (out: seq<string>)
    ensures out == Canon(input)
  {
    hide Le, Canon, Sorted, Elems, Ascending;
    EmptyPrefix();
    if |input| == 0 {
      CanonCorrect(input);
      NoElems(input);
      NoElems(Canon(input));
      return input;
    }
    var cp := new string[|input|](i requires 0 <= i < |input| => input[i]);
    assert cp[..] == input;
    SortStrings(cp);
    ghost var sorted := cp[..];
    SameElems(sorted, input);
    var w, i, last := 0, 0, "";
    while i < cp.Length
      invariant w <= i <= cp.Length
      invariant i > 0 ==> w > 0 && last == sorted[i - 1] == cp[w - 1]
      invariant cp[i..] == sorted[i..]
      invariant Ascending(cp[..w])
      invariant Elems(cp[..w]) == Elems(sorted[..i])
    {
      var s := cp[i];
      assert s == sorted[i] by { assert s == cp[i..][0] == sorted[i..][0]; }
      assert sorted[..i + 1] == sorted[..i] + [s];
      ElemsAppend(sorted[..i], s);
      if i == 0 || s != last {
        ghost var kept := cp[..w];
        LastIsLargest(kept, sorted[..i], s, w);
        cp[w] := s;
        last := s;
        w := w + 1;
        assert cp[..w] == kept + [s];
        ElemsAppend(kept, s);
      } else {
        SameElem(cp[..w], w - 1);
      }
      assert cp[i + 1..] == sorted[i + 1..] by { assert cp[i + 1..] == cp[i..][1..]; }
      i := i + 1;
    }
    out := cp[..w];
    assert sorted[..i] == sorted;
    CanonCorrect(input);
    AscendingUnique(out, Canon(input));
  }

  lemma EmptyPrefix()
    ensures Ascending([]) && Elems([]) == {}
  {
  }

  lemma SameElem(s: seq<string>, i: nat)
    requires i < |s|
    ensures Elems(s) + {s[i]} == Elems(s)
  {
  }

  /** A sorted element that differs from the last one kept extends the ascending prefix. */
  lemma LastIsLargest(kept: seq<string>, read: seq<string>, s: string, w: nat)
    requires |kept| == w && Ascending(kept) && Elems(kept) == Elems(read)
    requires Sorted(read + [s])
    requires w > 0 ==> kept[w - 1] != s
    ensures Ascending(kept + [s])
  {
    forall i | 0 <= i < w
      ensures Lt(kept[i], s)
    {
      KeptBelow(kept, read, s, i);
      KeptBelow(kept, read, s, w - 1);
      if kept[i] == s {
        assert Lt(kept[i], kept[w - 1]);
        LeAntisym(kept[w - 1], s);
      }
    }
  }

  lemma KeptBelow(kept: seq<string>, read: seq<string>, s: string, i: nat)
    requires i < |kept| && Elems(kept) == Elems(read) && Sorted(read + [s])
    ensures Le(kept[i], s)
  {
    assert kept[i] in Elems(kept) && kept[i] in read;
    var j :| 0 <= j < |read| && read[j] == kept[i];
    assert (read + [s])[j] == kept[i] && (read + [s])[|read|] == s;
  }

  /** unionSlices: collect both lists in a set, then sort its elements. */
  method UnionSlices(a: seq<string>, b: seq<string>) returns (out: seq<string>)
    ensures out == Canon(a + b)
  {
    var seen: set<string> := {};
    for i := 0 to |a|
      invariant seen == Elems(a[..i])
    {
      seen := seen + {a[i]};
    }
    assert a[..|a|] == a;
    for i := 0 to |b|
      invariant seen == Elems(a) + Elems(b[..i])
    {
      seen := seen + {b[i]};
    }
    assert b[..|b|] == b;
    var keys, rest := [], seen;
    while rest != {}
      invariant rest <= seen && Elems(keys) == seen - rest
      invariant forall i, j :: 0 <= i < j < |keys| ==> keys[i] != keys[j]
      decreases rest
    {
      var k :| k in rest;
      forall i | 0 <= i < |keys| ensures keys[i] != k { assert keys[i] in Elems(keys); }
      ElemsAppend(keys, k);
      keys := keys + [k];
      rest := rest - {k};
    }
    var sorted := new string[|keys|](i requires 0 <= i < |keys| => keys[i]);
    assert sorted[..] == keys;
    SortStrings(sorted);
    out := sorted[..];
    DistinctSortedAscends(keys, out);
    SameElems(keys, out);
    assert Elems(out) == Elems(a + b);
    CanonCorrect(a + b);
    AscendingUnique(out, Canon(a + b));
  }

  lemma DistinctSortedAscends(keys: seq<string>, out: seq<string>)
    requires forall i, j :: 0 <= i < j < |keys| ==> keys[i] != keys[j]
    requires multiset(keys) == multiset(out) && Sorted(out)
    ensures Ascending(out)
  {
    forall i, j | 0 <= i < j < |out|
      ensures Lt(out[i], out[j])
    {
      if out[i] == out[j] {
        var x := out[i];
        assert multiset(out)[x] >= 2 by {
          assert out == out[..j] + [out[j]] + out[j + 1..];
          assert x == out[..j][i];
          assert x in multiset(out[..j]);
        }
        DistinctOnce(keys, x);
      }
    }
  }

  lemma {:induction false} DistinctOnce(keys: seq<string>, x: string)
    requires forall i, j :: 0 <= i < j < |keys| ==> keys[i] != keys[j]
    ensures multiset(keys)[x] <= 1
  {
    if keys != [] {
      DistinctOnce(keys[1..], x);
      assert keys == [keys[0]] + keys[1..];
      if x == keys[0] {
        forall i | 0 <= i < |keys[1..]| ensures keys[1..][i] != x { assert keys[1..][i] == keys[i + 1]; }
        assert x !in multiset(keys[1..]);
      }
    }
  }
}
