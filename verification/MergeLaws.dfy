// The algebra of merging: what a sequence of colliding inserts adds up to.
module MergeLaws {
  import opened Net
  import opened Strings
  import opened Records

  /** Left fold of the merge over the records that reach one address, in stream order. */
  function Fold(rs: seq<Stored>): Option<Stored> {
    if rs == [] then None else Some(Merge(Fold(rs[..|rs| - 1]), rs[|rs| - 1]))
  }

  lemma FoldSnoc(rs: seq<Stored>, r: Stored)
    ensures Fold(rs + [r]) == Some(Merge(Fold(rs), r))
  {
    assert (rs + [r])[..|rs|] == rs;
  }

  ghost predicate AllCanonical(rs: seq<Stored>) {
    forall r :: r in rs ==> Canonical(r)
  }

  /** `r` is a record of the provider that reached the address first. */
  ghost predicate Own(rs: seq<Stored>, r: Stored) {
    r in rs && r.provider == rs[0].provider
  }

  ghost predicate Serves(rs: seq<Stored>, x: string) {
    exists r :: Own(rs, r) && x in r.services
  }

  ghost predicate Tagged(rs: seq<Stored>, x: string) {
    exists r :: r in rs && x in r.Cats()
  }

  /** Record `i` is the last of the first provider that sets ext key `k`. */
  ghost predicate SetsLast(rs: seq<Stored>, i: nat, k: string) {
    && i < |rs| && rs[i].provider == rs[0].provider && k in rs[i].ext
    && forall j :: i < j < |rs| && rs[j].provider == rs[0].provider ==> k !in rs[j].ext
  }

  ghost predicate IdentityOf(rs: seq<Stored>, m: Stored) {
    rs != [] && m.provider == rs[0].provider && m.region == rs[0].region && m.source == rs[0].source
      && m.ipv6 == rs[0].ipv6
  }

  ghost predicate ServicesOf(rs: seq<Stored>, m: Stored) {
    rs != [] && Ascending(m.services) && forall x :: x in m.services <==> Serves(rs, x)
  }

  ghost predicate SyncedOf(rs: seq<Stored>, m: Stored) {
    && rs != []
    && (forall r :: Own(rs, r) ==> r.syncedAt <= m.syncedAt)
    && exists r :: Own(rs, r) && r.syncedAt == m.syncedAt
  }

  ghost predicate ExtOf(rs: seq<Stored>, m: Stored) {
    && rs != []
    && (forall i: nat, k :: SetsLast(rs, i, k) ==> k in m.ext && m.ext[k] == rs[i].ext[k])
    && forall k :: k in m.ext ==> exists i: nat :: SetsLast(rs, i, k)
  }

  ghost predicate CategoriesOf(rs: seq<Stored>, m: Stored) {
    && (m.categories.None? <==> forall x :: !Tagged(rs, x))
    && (m.categories.Some? ==> Ascending(m.categories.value) && forall x :: x in m.categories.value <==> Tagged(rs, x))
  }

  /** What a merged record must be, said without folding: identity of the first record; services
      and newest timestamp over the first provider's records; each ext key as last set by them;
      categories over all records. */
  ghost predicate ClosedForm(rs: seq<Stored>, m: Stored) {
    IdentityOf(rs, m) && ServicesOf(rs, m) && SyncedOf(rs, m) && ExtOf(rs, m) && CategoriesOf(rs, m)
  }

  lemma {:induction false} FoldClosedForm(rs: seq<Stored>)
    requires rs != [] && AllCanonical(rs)
    ensures ClosedForm(rs, Fold(rs).value)
  {
    var n := |rs| - 1;
    var pre, r := rs[..n], rs[n];
    assert rs == pre + [r];
    assert r in rs;
    if pre == [] {
      assert rs == [r];
      OneRecord(r);
    } else {
      assert forall q :: q in pre ==> q in rs;
      FoldClosedForm(pre);
      var cur := Fold(pre).value;
      var m := Merge(Some(cur), r);
      MergeIdentity(pre, r, cur);
      MergeServices(pre, r, cur);
      MergeSynced(pre, r, cur);
      MergeExt(pre, r, cur);
      MergeCategories(pre, r, cur);
    }
  }

  lemma OneRecord(r: Stored)
    requires Canonical(r)
    ensures Fold([r]) == Some(r) && ClosedForm([r], r)
  {
    var rs := [r];
    assert rs[..0] == [];
    assert Own(rs, r);
    forall x ensures x in r.services <==> Serves(rs, x) {
      if Serves(rs, x) { var q :| Own(rs, q) && x in q.services; }
    }
    forall k | k in r.ext ensures exists i: nat :: SetsLast(rs, i, k) { assert SetsLast(rs, 0, k); }
    forall x ensures Tagged(rs, x) <==> x in r.Cats() {
      if x in r.Cats() { assert r in rs; }
    }
    assert r.categories.Some? ==> Tagged(rs, r.categories.value[0]);
  }

  lemma MergeIdentity(pre: seq<Stored>, r: Stored, cur: Stored)
    requires pre != [] && IdentityOf(pre, cur)
    ensures IdentityOf(pre + [r], Merge(Some(cur), r))
  {
  }

  lemma OwnSnoc(pre: seq<Stored>, r: Stored, q: Stored)
    requires pre != []
    ensures Own(pre + [r], q) <==> Own(pre, q) || (q == r && r.provider == pre[0].provider)
  {
  }

  lemma MergeServices(pre: seq<Stored>, r: Stored, cur: Stored)
    requires pre != [] && IdentityOf(pre, cur) && ServicesOf(pre, cur)
    ensures ServicesOf(pre + [r], Merge(Some(cur), r))
  {
    var m := Merge(Some(cur), r);
    CanonCorrect(cur.services + r.services);
    forall x
      ensures x in m.services <==> Serves(pre + [r], x)
    {
      assert x in Canon(cur.services + r.services) <==> x in Elems(Canon(cur.services + r.services));
      if Serves(pre + [r], x) {
        var q :| Own(pre + [r], q) && x in q.services;
        OwnSnoc(pre, r, q);
      }
      if x in m.services {
        if Serves(pre, x) {
          var q :| Own(pre, q) && x in q.services;
          OwnSnoc(pre, r, q);
        } else {
          OwnSnoc(pre, r, r);
        }
      }
    }
  }

  lemma MergeSynced(pre: seq<Stored>, r: Stored, cur: Stored)
    requires pre != [] && IdentityOf(pre, cur) && SyncedOf(pre, cur)
    ensures SyncedOf(pre + [r], Merge(Some(cur), r))
  {
    var q :| Own(pre, q) && q.syncedAt == cur.syncedAt;
    OwnSnoc(pre, r, q);
    OwnSnoc(pre, r, r);
    forall p | Own(pre + [r], p)
      ensures p.syncedAt <= Merge(Some(cur), r).syncedAt
    {
      OwnSnoc(pre, r, p);
    }
  }

  lemma SetsLastSnoc(pre: seq<Stored>, r: Stored, i: nat, k: string)
    requires pre != []
    ensures SetsLast(pre + [r], i, k) <==>
              if r.provider == pre[0].provider && k in r.ext then i == |pre| else SetsLast(pre, i, k)
  {
    var rs := pre + [r];
    assert rs[|pre|] == r;
    assert forall j :: 0 <= j < |pre| ==> rs[j] == pre[j];
    if SetsLast(rs, i, k) && i < |pre| {
      assert !(rs[|pre|].provider == rs[0].provider) || k !in rs[|pre|].ext;
    }
  }

  lemma MergeExt(pre: seq<Stored>, r: Stored, cur: Stored)
    requires pre != [] && IdentityOf(pre, cur) && ExtOf(pre, cur)
    ensures ExtOf(pre + [r], Merge(Some(cur), r))
  {
    var rs, m := pre + [r], Merge(Some(cur), r);
    forall i: nat, k | SetsLast(rs, i, k)
      ensures k in m.ext && m.ext[k] == rs[i].ext[k]
    {
      SetsLastSnoc(pre, r, i, k);
    }
    forall k | k in m.ext
      ensures exists i: nat :: SetsLast(rs, i, k)
    {
      if r.provider == pre[0].provider && k in r.ext {
        SetsLastSnoc(pre, r, |pre|, k);
      } else {
        var i: nat :| SetsLast(pre, i, k);
        SetsLastSnoc(pre, r, i, k);
      }
    }
  }

  lemma TaggedSnoc(pre: seq<Stored>, r: Stored, x: string)
    ensures Tagged(pre + [r], x) <==> Tagged(pre, x) || x in r.Cats()
  {
    if Tagged(pre, x) {
      var q :| q in pre && x in q.Cats();
      assert q in pre + [r];
    }
    if x in r.Cats() { assert r in pre + [r]; }
  }

  lemma MergeCategories(pre: seq<Stored>, r: Stored, cur: Stored)
    requires CategoriesOf(pre, cur)
    ensures CategoriesOf(pre + [r], Merge(Some(cur), r))
  {
    var cats := Canon(cur.Cats() + r.Cats());
    CanonCorrect(cur.Cats() + r.Cats());
    NoElems(cats);
    forall x
      ensures x in cats <==> Tagged(pre + [r], x)
    {
      assert x in cats <==> x in Elems(cats);
      TaggedSnoc(pre, r, x);
    }
    if cats != [] {
      assert cats[0] in cats;
      assert Tagged(pre + [r], cats[0]);
    }
  }

  /** The closed form leaves no freedom: it determines the record. */
  lemma ClosedFormUnique(rs: seq<Stored>, m: Stored, n: Stored)
    requires ClosedForm(rs, m) && ClosedForm(rs, n)
    ensures m == n
  {
    SameButExt(rs, rs, m, n);
    assert m.ext == n.ext by {
      forall k | k in m.ext || k in n.ext
        ensures k in m.ext && k in n.ext && m.ext[k] == n.ext[k]
      {
        var i: nat :| SetsLast(rs, i, k);
      }
    }
  }

  /** Records of two sequences with the same members and the same first record agree outside ext. */
  lemma SameButExt(rs: seq<Stored>, qs: seq<Stored>, m: Stored, n: Stored)
    requires ClosedForm(rs, m) && ClosedForm(qs, n)
    requires rs[0] == qs[0] && forall r :: r in rs <==> r in qs
    ensures m == n.(ext := m.ext)
  {
    assert forall r :: Own(rs, r) <==> Own(qs, r);
    forall x ensures (Serves(rs, x) <==> Serves(qs, x)) && (Tagged(rs, x) <==> Tagged(qs, x)) {
      if Serves(rs, x) { var r :| Own(rs, r) && x in r.services; assert Own(qs, r); }
      if Serves(qs, x) { var r :| Own(qs, r) && x in r.services; assert Own(rs, r); }
      if Tagged(rs, x) { var r :| r in rs && x in r.Cats(); assert r in qs; }
      if Tagged(qs, x) { var r :| r in qs && x in r.Cats(); assert r in rs; }
    }
    assert Elems(m.services) == Elems(n.services);
    AscendingUnique(m.services, n.services);
    if m.categories.Some? && n.categories.Some? {
      assert Elems(m.categories.value) == Elems(n.categories.value);
      AscendingUnique(m.categories.value, n.categories.value);
    }
    var r :| Own(rs, r) && r.syncedAt == m.syncedAt;
    var q :| Own(qs, q) && q.syncedAt == n.syncedAt;
    assert Own(qs, r) && Own(rs, q);
  }

  /** The first provider's records never disagree on the value of ext key `k`. */
  ghost predicate Undisputed(rs: seq<Stored>, k: string) {
    forall q, r :: Own(rs, q) && Own(rs, r) && k in q.ext && k in r.ext ==> q.ext[k] == r.ext[k]
  }

  /** Order law: reordering the records at an address, first one kept in place, can change nothing
      but the values of ext keys on which records of the first provider disagree. */
  lemma OrderLaw(rs: seq<Stored>, qs: seq<Stored>)
    requires rs != [] && qs != [] && AllCanonical(rs)
    requires multiset(rs) == multiset(qs) && rs[0] == qs[0]
    ensures var m, n := Fold(rs).value, Fold(qs).value;
            && m == n.(ext := m.ext)
            && m.ext.Keys == n.ext.Keys
            && forall k :: k in m.ext && Undisputed(rs, k) ==> m.ext[k] == n.ext[k]
  {
    forall r ensures r in rs <==> r in qs {
      assert r in multiset(rs) <==> r in multiset(qs);
    }
    FoldClosedForm(rs);
    FoldClosedForm(qs);
    var m, n := Fold(rs).value, Fold(qs).value;
    SameButExt(rs, qs, m, n);
    forall k
      ensures k in m.ext ==> k in n.ext && (Undisputed(rs, k) ==> m.ext[k] == n.ext[k])
      ensures k in n.ext ==> k in m.ext
    {
      if k in m.ext {
        var i: nat :| SetsLast(rs, i, k);
        KeySet(qs, rs[i], k);
        var j: nat :| SetsLast(qs, j, k);
        assert rs[i] in rs && qs[j] in qs;
        assert Own(rs, rs[i]) && Own(rs, qs[j]);
      }
      if k in n.ext {
        var j: nat :| SetsLast(qs, j, k);
        assert qs[j] in qs;
        KeySet(rs, qs[j], k);
      }
    }
  }

  /** Some record is the last to set a key that some record sets. */
  lemma KeySet(rs: seq<Stored>, r: Stored, k: string)
    requires rs != [] && Own(rs, r) && k in r.ext
    ensures exists i: nat :: SetsLast(rs, i, k)
  {
    var i :| 0 <= i < |rs| && rs[i] == r;
    LastFrom(rs, i, k);
  }

  lemma {:induction false} LastFrom(rs: seq<Stored>, i: nat, k: string)
    requires i < |rs| && rs[i].provider == rs[0].provider && k in rs[i].ext
    ensures exists j: nat :: SetsLast(rs, j, k)
    decreases |rs| - i
  {
    if !SetsLast(rs, i, k) {
      var j :| i < j < |rs| && rs[j].provider == rs[0].provider && k in rs[j].ext;
      LastFrom(rs, j, k);
    }
  }

  /** Replay law: inserting the same records a second time changes nothing. */
  lemma ReplayLaw(rs: seq<Stored>)
    requires AllCanonical(rs)
    ensures Fold(rs + rs) == Fold(rs)
  {
    if rs == [] {
      assert rs + rs == rs;
    } else {
      var twice := rs + rs;
      FoldClosedForm(rs);
      FoldClosedForm(twice);
      SameButExt(rs, twice, Fold(rs).value, Fold(twice).value);
      ReplayExt(rs, Fold(rs).value, Fold(twice).value);
    }
  }

  lemma ReplayExt(rs: seq<Stored>, m: Stored, n: Stored)
    requires ExtOf(rs, m) && ExtOf(rs + rs, n)
    ensures m.ext == n.ext
  {
    var twice := rs + rs;
    forall k | k in m.ext || k in n.ext
      ensures k in m.ext && k in n.ext && m.ext[k] == n.ext[k]
    {
      if k in n.ext {
        var j: nat :| SetsLast(twice, j, k);
        assert twice[j] in rs;
        KeySet(rs, twice[j], k);
      }
      var i: nat :| SetsLast(rs, i, k);
      SetsLastTwice(rs, i, k);
    }
  }

  lemma SetsLastTwice(rs: seq<Stored>, i: nat, k: string)
    requires SetsLast(rs, i, k)
    ensures SetsLast(rs + rs, |rs| + i, k) && (rs + rs)[|rs| + i] == rs[i]
  {
    forall j | |rs| + i < j < |rs + rs| && (rs + rs)[j].provider == rs[0].provider
      ensures k !in (rs + rs)[j].ext
    {
      assert (rs + rs)[j] == rs[j - |rs|];
    }
  }

  /** Records of other providers arriving after a first record touch its categories only. */
  lemma ForeignRecords(own: seq<Stored>, foreign: seq<Stored>)
    requires own != [] && AllCanonical(own) && AllCanonical(foreign)
    requires forall r :: r in foreign ==> r.provider != own[0].provider
    ensures var m := Fold(own + foreign).value;
            && m == Fold(own).value.(categories := m.categories)
            && CategoriesOf(own + foreign, m)
  {
    FoldClosedForm(own);
    FoldClosedForm(own + foreign);
    ForeignKeepsRest(own, foreign);
  }

  lemma {:induction false} ForeignKeepsRest(own: seq<Stored>, foreign: seq<Stored>)
    requires own != [] && forall r :: r in foreign ==> r.provider != Fold(own).value.provider
    ensures var m := Fold(own + foreign).value; m == Fold(own).value.(categories := m.categories)
  {
    if foreign == [] {
      assert own + foreign == own;
    } else {
      var n := |foreign| - 1;
      var pre, r := foreign[..n], foreign[n];
      assert own + foreign == (own + pre) + [r];
      assert r in foreign && forall q :: q in pre ==> q in foreign;
      ForeignKeepsRest(own, pre);
      FoldSnoc(own + pre, r);
    }
  }

  // ----- stamping -----

  /** A record with extra ext entries. */
  function Stamp(s: Stored, st: map<string, string>): Stored {
    s.(ext := s.ext + st)
  }

  function StampAll(rs: seq<Stored>, st: map<string, string>): (r: seq<Stored>)
    ensures |r| == |rs|
  {
    seq(|rs|, i requires 0 <= i < |rs| => Stamp(rs[i], st))
  }

  lemma StampMerge(a: Stored, b: Stored, st: map<string, string>, next: map<string, string>)
    requires b.provider == a.provider ==> next == st
    ensures Merge(Some(Stamp(a, st)), Stamp(b, next)) == Stamp(Merge(Some(a), b), st)
  {
    hide Canon;
    assert (a.ext + st) + (b.ext + st) == (a.ext + b.ext) + st;
  }

  /** Records with ext entries of its own added to each. */
  function StampEach(rs: seq<Stored>, sts: seq<map<string, string>>): (r: seq<Stored>)
    requires |rs| == |sts|
    ensures |r| == |rs|
  {
    seq(|rs|, i requires 0 <= i < |rs| => Stamp(rs[i], sts[i]))
  }

  /** Stamping the first provider's records alike before merging equals stamping the merged record,
      however the others are stamped. */
  lemma {:induction false} StampFold(rs: seq<Stored>, sts: seq<map<string, string>>, st: map<string, string>)
    requires |rs| == |sts| && forall i :: 0 <= i < |rs| && rs[i].provider == rs[0].provider ==> sts[i] == st
    ensures rs == [] ==> Fold(StampEach(rs, sts)).None?
    ensures rs != [] ==> Fold(StampEach(rs, sts)) == Some(Stamp(Fold(rs).value, st))
    ensures rs != [] ==> Fold(rs).value.provider == rs[0].provider
  {
    if rs != [] {
      var n := |rs| - 1;
      StampFold(rs[..n], sts[..n], st);
      assert StampEach(rs, sts)[..n] == StampEach(rs[..n], sts[..n]);
      if n > 0 {
        StampMerge(Fold(rs[..n]).value, rs[n], st, sts[n]);
      }
    }
  }

  /** The ext entries that survive when each record got its own: those of the first provider's
      records, later ones winning. */
  function OwnStamps(rs: seq<Stored>, sts: seq<map<string, string>>): map<string, string>
    requires |rs| == |sts|
  {
    if rs == [] then map[]
    else
      var n := |rs| - 1;
      OwnStamps(rs[..n], sts[..n]) + if rs[n].provider == rs[0].provider then sts[n] else map[]
  }

  /** Stamping every record with entries of its own, on keys no record had, before merging equals
      stamping the merged record with the entries that survive. */
  lemma {:induction false} StampEachFold(rs: seq<Stored>, sts: seq<map<string, string>>, keys: set<string>)
    requires |rs| == |sts|
    requires forall r :: r in rs ==> r.ext.Keys !! keys
    requires forall st :: st in sts ==> st.Keys <= keys
    ensures OwnStamps(rs, sts).Keys <= keys
    ensures rs == [] ==> Fold(StampEach(rs, sts)).None?
    ensures rs != [] ==> Fold(StampEach(rs, sts)) == Some(Stamp(Fold(rs).value, OwnStamps(rs, sts)))
    ensures rs != [] ==> Fold(rs).value.provider == rs[0].provider
  {
    if rs != [] {
      var n := |rs| - 1;
      assert rs[n] in rs && sts[n] in sts;
      StampEachFold(rs[..n], sts[..n], keys);
      assert StampEach(rs, sts)[..n] == StampEach(rs[..n], sts[..n]);
      var before := OwnStamps(rs[..n], sts[..n]);
      if n == 0 {
        assert map[] + sts[0] == sts[0];
      } else {
        StampApart(Fold(rs[..n]).value, rs[n], before, sts[n], keys);
      }
    }
  }

  lemma StampApart(a: Stored, b: Stored, st: map<string, string>, next: map<string, string>, keys: set<string>)
    requires b.ext.Keys !! keys && st.Keys <= keys && next.Keys <= keys
    ensures Merge(Some(Stamp(a, st)), Stamp(b, next))
         == Stamp(Merge(Some(a), b), st + if b.provider == a.provider then next else map[])
  {
    hide Canon;
    if b.provider == a.provider {
      assert (a.ext + st) + (b.ext + next) == (a.ext + b.ext) + (st + next);
    } else {
      assert st + map[] == st;
    }
  }
}
