// Laws of whole builds: what a stream, a permuted stream, a repeated stream and
// a concatenation of streams leave in the tree.
module BuildLaws {
  import opened Bits
  import opened Net
  import opened Records
  import opened MergeLaws
  import opened Streams
  import opened Tries
  import opened Building

  /** The record a finished build holds at a tree address. */
  function Held(items: seq<Item>, reject: Prefix -> bool, x: nat): Option<Stored>
    requires BuildFold(items, reject).Built?
  {
    Find(BuildFold(items, reject).tree, V6_BITS, x)
  }

  /** Closed form of a build: nothing where no inserted entry covers an address, and elsewhere the
      record that ClosedForm describes. */
  lemma HeldClosedForm(items: seq<Item>, reject: Prefix -> bool, x: nat)
    requires BuildFold(items, reject).Built? && x < Pow2(V6_BITS)
    ensures var rs := Reaching(items, x, reject);
            && (Held(items, reject, x).None? <==> rs == [])
            && (rs != [] ==> ClosedForm(rs, Held(items, reject, x).value) && Canonical(Held(items, reject, x).value))
  {
    var rs := Reaching(items, x, reject);
    BuildRefines(items, reject, x);
    ReachingCanonical(items, x, reject);
    if rs != [] {
      FoldClosedForm(rs);
      ClosedFormCanonical(rs, Fold(rs).value);
    }
  }

  /** A stored record stays canonical however often it is merged. */
  lemma ClosedFormCanonical(rs: seq<Stored>, m: Stored)
    requires AllCanonical(rs) && ClosedForm(rs, m)
    ensures Canonical(m)
  {
    forall k | k in m.ext ensures m.ext[k] != "" {
      var i: nat :| SetsLast(rs, i, k);
      assert rs[i] in rs;
    }
    if m.categories.Some? {
      var x :| Tagged(rs, x);
      assert x in m.categories.value;
    }
  }

  // ----- order -----

  lemma WithoutOne(t: seq<Item>, i: nat)
    requires i < |t|
    ensures multiset(t[..i] + t[i + 1..]) == multiset(t) - multiset{t[i]}
  {
    assert t == t[..i] + [t[i]] + t[i + 1..];
  }

  lemma ReachingAround(t: seq<Item>, i: nat, x: nat, reject: Prefix -> bool)
    requires i < |t|
    ensures multiset(Reaching(t, x, reject))
            == multiset(Reaching(t[..i] + t[i + 1..], x, reject)) + multiset(Reach(t[i], x, reject))
  {
    hide Reach;
    var a, b := t[..i], t[i + 1..];
    assert t == (a + [t[i]]) + b && (a + [t[i]])[..i] == a;
    ReachingConcat(a, b, x, reject);
    ReachingConcat(a + [t[i]], b, x, reject);
  }

  lemma {:induction false} ReachingPermuted(s: seq<Item>, t: seq<Item>, x: nat, reject: Prefix -> bool)
    requires multiset(s) == multiset(t)
    ensures multiset(Reaching(s, x, reject)) == multiset(Reaching(t, x, reject))
    decreases |s|
  {
    hide Reach, Reaching;
    assert |s| == |multiset(s)| == |t|;
    if s == [] {
      assert t == [];
    } else {
      var n := |s| - 1;
      assert s[n] in multiset(t);
      var i :| 0 <= i < |t| && t[i] == s[n];
      assert s[..n] + s[n + 1..] == s[..n];
      WithoutOne(s, n);
      WithoutOne(t, i);
      ReachingPermuted(s[..n], t[..i] + t[i + 1..], x, reject);
      ReachingAround(s, n, x, reject);
      ReachingAround(t, i, x, reject);
    }
  }

  /** Permuting a stream so that an address keeps its first covering entry can change only values of
      ext keys that the covering entries of that entry's provider set differently. */
  lemma PermutedBuild(s: seq<Item>, t: seq<Item>, reject: Prefix -> bool, x: nat)
    requires BuildFold(s, reject).Built? && multiset(s) == multiset(t) && x < Pow2(V6_BITS)
    requires var rs, qs := Reaching(s, x, reject), Reaching(t, x, reject); rs != [] && qs != [] ==> rs[0] == qs[0]
    ensures BuildFold(t, reject).Built?
    ensures Held(s, reject, x).Some? <==> Held(t, reject, x).Some?
    ensures Held(s, reject, x).Some? ==>
              var m, n := Held(s, reject, x).value, Held(t, reject, x).value;
              && m == n.(ext := m.ext) && m.ext.Keys == n.ext.Keys
              && forall k :: k in m.ext && Undisputed(Reaching(s, x, reject), k) ==> m.ext[k] == n.ext[k]
  {
    hide Merge, Find, Fold, Reaching, BuildFold;
    CleanPermuted(s, t, reject);
    BuildRefines(s, reject, x);
    BuildRefines(t, reject, x);
    ReachingPermuted(s, t, x, reject);
    ReachingCanonical(s, x, reject);
    var rs, qs := Reaching(s, x, reject), Reaching(t, x, reject);
    assert |rs| == |multiset(rs)| == |multiset(qs)| == |qs|;
    FoldSome(rs);
    FoldSome(qs);
    if rs != [] {
      OrderLaw(rs, qs);
    }
  }

  lemma FoldSome(rs: seq<Stored>)
    ensures Fold(rs).Some? <==> rs != []
  {
  }

  lemma CleanPermuted(s: seq<Item>, t: seq<Item>, reject: Prefix -> bool)
    requires BuildFold(s, reject).Built? && multiset(s) == multiset(t)
    ensures BuildFold(t, reject).Built?
  {
    BuildOutcome(s, reject);
    BuildOutcome(t, reject);
    forall i | 0 <= i < |t| ensures !Aborts(t[i]) {
      assert t[i] in multiset(s);
      var j :| 0 <= j < |s| && s[j] == t[i];
    }
  }

  // ----- replay -----

  /** Two builds that hold the same record at every address leave the very same tree. */
  lemma SameHeldSameTree(s: seq<Item>, t: seq<Item>, reject: Prefix -> bool)
    requires BuildFold(s, reject).Built? && BuildFold(t, reject).Built?
    requires forall x :: 0 <= x < Pow2(V6_BITS) ==> Held(s, reject, x) == Held(t, reject, x)
    ensures BuildFold(s, reject).tree == BuildFold(t, reject).tree
  {
    BuildReduced(s, reject);
    BuildReduced(t, reject);
    BuildRefines(s, reject, 0);
    BuildRefines(t, reject, 0);
    var a, b := BuildFold(s, reject).tree, BuildFold(t, reject).tree;
    assert SameMeaning(a, b, V6_BITS) by {
      forall x | 0 <= x < Pow2(V6_BITS) ensures Find(a, V6_BITS, x) == Find(b, V6_BITS, x) {
        assert Held(s, reject, x) == Held(t, reject, x);
      }
    }
    ReducedUnique(a, b, V6_BITS);
  }

  /** Replaying a stream after itself leaves the same tree, node for node. */
  lemma ReplayedBuild(s: seq<Item>, reject: Prefix -> bool)
    requires BuildFold(s, reject).Built?
    ensures BuildFold(s + s, reject).Built? && BuildFold(s + s, reject).tree == BuildFold(s, reject).tree
  {
    BuildOutcome(s, reject);
    BuildOutcome(s + s, reject);
    forall x | 0 <= x < Pow2(V6_BITS)
      ensures Held(s + s, reject, x) == Held(s, reject, x)
    {
      BuildRefines(s, reject, x);
      BuildRefines(s + s, reject, x);
      ReachingConcat(s, s, x, reject);
      ReachingCanonical(s, x, reject);
      ReplayLaw(Reaching(s, x, reject));
    }
    SameHeldSameTree(s + s, s, reject);
  }

  // ----- concatenation -----

  /** No item of one stream has the provider of an item of the other. */
  ghost predicate DisjointProviders(cloud: seq<Item>, rep: seq<Item>) {
    forall i, j :: 0 <= i < |cloud| && 0 <= j < |rep| && cloud[i].Ok? && rep[j].Ok? ==>
      cloud[i].entry.record.provider != rep[j].entry.record.provider
  }

  lemma {:induction false} ReachingProvider(items: seq<Item>, x: nat, reject: Prefix -> bool, r: Stored)
    requires r in Reaching(items, x, reject)
    ensures exists i :: 0 <= i < |items| && items[i].Ok? && items[i].entry.record.provider == r.provider
  {
    var n := |items| - 1;
    if r in Reaching(items[..n], x, reject) {
      ReachingProvider(items[..n], x, reject, r);
      var i :| 0 <= i < n && items[..n][i].Ok? && items[..n][i].entry.record.provider == r.provider;
      assert items[i] == items[..n][i];
    } else {
      assert r in Reach(items[n], x, reject);
    }
  }

  /** A combined build, cloud stream first: where the cloud covers an address the reputation stream
      only adds its categories, and elsewhere the result is the reputation build. */
  lemma CombinedBuild(cloud: seq<Item>, rep: seq<Item>, reject: Prefix -> bool, x: nat)
    requires BuildFold(cloud, reject).Built? && BuildFold(rep, reject).Built?
    requires DisjointProviders(cloud, rep) && x < Pow2(V6_BITS)
    ensures BuildFold(cloud + rep, reject).Built?
    ensures var both, own := Held(cloud + rep, reject, x), Held(cloud, reject, x);
            && (own.None? ==> both == Held(rep, reject, x))
            && (own.Some? ==>
                  both.Some? && both.value == own.value.(categories := both.value.categories)
                  && CategoriesOf(Reaching(cloud, x, reject) + Reaching(rep, x, reject), both.value))
  {
    hide Merge, Find, Fold, Reaching, BuildFold, CategoriesOf;
    ConcatClean(cloud, rep, reject);
    BuildRefines(cloud, reject, x);
    BuildRefines(rep, reject, x);
    BuildRefines(cloud + rep, reject, x);
    ReachingConcat(cloud, rep, x, reject);
    var own, foreign := Reaching(cloud, x, reject), Reaching(rep, x, reject);
    FoldSome(own);
    FoldSome(own + foreign);
    if own == [] {
      assert own + foreign == foreign;
    } else {
      ReachingCanonical(cloud, x, reject);
      ReachingCanonical(rep, x, reject);
      ForeignProviders(cloud, rep, reject, x);
      ForeignRecords(own, foreign);
    }
  }

  lemma ForeignProviders(cloud: seq<Item>, rep: seq<Item>, reject: Prefix -> bool, x: nat)
    requires DisjointProviders(cloud, rep) && Reaching(cloud, x, reject) != []
    ensures forall r :: r in Reaching(rep, x, reject) ==> r.provider != Reaching(cloud, x, reject)[0].provider
  {
    var first := Reaching(cloud, x, reject)[0];
    ReachingProvider(cloud, x, reject, first);
    forall r | r in Reaching(rep, x, reject) ensures r.provider != first.provider {
      ReachingProvider(rep, x, reject, r);
    }
  }

  lemma ConcatClean(s: seq<Item>, t: seq<Item>, reject: Prefix -> bool)
    requires BuildFold(s, reject).Built? && BuildFold(t, reject).Built?
    ensures BuildFold(s + t, reject).Built?
  {
    BuildOutcome(s, reject);
    BuildOutcome(t, reject);
    BuildOutcome(s + t, reject);
  }
}
