// Build: a stream of overlapping prefixes folded into the search tree
// (attribution/build.go).
module Building {
  import opened Bits
  import opened Net
  import opened Records
  import opened MergeLaws
  import opened Streams
  import opened Tries

  /** Build's outcome; BuildStats comes with either. */
  datatype Result =
    | Built(tree: Trie<Stored>, inserted: nat, skipped: nat)
    | Failed(inserted: nat, skipped: nat)

  /** The inserter for one entry. */
  function Inserter(rec: Stored): Option<Stored> -> Stored {
    (existing: Option<Stored>) => Merge(existing, rec)
  }

  function StoredFor(e: Entry, p: Prefix): Stored {
    ToStored(e.record, p.addr.IP? && p.addr.fam == V6)
  }

  /** The tree after inserting one normalized network. IPv4 lives in the tree's ::/96. */
  function InsertEntry(tree: Trie<Stored>, p: Prefix, rec: Stored): Trie<Stored>
    requires p.IsValid()
  {
    PrefixInFamily(p);
    Pow2Mono(Width(p.addr.fam), V6_BITS);
    Insert(tree, V6_BITS, p.First(), p.Host(), Inserter(rec))
  }

  /** The loop of Build over a stream. `reject` says which networks the tree refuses. */
  function BuildFold(items: seq<Item>, reject: Prefix -> bool): Result {
    if items == [] then Built(Empty, 0, 0)
    else
      var n := |items| - 1;
      match BuildFold(items[..n], reject)
      case Failed(i, s) => Failed(i, s)
      case Built(t, i, s) => AddItem(t, i, s, items[n], reject)
  }

  function AddItem(t: Trie<Stored>, i: nat, s: nat, item: Item, reject: Prefix -> bool): Result {
    match item
    case Err(_) => Failed(i, s)
    case Ok(e) =>
      if !e.network.IsValid() then Failed(i, s)
      else
        match NormalizePrefix(e.network)
        case None => Built(t, i, s + 1)
        case Some(p) =>
          if reject(p) then Built(t, i, s + 1)
          else Built(InsertEntry(t, p, StoredFor(e, p)), i + 1, s)
  }

  /** A build that inserted nothing is an error. */
  function Finish(r: Result): Result {
    if r.Built? && r.inserted == 0 then Failed(0, r.skipped) else r
  }

  /** Build, up to writing the tree out. */
  method Build(items: seq<Item>, reject: Prefix -> bool) returns (r: Result)
    ensures r == Finish(BuildFold(items, reject))
  {
    hide InsertEntry, ToStored, Pow2, MappedBase, Floor;
    var tree, inserted, skipped := Empty, 0, 0;
    for n := 0 to |items|
      invariant BuildFold(items[..n], reject) == Built(tree, inserted, skipped)
    {
      assert items[..n + 1][..n] == items[..n];
      assert BuildFold(items[..n + 1], reject) == AddItem(tree, inserted, skipped, items[n], reject);
      if items[n].Err? {
        FailureStays(items, n + 1, reject);
        return Failed(inserted, skipped);
      }
      var e := items[n].entry;
      if !e.network.IsValid() {
        FailureStays(items, n + 1, reject);
        return Failed(inserted, skipped);
      }
      var normalized := NormalizePrefix(e.network);
      if normalized.None? {
        skipped := skipped + 1;
        continue;
      }
      var network := normalized.value;
      var rec := ToMmdb(e.record, network.addr.fam == V6);
      if reject(network) {
        skipped := skipped + 1;
        continue;
      }
      tree := InsertEntry(tree, network, rec);
      inserted := inserted + 1;
    }
    assert items[..|items|] == items;
    if inserted == 0 {
      return Failed(0, skipped);
    }
    return Built(tree, inserted, skipped);
  }

  lemma {:induction false} FailureStays(items: seq<Item>, n: nat, reject: Prefix -> bool)
    requires n <= |items| && BuildFold(items[..n], reject).Failed?
    ensures BuildFold(items, reject) == BuildFold(items[..n], reject)
    decreases |items|
  {
    if n < |items| {
      var m := |items| - 1;
      assert items[..m][..n] == items[..n];
      FailureStays(items[..m], n, reject);
    } else {
      assert items[..n] == items;
    }
  }

  // ----- what the tree holds -----

  /** The record an item delivers at tree address `x`, if its network holds `x` and is not skipped. */
  function Reach(item: Item, x: nat, reject: Prefix -> bool): seq<Stored> {
    match item
    case Err(_) => []
    case Ok(e) =>
      match NormalizePrefix(e.network)
      case None => []
      case Some(p) => if p.Holds(x) && !reject(p) then [StoredFor(e, p)] else []
  }

  /** The records of the inserted entries that cover `x`, in stream order. */
  function Reaching(items: seq<Item>, x: nat, reject: Prefix -> bool): seq<Stored> {
    if items == [] then []
    else Reaching(items[..|items| - 1], x, reject) + Reach(items[|items| - 1], x, reject)
  }

  lemma {:induction false} ReachingConcat(a: seq<Item>, b: seq<Item>, x: nat, reject: Prefix -> bool)
    ensures Reaching(a + b, x, reject) == Reaching(a, x, reject) + Reaching(b, x, reject)
    decreases |b|
  {
    hide Reach;
    if b == [] {
      assert a + b == a;
    } else {
      var n := |b| - 1;
      assert (a + b)[..|a + b| - 1] == a + b[..n];
      ReachingConcat(a, b[..n], x, reject);
    }
  }

  lemma {:induction false} NoneReaches(items: seq<Item>, x: nat, reject: Prefix -> bool)
    requires forall i :: 0 <= i < |items| ==> Reach(items[i], x, reject) == []
    ensures Reaching(items, x, reject) == []
  {
    hide Reach;
    if items != [] { NoneReaches(items[..|items| - 1], x, reject); }
  }

  lemma {:induction false} ReachingCanonical(items: seq<Item>, x: nat, reject: Prefix -> bool)
    ensures AllCanonical(Reaching(items, x, reject))
  {
    if items != [] {
      var n := |items| - 1;
      ReachingCanonical(items[..n], x, reject);
      if items[n].Ok? && NormalizePrefix(items[n].entry.network).Some? {
        var e := items[n].entry;
        StoreRoundTrip(e.record, StoredFor(e, NormalizePrefix(e.network).value).ipv6);
      }
    }
  }

  lemma InsertEntryFind(tree: Trie<Stored>, p: Prefix, rec: Stored, x: nat)
    requires p.IsValid() && Fits(tree, V6_BITS) && x < Pow2(V6_BITS)
    ensures Fits(InsertEntry(tree, p, rec), V6_BITS)
    ensures Find(InsertEntry(tree, p, rec), V6_BITS, x) ==
            if p.Holds(x) then Some(Merge(Find(tree, V6_BITS, x), rec)) else Find(tree, V6_BITS, x)
  {
    hide Merge, Insert, Find, Aligned;
    PrefixInFamily(p);
    Pow2Mono(Width(p.addr.fam), V6_BITS);
    InsertFind(tree, V6_BITS, p.First(), p.Host(), Inserter(rec), x);
  }

  lemma AddItemRefines(t: Trie<Stored>, i: nat, s: nat, item: Item, reject: Prefix -> bool, x: nat, rs: seq<Stored>)
    requires Fits(t, V6_BITS) && x < Pow2(V6_BITS) && Find(t, V6_BITS, x) == Fold(rs)
    ensures var r := AddItem(t, i, s, item, reject);
            r.Built? ==> Fits(r.tree, V6_BITS) && Find(r.tree, V6_BITS, x) == Fold(rs + Reach(item, x, reject))
  {
    hide Find, Fits, Fold, InsertEntry, Merge, ToStored, Pow2, Floor, MappedBase;
    assert rs + [] == rs;
    if item.Ok? && NormalizePrefix(item.entry.network).Some? {
      var e := item.entry;
      var p := NormalizePrefix(e.network).value;
      if p.IsValid() {
        InsertEntryFind(t, p, StoredFor(e, p), x);
        FoldSnoc(rs, StoredFor(e, p));
      }
    }
  }

  /** The tree refines the fold: what is found at an address is the left fold of the merge over
      exactly the inserted entries that cover it, in stream order. */
  lemma {:induction false} BuildRefines(items: seq<Item>, reject: Prefix -> bool, x: nat)
    requires x < Pow2(V6_BITS)
    ensures var r := BuildFold(items, reject);
            r.Built? ==> Fits(r.tree, V6_BITS) && Find(r.tree, V6_BITS, x) == Fold(Reaching(items, x, reject))
  {
    hide AddItem, Reach;
    if items != [] {
      var n := |items| - 1;
      BuildRefines(items[..n], reject, x);
      var prior := BuildFold(items[..n], reject);
      if prior.Built? {
        AddItemRefines(prior.tree, prior.inserted, prior.skipped, items[n], reject, x, Reaching(items[..n], x, reject));
      }
    }
  }

  /** Items that abort a build. */
  predicate Aborts(item: Item) {
    item.Err? || !item.entry.network.IsValid()
  }

  predicate Skips(item: Item, reject: Prefix -> bool) {
    item.Ok? && (NormalizePrefix(item.entry.network).None? || reject(NormalizePrefix(item.entry.network).value))
  }

  ghost predicate Clean(items: seq<Item>) {
    forall i :: 0 <= i < |items| ==> !Aborts(items[i])
  }

  ghost predicate SomeInserted(items: seq<Item>, reject: Prefix -> bool) {
    exists i :: 0 <= i < |items| && !Skips(items[i], reject)
  }

  /** The positions of the items that are not skipped. */
  function InsertedAt(items: seq<Item>, reject: Prefix -> bool): set<nat> {
    set i: nat | i < |items| && !Skips(items[i], reject)
  }

  lemma InsertedAtSnoc(items: seq<Item>, reject: Prefix -> bool)
    requires items != []
    ensures var n := |items| - 1;
            |InsertedAt(items, reject)| == |InsertedAt(items[..n], reject)| + if Skips(items[n], reject) then 0 else 1
  {
    hide Skips;
    var n := |items| - 1;
    var before := InsertedAt(items[..n], reject);
    assert forall i: nat :: i < n ==> items[..n][i] == items[i];
    assert InsertedAt(items, reject) == if Skips(items[n], reject) then before else before + {n};
  }

  lemma InsertedAtSome(items: seq<Item>, reject: Prefix -> bool)
    ensures |InsertedAt(items, reject)| > 0 <==> SomeInserted(items, reject)
  {
    hide Skips;
    if SomeInserted(items, reject) {
      var i :| 0 <= i < |items| && !Skips(items[i], reject);
      assert i in InsertedAt(items, reject);
    }
    if |InsertedAt(items, reject)| > 0 {
      var i :| i in InsertedAt(items, reject);
    }
  }

  /** Build fails in the stream exactly on an error or an invalid network, and otherwise counts as
      inserted the items that are not skipped, and as skipped the others. */
  lemma {:induction false} BuildOutcome(items: seq<Item>, reject: Prefix -> bool)
    ensures var r := BuildFold(items, reject);
            && (r.Built? <==> Clean(items))
            && (r.Built? ==> r.inserted == |InsertedAt(items, reject)| && r.inserted + r.skipped == |items|)
            && (r.Built? ==> (r.inserted > 0 <==> SomeInserted(items, reject)))
  {
    InsertedAtSome(items, reject);
    if items != [] {
      var n := |items| - 1;
      BuildOutcome(items[..n], reject);
      hide InsertEntry, InsertedAt, SomeInserted;
      var prior := BuildFold(items[..n], reject);
      assert Clean(items) <==> Clean(items[..n]) && !Aborts(items[n]) by {
        assert forall i :: 0 <= i < n ==> items[..n][i] == items[i];
      }
      InsertedAtSnoc(items, reject);
    }
  }

  /** The counters that come with an error are those of the items before the first that aborts. */
  lemma {:induction false} FailureCounts(items: seq<Item>, reject: Prefix -> bool) returns (k: nat)
    requires BuildFold(items, reject).Failed?
    ensures k < |items| && Aborts(items[k]) && Clean(items[..k])
    ensures var r := BuildFold(items, reject);
            r.inserted == |InsertedAt(items[..k], reject)| && r.inserted + r.skipped == k
  {
    hide InsertEntry, InsertedAt, SomeInserted, Skips, Aborts;
    var n := |items| - 1;
    if BuildFold(items[..n], reject).Failed? {
      k := FailureCounts(items[..n], reject);
      assert items[..n][..k] == items[..k];
    } else {
      k := n;
      BuildOutcome(items[..n], reject);
      BuildOutcome(items, reject);
      assert forall i :: 0 <= i < n ==> items[..n][i] == items[i];
    }
  }

  /** Build as a whole succeeds exactly when no item aborts it and some item is inserted; a clean
      stream of which nothing is inserted fails with every entry counted as skipped. */
  lemma BuildExactlyWhen(items: seq<Item>, reject: Prefix -> bool)
    ensures var r := Finish(BuildFold(items, reject));
            && (r.Built? <==> Clean(items) && SomeInserted(items, reject))
            && (Clean(items) && !SomeInserted(items, reject) ==> r == Failed(0, |items|))
  {
    hide BuildFold, Clean, SomeInserted, InsertedAt;
    BuildOutcome(items, reject);
  }

  /** The tree a build leaves is reduced, so by ReducedUnique it is determined by what it holds. */
  lemma {:induction false} BuildReduced(items: seq<Item>, reject: Prefix -> bool)
    ensures var r := BuildFold(items, reject); r.Built? ==> Reduced(r.tree)
  {
    if items != [] {
      var n := |items| - 1;
      hide AddItem, Reduced;
      BuildReduced(items[..n], reject);
      var prior := BuildFold(items[..n], reject);
      if prior.Built? { AddItemReduced(prior.tree, prior.inserted, prior.skipped, items[n], reject); }
    }
  }

  lemma AddItemReduced(t: Trie<Stored>, i: nat, s: nat, item: Item, reject: Prefix -> bool)
    requires Reduced(t)
    ensures AddItem(t, i, s, item, reject).Built? ==> Reduced(AddItem(t, i, s, item, reject).tree)
  {
    hide ToStored, Merge, Insert, Reduced, Pow2, Floor, MappedBase, Aligned;
    if item.Ok? && NormalizePrefix(item.entry.network).Some? {
      var p := NormalizePrefix(item.entry.network).value;
      if p.IsValid() {
        PrefixInFamily(p);
        Pow2Mono(Width(p.addr.fam), V6_BITS);
        InsertReduced(t, V6_BITS, p.First(), p.Host(), Inserter(StoredFor(item.entry, p)));
      }
    }
  }
}
