// Writing the tree out with deduplicated records, reading it back, and the tree
// walk that Verify reports on (attribution/verify.go).
module Verifying {
  import opened Bits
  import opened Net
  import opened Records
  import opened MergeLaws
  import opened Streams
  import opened Tries
  import opened Building
  import opened BuildLaws
  import opened Reading

  // ----- writing the database -----

  function PositionOf(data: seq<Stored>, v: Stored): nat
    requires v in data
    ensures PositionOf(data, v) < |data| && data[PositionOf(data, v)] == v
  {
    if data[0] == v then 0 else 1 + PositionOf(data[1..], v)
  }

  /** The tree with each record replaced by its position in a data section that holds it once. */
  function Written(t: Trie<Stored>, data: seq<Stored>): (Trie<nat>, seq<Stored>) {
    match t
    case Empty => (Empty, data)
    case Leaf(v) => if v in data then (Leaf(PositionOf(data, v)), data) else (Leaf(|data|), data + [v])
    case Node(l, r) =>
      var (zero, d) := Written(l, data);
      var (one, e) := Written(r, d);
      (Node(zero, one), e)
  }

  ghost predicate Distinct(data: seq<Stored>) {
    forall i, j :: 0 <= i < j < |data| ==> data[i] != data[j]
  }

  lemma {:induction false} WrittenExtends(t: Trie<Stored>, data: seq<Stored>)
    requires Distinct(data)
    ensures data <= Written(t, data).1 && Distinct(Written(t, data).1)
  {
    if t.Node? {
      WrittenExtends(t.zero, data);
      WrittenExtends(t.one, Written(t.zero, data).1);
    }
  }

  /** Lookups in the written tree lead to the record, also after more records were written. */
  lemma {:induction false} WrittenFinds(t: Trie<Stored>, data: seq<Stored>, later: seq<Stored>, h: nat, x: nat)
    requires Fits(t, h) && Distinct(data) && x < Pow2(h) && Written(t, data).1 <= later
    ensures Fits(Written(t, data).0, h)
    ensures Find(Written(t, data).0, h, x) == None <==> Find(t, h, x) == None
    ensures Find(t, h, x).Some? ==>
              var o := Find(Written(t, data).0, h, x).value; o < |later| && later[o] == Find(t, h, x).value
    decreases h
  {
    if t.Node? {
      var (zero, d) := Written(t.zero, data);
      WrittenExtends(t.zero, data);
      WrittenExtends(t.one, d);
      if x < Pow2(h - 1) {
        WrittenFinds(t.zero, data, later, h - 1, x);
        WrittenFinds(t.one, d, later, h - 1, x);
      } else {
        WrittenFinds(t.zero, data, later, h - 1, x - Pow2(h - 1));
        WrittenFinds(t.one, d, later, h - 1, x - Pow2(h - 1));
      }
    }
  }

  /** tree.WriteTo, as the reader sees its output. */
  function WriteTo(t: Trie<Stored>): Reader {
    var (tree, data) := Written(t, []);
    Reader(tree, map o: nat | 0 <= o < |data| :: data[o])
  }

  /** A written tree reads back: the same addresses are found, with the same records, and distinct
      offsets hold distinct records. */
  lemma ReadBack(t: Trie<Stored>, x: nat)
    requires Fits(t, V6_BITS) && x < Pow2(V6_BITS)
    ensures var r := WriteTo(t);
            && r.Valid()
            && (r.At(x).Some? <==> Find(t, V6_BITS, x).Some?)
            && (r.At(x).Some? ==> r.At(x).value in r.data && r.data[r.At(x).value] == Find(t, V6_BITS, x).value)
            && forall o, p :: o in r.data && p in r.data && r.data[o] == r.data[p] ==> o == p
  {
    WrittenExtends(t, []);
    WrittenFinds(t, [], Written(t, []).1, V6_BITS, x);
  }

  /** From entry stream to answer: the database built from a stream answers a lookup with the record
      the closed form describes, and has none exactly where no inserted entry covers the address. */
  lemma LookupAfterBuild(items: seq<Item>, reject: Prefix -> bool, ip: Addr)
    requires BuildFold(items, reject).Built? && ip.IP?
    ensures var r, rs := WriteTo(BuildFold(items, reject).tree), Reaching(items, TreeAddr(ip), reject);
            && (r.At(TreeAddr(ip)).None? <==> rs == [])
            && (rs != [] ==> r.At(TreeAddr(ip)).value in r.data && ClosedForm(rs, r.data[r.At(TreeAddr(ip)).value]))
  {
    var x := TreeAddr(ip);
    TreeAddrFits(ip);
    BuildRefines(items, reject, x);
    HeldClosedForm(items, reject, x);
    ReadBack(BuildFold(items, reject).tree, x);
  }

  // ----- Verify -----

  datatype Report = Report(networks: nat, byProvider: map<string, nat>, ipv4: nat, ipv6: nat, oldest: Time,
                           newest: Time)

  predicate Sound(nr: NetworkRecord) {
    nr.Network? && nr.rec.provider != ""
  }

  function CountOf(items: seq<NetworkRecord>, p: string): nat {
    if items == [] then 0
    else
      var last := items[|items| - 1];
      CountOf(items[..|items| - 1], p) + if last.Network? && last.rec.provider == p then 1 else 0
  }

  function CountV6(items: seq<NetworkRecord>): nat {
    if items == [] then 0
    else
      var last := items[|items| - 1];
      CountV6(items[..|items| - 1]) + if last.Network? && last.rec.ipv6 then 1 else 0
  }

  ghost function Sum(m: map<string, nat>): nat
    decreases |m|
  {
    if m == map[] then 0
    else
      var k :| k in m;
      m[k] + Sum(m - {k})
  }

  lemma {:induction false} SumWithout(m: map<string, nat>, k: string)
    requires k in m
    ensures Sum(m) == m[k] + Sum(m - {k})
    decreases |m|
  {
    var j :| j in m && Sum(m) == m[j] + Sum(m - {j});
    if j != k {
      SumWithout(m - {j}, k);
      SumWithout(m - {k}, j);
      assert (m - {j}) - {k} == (m - {k}) - {j};
    }
  }

  lemma SumIncrement(m: map<string, nat>, k: string)
    ensures Sum(m[k := (if k in m then m[k] else 0) + 1]) == Sum(m) + 1
  {
    var n := m[k := (if k in m then m[k] else 0) + 1];
    SumWithout(n, k);
    assert n - {k} == m - {k};
    if k in m { SumWithout(m, k); } else { assert m - {k} == m; }
  }

  /** The aggregates of a walk: totals, per-provider counts, and the extreme timestamps present. */
  ghost predicate Aggregates(items: seq<NetworkRecord>, rep: Report) {
    && rep.networks == |items| && rep.ipv6 == CountV6(items) && rep.ipv4 + rep.ipv6 == rep.networks
    && Sum(rep.byProvider) == rep.networks
    && PerProvider(items, rep.byProvider)
    && Extremes(items, rep.oldest, rep.newest)
  }

  ghost predicate PerProvider(items: seq<NetworkRecord>, m: map<string, nat>) {
    forall p :: if p in m then m[p] == CountOf(items, p) > 0 else CountOf(items, p) == 0
  }

  lemma PerProviderSnoc(items: seq<NetworkRecord>, nr: NetworkRecord, m: map<string, nat>)
    requires PerProvider(items, m) && nr.Network?
    ensures var p := nr.rec.provider; PerProvider(items + [nr], m[p := (if p in m then m[p] else 0) + 1])
  {
    assert (items + [nr])[..|items|] == items;
  }

  ghost predicate Dated(items: seq<NetworkRecord>, t: int) {
    exists i :: 0 <= i < |items| && items[i].Network? && items[i].rec.syncedAt == At(t)
  }

  ghost predicate Extremes(items: seq<NetworkRecord>, oldest: Time, newest: Time) {
    && (oldest.At? <==> exists t :: Dated(items, t))
    && (oldest.At? ==> Dated(items, oldest.unix) && forall t :: Dated(items, t) ==> oldest.unix <= t)
    && (newest.At? <==> exists t :: Dated(items, t))
    && (newest.At? ==> Dated(items, newest.unix) && forall t :: Dated(items, t) ==> t <= newest.unix)
  }

  lemma DatedSnoc(items: seq<NetworkRecord>, nr: NetworkRecord, t: int)
    ensures Dated(items + [nr], t) <==> Dated(items, t) || (nr.Network? && nr.rec.syncedAt == At(t))
  {
    var all := items + [nr];
    if Dated(items, t) {
      var i :| 0 <= i < |items| && items[i].Network? && items[i].rec.syncedAt == At(t);
      assert all[i] == items[i];
    }
    assert all[|items|] == nr;
  }

  /** time.Time.Before and After, where the zero time precedes every time of a record. */
  predicate Older(a: int, b: Time) {
    b == ZeroTime || a < b.unix
  }

  predicate Newer(a: int, b: Time) {
    b == ZeroTime || a > b.unix
  }

  lemma ExtremesSnoc(items: seq<NetworkRecord>, nr: NetworkRecord, oldest: Time, newest: Time)
    requires Extremes(items, oldest, newest) && nr.Network?
    ensures var t := nr.rec.syncedAt;
            Extremes(items + [nr],
                     if t.At? && Older(t.unix, oldest) then t else oldest,
                     if t.At? && Newer(t.unix, newest) then t else newest)
  {
    forall t ensures Dated(items + [nr], t)
      <==> Dated(items, t) || nr.rec.syncedAt == At(t) { DatedSnoc(items, nr, t); }
  }

  /** Every record of the walk decodes and names a provider. */
  ghost predicate SoundWalk(r: Reader) {
    forall s :: s in Leaves(r.tree, V6_BITS, 0) ==> s.offset in r.data && r.data[s.offset].provider != ""
  }

  ghost predicate AllSound(items: seq<NetworkRecord>) {
    forall j :: 0 <= j < |items| ==> Sound(items[j])
  }

  lemma SoundItems(r: Reader, ls: seq<Spot>)
    requires forall s :: s in ls ==> s.base < Pow2(V6_BITS)
    ensures AllSound(Walked(r, ls)) <==> forall s :: s in ls ==> s.offset in r.data && r.data[s.offset].provider != ""
    ensures AllSound(Walked(r, ls)) ==> |Walked(r, ls)| == |ls|
    ensures Walked(r, ls) == [] <==> ls == []
  {
    hide NodePrefix;
    WalkedItems(r, ls);
    var items := Walked(r, ls);
    if AllSound(items) {
      forall s | s in ls ensures s.offset in r.data && r.data[s.offset].provider != "" {
        var i :| 0 <= i < |ls| && ls[i] == s;
        assert Sound(items[i]);
      }
    }
    if forall s :: s in ls ==> s.offset in r.data && r.data[s.offset].provider != "" {
      forall j | 0 <= j < |items| ensures Sound(items[j]) { assert ls[j] in ls; }
    }
  }

  /** Verify fails on a record that does not decode, an empty provider or an empty tree, and
      otherwise reports the aggregates of the whole walk. */
  method Verify(db: DB) returns (ok: bool, rep: Report)
    requires db.Valid()
    ensures SpotsValid(Leaves(db.r.tree, V6_BITS, 0))
    ensures ok <==> Leaves(db.r.tree, V6_BITS, 0) != [] && SoundWalk(db.r)
    ensures ok ==> Aggregates(Walked(db.r, Leaves(db.r.tree, V6_BITS, 0)), rep)
    ensures ok ==> rep.networks == |Leaves(db.r.tree, V6_BITS, 0)| > 0
  {
    WalkSpots(db.r);
    SoundItems(db.r, Leaves(db.r.tree, V6_BITS, 0));
    hide Leaves, Aligned, Walked, Aggregates, AllSound;
    ok, rep := Tally(Walked(db.r, Leaves(db.r.tree, V6_BITS, 0)));
  }

  /** The loop of Verify over what Networks yields. */
  method Tally(items: seq<NetworkRecord>) returns (ok: bool, rep: Report)
    ensures ok <==> items != [] && AllSound(items)
    ensures ok ==> Aggregates(items, rep) && rep.networks == |items|
  {
    hide Aggregates, Sound;
    rep := Report(0, map[], 0, 0, ZeroTime, ZeroTime);
    NothingYet();
    assert items[..0] == [];
    var i := 0;
    while i < |items|
      invariant i <= |items|
      invariant Aggregates(items[..i], rep)
      invariant forall j :: 0 <= j < i ==> Sound(items[j])
    {
      if !Sound(items[i]) {
        return false, rep;
      }
      SoundNetwork(items[i]);
      assert items[..i + 1] == items[..i] + [items[i]];
      rep := CountNetwork(rep, items[i], items[..i]);
      i := i + 1;
    }
    assert items[..i] == items;
    AggregateTotal(items, rep);
    ok := rep.networks > 0;
  }

  lemma SoundNetwork(nr: NetworkRecord)
    ensures Sound(nr) ==> nr.Network?
  {
  }

  lemma NothingYet()
    ensures Aggregates([], Report(0, map[], 0, 0, ZeroTime, ZeroTime))
  {
  }

  lemma AggregateTotal(items: seq<NetworkRecord>, rep: Report)
    requires Aggregates(items, rep)
    ensures rep.networks == |items|
  {
  }

  /** The loop body of Verify. */
  method CountNetwork(before: Report, nr: NetworkRecord, ghost seen: seq<NetworkRecord>) returns (rep: Report)
    requires Aggregates(seen, before) && nr.Network?
    ensures Aggregates(seen + [nr], rep)
  {
    hide Sum, Extremes, PerProvider, CountOf, Older, Newer, CountV6;
    var p, t := nr.rec.provider, nr.rec.syncedAt;
    var ipv4, ipv6, oldest, newest := before.ipv4, before.ipv6, before.oldest, before.newest;
    var byProvider := before.byProvider[p := (if p in before.byProvider then before.byProvider[p] else 0) + 1];
    if nr.rec.ipv6 {
      ipv6 := ipv6 + 1;
    } else {
      ipv4 := ipv4 + 1;
    }
    if t.At? {
      if Older(t.unix, oldest) {
        oldest := t;
      }
      if Newer(t.unix, newest) {
        newest := t;
      }
    }
    rep := Report(before.networks + 1, byProvider, ipv4, ipv6, oldest, newest);
    SumIncrement(before.byProvider, p);
    PerProviderSnoc(seen, nr, before.byProvider);
    ExtremesSnoc(seen, nr, before.oldest, before.newest);
    CountV6Snoc(seen, nr);
  }

  lemma CountV6Snoc(items: seq<NetworkRecord>, nr: NetworkRecord)
    requires nr.Network?
    ensures CountV6(items + [nr]) == CountV6(items) + if nr.rec.ipv6 then 1 else 0
  {
    assert (items + [nr])[..|items|] == items;
  }

  // ----- the report, said of the leaves and their records -----

  /** The leaves whose record satisfies a property. */
  ghost function LeavesWith(r: Reader, walk: seq<Spot>, has: Stored -> bool): set<nat> {
    set i: nat | i < |walk| && walk[i].offset in r.data && has(r.data[walk[i].offset])
  }

  lemma LeavesWithSnoc(r: Reader, walk: seq<Spot>, has: Stored -> bool)
    requires walk != [] && walk[|walk| - 1].offset in r.data
    ensures var n := |walk| - 1;
            |LeavesWith(r, walk, has)|
            == |LeavesWith(r, walk[..n], has)| + if has(r.data[walk[n].offset]) then 1 else 0
  {
    var n := |walk| - 1;
    var before := LeavesWith(r, walk[..n], has);
    assert forall i: nat :: i < n ==> walk[..n][i] == walk[i];
    assert LeavesWith(r, walk, has) == if has(r.data[walk[n].offset]) then before + {n} else before;
  }

  /** The items of a walk without a bad record, one for each leaf. */
  ghost predicate ItemsOf(r: Reader, walk: seq<Spot>, items: seq<NetworkRecord>) {
    && |items| == |walk|
    && forall i :: 0 <= i < |walk| ==>
         walk[i].offset in r.data && items[i].Network? && items[i].rec == ToRecord(r.data[walk[i].offset])
  }

  lemma {:induction false} CountsAreSizes(r: Reader, walk: seq<Spot>, items: seq<NetworkRecord>, p: string)
    requires ItemsOf(r, walk, items)
    ensures CountOf(items, p) == |LeavesWith(r, walk, (s: Stored) => s.provider == p)|
    ensures CountV6(items) == |LeavesWith(r, walk, (s: Stored) => s.ipv6)|
    ensures |items| - CountV6(items) == |LeavesWith(r, walk, (s: Stored) => !s.ipv6)|
  {
    hide LeavesWith;
    if walk == [] {
      NoLeavesWith(r, (s: Stored) => s.provider == p);
      NoLeavesWith(r, (s: Stored) => s.ipv6);
      NoLeavesWith(r, (s: Stored) => !s.ipv6);
    } else {
      var n := |walk| - 1;
      assert forall i :: 0 <= i < n ==> items[..n][i] == items[i] && walk[..n][i] == walk[i];
      CountsAreSizes(r, walk[..n], items[..n], p);
      LeavesWithSnoc(r, walk, (s: Stored) => s.provider == p);
      LeavesWithSnoc(r, walk, (s: Stored) => s.ipv6);
      LeavesWithSnoc(r, walk, (s: Stored) => !s.ipv6);
    }
  }

  lemma NoLeavesWith(r: Reader, has: Stored -> bool)
    ensures |LeavesWith(r, [], has)| == 0
  {
    assert LeavesWith(r, [], has) == {};
  }

  lemma SoundWalkItems(r: Reader)
    requires SpotsValid(Leaves(r.tree, V6_BITS, 0)) && SoundWalk(r)
    ensures var walk := Leaves(r.tree, V6_BITS, 0); ItemsOf(r, walk, Walked(r, walk))
  {
    hide Leaves, NodePrefix, Aligned, ToRecord;
    var walk := Leaves(r.tree, V6_BITS, 0);
    SoundItems(r, walk);
    WalkedItems(r, walk);
    forall i | 0 <= i < |walk|
      ensures walk[i].offset in r.data && Walked(r, walk)[i].Network?
      ensures Walked(r, walk)[i].rec == ToRecord(r.data[walk[i].offset])
    {
      assert walk[i] in walk;
    }
  }

  ghost predicate LeafDated(r: Reader, walk: seq<Spot>, t: nat) {
    exists i :: 0 <= i < |walk| && walk[i].offset in r.data && r.data[walk[i].offset].syncedAt == t
  }

  lemma DatedLeaves(r: Reader, walk: seq<Spot>, items: seq<NetworkRecord>, t: int)
    requires ItemsOf(r, walk, items)
    ensures Dated(items, t) <==> t > 0 && LeafDated(r, walk, t)
  {
    if Dated(items, t) {
      var i :| 0 <= i < |items| && items[i].Network? && items[i].rec.syncedAt == At(t);
      assert r.data[walk[i].offset].syncedAt == t;
    }
    if t > 0 && LeafDated(r, walk, t) {
      var i :| 0 <= i < |walk| && walk[i].offset in r.data && r.data[walk[i].offset].syncedAt == t;
      assert items[i].rec.syncedAt == At(t);
    }
  }

  /** What the report of a verified database says: how many leaves there are, how many have each
      provider and each family, and the extreme positive timestamps of their records. */
  lemma ReportMeaning(r: Reader, rep: Report)
    requires SpotsValid(Leaves(r.tree, V6_BITS, 0)) && SoundWalk(r)
    requires Aggregates(Walked(r, Leaves(r.tree, V6_BITS, 0)), rep)
    ensures var walk := Leaves(r.tree, V6_BITS, 0);
            && rep.networks == |walk|
            && rep.ipv6 == |LeavesWith(r, walk, (s: Stored) => s.ipv6)|
            && rep.ipv4 == |LeavesWith(r, walk, (s: Stored) => !s.ipv6)|
            && (forall p :: (if p in rep.byProvider then rep.byProvider[p] else 0)
                            == |LeavesWith(r, walk, (s: Stored) => s.provider == p)|)
            && (rep.oldest.At? <==> exists t: nat :: t > 0 && LeafDated(r, walk, t))
            && (rep.newest.At? <==> rep.oldest.At?)
            && (rep.oldest.At? ==>
                  && 0 < rep.oldest.unix <= rep.newest.unix
                  && LeafDated(r, walk, rep.oldest.unix) && LeafDated(r, walk, rep.newest.unix)
                  && forall t: nat :: t > 0 && LeafDated(r, walk, t) ==> rep.oldest.unix <= t <= rep.newest.unix)
  {
    hide Leaves, Aligned, LeavesWith, Walked, CountOf, CountV6, LeafDated, Dated, ToRecord, Sum;
    var walk := Leaves(r.tree, V6_BITS, 0);
    var items := Walked(r, walk);
    SoundWalkItems(r);
    forall p
      ensures CountOf(items, p) == |LeavesWith(r, walk, (s: Stored) => s.provider == p)|
    {
      CountsAreSizes(r, walk, items, p);
    }
    CountsAreSizes(r, walk, items, "");
    forall t: int ensures Dated(items, t) <==> t > 0 && LeafDated(r, walk, t) {
      DatedLeaves(r, walk, items, t);
    }
  }
}
