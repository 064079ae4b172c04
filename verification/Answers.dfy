// From entry stream to answer, in terms of the entries themselves: which record
// a lookup in the database built from a stream decodes.
module Answers {
  import opened Bits
  import opened Net
  import opened Strings
  import opened Records
  import opened MergeLaws
  import opened Streams
  import opened Tries
  import opened Building
  import opened Reading
  import opened Verifying

  /** The addresses a feed's network stands for: a v4-mapped network of at least 96 bits stands for
      the IPv4 block it embeds, a shorter one for nothing. */
  predicate InNetwork(p: Prefix, x: nat) {
    if Is4In6(p.addr) then p.bits >= 96 && p.Holds(MappedBase() + x) else p.Holds(x)
  }

  predicate Takes(p: Prefix, reject: Prefix -> bool) {
    NormalizePrefix(p).Some? && !reject(NormalizePrefix(p).value)
  }

  /** The item is an entry whose network holds `x`, and the tree takes it. */
  predicate Covers(item: Item, x: nat, reject: Prefix -> bool) {
    item.Ok? && InNetwork(item.entry.network, x) && Takes(item.entry.network, reject)
  }

  predicate IsV6(p: Prefix) {
    p.addr.IP? && p.addr.fam == V6 && !Is4In6(p.addr)
  }

  lemma NormalizedHolds(p: Prefix, x: nat)
    ensures InNetwork(p, x) <==> NormalizePrefix(p).Some? && NormalizePrefix(p).value.Holds(x)
    ensures NormalizePrefix(p).Some? && p.IsValid() ==> (IsV6(p) <==> NormalizePrefix(p).value.addr.fam == V6)
  {
    if p.IsValid() { NormalizeMovesBlock(p); }
    hide Pow2, Floor, MappedBase;
  }

  /** The one record a covering entry delivers is the stored form of its own. */
  lemma CoversReach(item: Item, x: nat, reject: Prefix -> bool)
    ensures Covers(item, x, reject) <==> Reach(item, x, reject) != []
    ensures Covers(item, x, reject) ==>
              && |Reach(item, x, reject)| == 1
              && Stores(Reach(item, x, reject)[0], item.entry.record, IsV6(item.entry.network))
  {
    hide Pow2, Floor, MappedBase, ToStored, Stores, IsV6, InNetwork, Is4In6, NormalizePrefix;
    if item.Ok? {
      var e := item.entry;
      NormalizedHolds(e.network, x);
      if Reach(item, x, reject) != [] {
        var s := Reach(item, x, reject)[0];
        StoredFields(e.record, IsV6(e.network), s);
      }
    }
  }

  /** The positions of the covering entries, ascending. */
  function CoverAt(items: seq<Item>, x: nat, reject: Prefix -> bool): seq<nat> {
    if items == [] then []
    else
      var n := |items| - 1;
      CoverAt(items[..n], x, reject) + if Covers(items[n], x, reject) then [n] else []
  }

  /** The records that reach an address are those of the covering entries, in order. */
  ghost predicate Delivers(items: seq<Item>, x: nat, reject: Prefix -> bool, at: seq<nat>, rs: seq<Stored>) {
    && |at| == |rs|
    && (forall a :: 0 <= a < |at| ==> at[a] < |items| && Covers(items[at[a]], x, reject)
                                      && Stores(rs[a], items[at[a]].entry.record, IsV6(items[at[a]].entry.network)))
    && (forall a, b :: 0 <= a < b < |at| ==> at[a] < at[b])
    && forall i: nat :: i < |items| && Covers(items[i], x, reject) ==> i in at
  }

  lemma {:induction false} ReachingDelivers(items: seq<Item>, x: nat, reject: Prefix -> bool)
    ensures Delivers(items, x, reject, CoverAt(items, x, reject), Reaching(items, x, reject))
  {
    hide Reach, Covers, Stores;
    if items != [] {
      var n := |items| - 1;
      var pre := items[..n];
      ReachingDelivers(pre, x, reject);
      CoversReach(items[n], x, reject);
      DeliversSnoc(items, x, reject, CoverAt(pre, x, reject), Reaching(pre, x, reject));
    }
  }

  lemma DeliversSnoc(items: seq<Item>, x: nat, reject: Prefix -> bool, at: seq<nat>, rs: seq<Stored>)
    requires items != [] && Delivers(items[..|items| - 1], x, reject, at, rs)
    requires var last := items[|items| - 1];
             && (Covers(last, x, reject) <==> Reach(last, x, reject) != [])
             && (Covers(last, x, reject) ==>
                   && |Reach(last, x, reject)| == 1
                   && Stores(Reach(last, x, reject)[0], last.entry.record, IsV6(last.entry.network)))
    ensures var n, more := |items| - 1, Reach(items[|items| - 1], x, reject);
            Delivers(items, x, reject, at + if Covers(items[n], x, reject) then [n] else [], rs + more)
  {
    hide Reach, Covers, Stores;
    var n := |items| - 1;
    assert forall i: nat :: i < n ==> items[..n][i] == items[i];
  }

  function TakenAt(items: seq<Item>, reject: Prefix -> bool): set<nat> {
    set i: nat | i < |items| && items[i].Ok? && Takes(items[i].entry.network, reject)
  }

  function RefusedAt(items: seq<Item>, reject: Prefix -> bool): set<nat> {
    set i: nat | i < |items| && items[i].Ok? && !Takes(items[i].entry.network, reject)
  }

  lemma TakenSnoc(items: seq<Item>, reject: Prefix -> bool)
    requires items != [] && items[|items| - 1].Ok?
    ensures var n := |items| - 1;
            |TakenAt(items, reject)| == |TakenAt(items[..n], reject)| + if Takes(items[n].entry.network, reject)
              then 1 else 0
  {
    hide Takes;
    var n := |items| - 1;
    var before := TakenAt(items[..n], reject);
    assert forall i: nat :: i < n ==> items[..n][i] == items[i];
    assert TakenAt(items, reject) == if Takes(items[n].entry.network, reject) then before + {n} else before;
  }

  lemma RefusedSnoc(items: seq<Item>, reject: Prefix -> bool)
    requires items != [] && items[|items| - 1].Ok?
    ensures var n := |items| - 1;
            |RefusedAt(items, reject)|
            == |RefusedAt(items[..n], reject)| + if Takes(items[n].entry.network, reject) then 0 else 1
  {
    hide Takes;
    var n := |items| - 1;
    var before := RefusedAt(items[..n], reject);
    assert forall i: nat :: i < n ==> items[..n][i] == items[i];
    assert RefusedAt(items, reject) == if Takes(items[n].entry.network, reject) then before else before + {n};
  }

  lemma {:induction false} TakenOrRefused(items: seq<Item>, reject: Prefix -> bool)
    requires forall i :: 0 <= i < |items| ==> items[i].Ok?
    ensures |TakenAt(items, reject)| + |RefusedAt(items, reject)| == |items|
  {
    if items != [] {
      TakenSnoc(items, reject);
      RefusedSnoc(items, reject);
      hide TakenAt, RefusedAt, Takes;
      TakenOrRefused(items[..|items| - 1], reject);
    } else {
      assert TakenAt(items, reject) == {} == RefusedAt(items, reject);
    }
  }

  /** A build counts as inserted the entries whose network the tree takes, and as skipped the others. */
  lemma CountsEntries(items: seq<Item>, reject: Prefix -> bool)
    requires Finish(BuildFold(items, reject)).Built?
    ensures var r := Finish(BuildFold(items, reject));
            r.inserted == |TakenAt(items, reject)| && r.skipped == |RefusedAt(items, reject)|
  {
    hide BuildFold, NormalizePrefix;
    BuildOutcome(items, reject);
    assert TakenAt(items, reject) == InsertedAt(items, reject);
    TakenOrRefused(items, reject);
  }

  // ----- the answer, said of the entries -----

  /** Entry `i` covers `x` and is of the provider of entry `first`. */
  ghost predicate Ours(items: seq<Item>, x: nat, reject: Prefix -> bool, first: nat, i: nat)
    requires first < |items| && Covers(items[first], x, reject)
  {
    && i < |items| && Covers(items[i], x, reject)
    && items[i].entry.record.provider == items[first].entry.record.provider
  }

  predicate Sets(r: Record, k: string) {
    k in r.ext && r.ext[k] != ""
  }

  /** Entry `i` is the last of its provider to set ext key `k` at `x`. */
  ghost predicate HasLastWord(items: seq<Item>, x: nat, reject: Prefix -> bool, first: nat, i: nat, k: string)
    requires first < |items| && Covers(items[first], x, reject)
  {
    && Ours(items, x, reject, first, i) && Sets(items[i].entry.record, k)
    && forall j: nat :: i < j && Ours(items, x, reject, first, j) ==> !Sets(items[j].entry.record, k)
  }

  ghost predicate Leads(items: seq<Item>, x: nat, reject: Prefix -> bool, first: nat) {
    && first < |items| && Covers(items[first], x, reject)
    && forall i: nat :: i < first ==> !Covers(items[i], x, reject)
  }

  /** Provider, region and source of the first covering entry; whether its network is IPv6. */
  ghost predicate NamesFirst(items: seq<Item>, first: nat, rec: Record)
    requires first < |items| && items[first].Ok?
  {
    var e := items[first].entry;
    && rec.provider == e.record.provider && rec.region == e.record.region && rec.source == e.record.source
    && (rec.ipv6 <==> IsV6(e.network))
  }

  ghost predicate Offered(items: seq<Item>, x: nat, reject: Prefix -> bool, first: nat, service: string)
    requires first < |items| && Covers(items[first], x, reject)
  {
    exists i: nat :: Ours(items, x, reject, first, i) && service in items[i].entry.record.services
  }

  ghost predicate InCategory(items: seq<Item>, x: nat, reject: Prefix -> bool, category: string) {
    exists i: nat :: i < |items| && Covers(items[i], x, reject) && category in items[i].entry.record.categories
  }

  ghost predicate SyncedAt(items: seq<Item>, x: nat, reject: Prefix -> bool, first: nat, t: int)
    requires first < |items| && Covers(items[first], x, reject)
  {
    t > 0 && exists i: nat :: Ours(items, x, reject, first, i) && items[i].entry.record.syncedAt == At(t)
  }

  /** The record at an address, from the entries that cover it: identity of the first; services, ext
      and newest time over those of its provider, each ext key as last set; categories over all. */
  ghost predicate AnswerOf(items: seq<Item>, x: nat, reject: Prefix -> bool, first: nat, rec: Record)
    requires Leads(items, x, reject, first)
  {
    && NamesFirst(items, first, rec)
    && Ascending(rec.services) && (forall s :: s in rec.services <==> Offered(items, x, reject, first, s))
    && Ascending(rec.categories) && (forall c :: c in rec.categories <==> InCategory(items, x, reject, c))
    && (forall i: nat, k :: HasLastWord(items, x, reject, first, i, k) ==>
          k in rec.ext && rec.ext[k] == items[i].entry.record.ext[k])
    && (forall k :: k in rec.ext ==> exists i: nat :: HasLastWord(items, x, reject, first, i, k))
    && (if rec.syncedAt.At? then
          SyncedAt(items, x, reject, first, rec.syncedAt.unix)
          && forall t :: SyncedAt(items, x, reject, first, t) ==> t <= rec.syncedAt.unix
        else forall t :: !SyncedAt(items, x, reject, first, t))
  }

  // ----- from the closed form over stored records to the entries -----

  /** The first record that reaches an address is that of the first covering entry. */
  lemma FirstDelivered(items: seq<Item>, x: nat, reject: Prefix -> bool, at: seq<nat>, rs: seq<Stored>)
    requires Delivers(items, x, reject, at, rs) && rs != []
    ensures Leads(items, x, reject, at[0])
  {
    hide InNetwork, Takes, Stores, IsV6;
    assert forall a :: 0 <= a < |at| ==> at[0] <= at[a];
    assert forall i :: i in at ==> at[0] <= i;
  }

  /** A record of the first provider belongs to an entry of that provider, and conversely. */
  lemma OursDelivered(items: seq<Item>, x: nat, reject: Prefix -> bool, at: seq<nat>, rs: seq<Stored>, a: nat)
    requires Delivers(items, x, reject, at, rs) && rs != [] && a < |rs| && Covers(items[at[0]], x, reject)
    ensures Ours(items, x, reject, at[0], at[a]) <==> rs[a].provider == rs[0].provider
    ensures rs[a].provider == items[at[a]].entry.record.provider
  {
    hide InNetwork, Takes, IsV6;
  }

  lemma DeliveredServices(items: seq<Item>, x: nat, reject: Prefix -> bool, at: seq<nat>, rs: seq<Stored>, s: string)
    requires Delivers(items, x, reject, at, rs) && rs != [] && Leads(items, x, reject, at[0])
    ensures Serves(rs, s) <==> Offered(items, x, reject, at[0], s)
  {
    hide InNetwork, Takes, Stores, Leads, IsV6;
    if Serves(rs, s) {
      var r :| Own(rs, r) && s in r.services;
      var a :| 0 <= a < |rs| && rs[a] == r;
      OursDelivered(items, x, reject, at, rs, a);
      InLists(r, items[at[a]].entry.record, IsV6(items[at[a]].entry.network), s);
    }
    if Offered(items, x, reject, at[0], s) {
      var i: nat :| Ours(items, x, reject, at[0], i) && s in items[i].entry.record.services;
      var a := PositionAt(items, x, reject, at, rs, i);
      OursDelivered(items, x, reject, at, rs, a);
      InLists(rs[a], items[i].entry.record, IsV6(items[i].entry.network), s);
      assert Own(rs, rs[a]);
    }
  }

  lemma PositionAt(items: seq<Item>, x: nat, reject: Prefix -> bool, at: seq<nat>, rs: seq<Stored>, i: nat)
    returns (a: nat)
    requires Delivers(items, x, reject, at, rs) && i < |items| && Covers(items[i], x, reject)
    ensures a < |at| == |rs| && at[a] == i && Stores(rs[a], items[i].entry.record, IsV6(items[i].entry.network))
  {
    hide InNetwork, Takes, Stores, IsV6;
    a :| 0 <= a < |at| && at[a] == i;
  }

  lemma InLists(s: Stored, r: Record, ipv6: bool, v: string)
    requires Stores(s, r, ipv6)
    ensures v in s.services <==> v in r.services
    ensures v in s.Cats() <==> v in r.categories
    ensures v in s.ext <==> Sets(r, v)
    ensures v in s.ext ==> s.ext[v] == r.ext[v]
  {
    assert v in s.services <==> v in Elems(s.services);
    assert v in r.services <==> v in Elems(r.services);
    assert v in s.Cats() <==> v in Elems(s.Cats());
    assert v in r.categories <==> v in Elems(r.categories);
  }

  lemma DeliveredCategories(items: seq<Item>, x: nat, reject: Prefix -> bool, at: seq<nat>, rs: seq<Stored>, c: string)
    requires Delivers(items, x, reject, at, rs)
    ensures Tagged(rs, c) <==> InCategory(items, x, reject, c)
  {
    hide InNetwork, Takes, Stores, IsV6;
    if Tagged(rs, c) {
      var r :| r in rs && c in r.Cats();
      var a :| 0 <= a < |rs| && rs[a] == r;
      InLists(r, items[at[a]].entry.record, IsV6(items[at[a]].entry.network), c);
    }
    if InCategory(items, x, reject, c) {
      var i: nat :| i < |items| && Covers(items[i], x, reject) && c in items[i].entry.record.categories;
      var a := PositionAt(items, x, reject, at, rs, i);
      InLists(rs[a], items[i].entry.record, IsV6(items[i].entry.network), c);
    }
  }

  lemma DeliveredExt(items: seq<Item>, x: nat, reject: Prefix -> bool, at: seq<nat>, rs: seq<Stored>, a: nat, k: string)
    requires Delivers(items, x, reject, at, rs) && rs != [] && Leads(items, x, reject, at[0]) && a < |rs|
    ensures SetsLast(rs, a, k) <==> HasLastWord(items, x, reject, at[0], at[a], k)
    ensures SetsLast(rs, a, k) ==> rs[a].ext[k] == items[at[a]].entry.record.ext[k]
  {
    hide InNetwork, Takes, Stores, Sets, IsV6;
    OursDelivered(items, x, reject, at, rs, a);
    InLists(rs[a], items[at[a]].entry.record, IsV6(items[at[a]].entry.network), k);
    forall b | 0 <= b < |rs|
      ensures Ours(items, x, reject, at[0], at[b]) <==> rs[b].provider == rs[0].provider
      ensures k in rs[b].ext <==> Sets(items[at[b]].entry.record, k)
    {
      OursDelivered(items, x, reject, at, rs, b);
      InLists(rs[b], items[at[b]].entry.record, IsV6(items[at[b]].entry.network), k);
    }
    if SetsLast(rs, a, k) {
      forall j: nat | at[a] < j && Ours(items, x, reject, at[0], j) ensures !Sets(items[j].entry.record, k) {
        OursCovers(items, x, reject, at[0], j);
        var b := PositionAt(items, x, reject, at, rs, j);
        assert b > a;
      }
    }
  }

  lemma OursCovers(items: seq<Item>, x: nat, reject: Prefix -> bool, first: nat, j: nat)
    requires first < |items| && Covers(items[first], x, reject) && Ours(items, x, reject, first, j)
    ensures j < |items| && Covers(items[j], x, reject)
  {
  }

  lemma DatedDelivered(s: Stored, r: Record, ipv6: bool, t: int)
    requires Stores(s, r, ipv6)
    ensures t > 0 && r.syncedAt == At(t) <==> t > 0 && s.syncedAt == t
  {
  }

  lemma DeliveredSynced(items: seq<Item>, x: nat, reject: Prefix -> bool, at: seq<nat>, rs: seq<Stored>, t: int)
    requires Delivers(items, x, reject, at, rs) && rs != [] && Leads(items, x, reject, at[0])
    ensures SyncedAt(items, x, reject, at[0], t) <==> t > 0 && exists r :: Own(rs, r) && r.syncedAt == t
  {
    hide InNetwork, Takes, Stores, Leads, IsV6;
    if SyncedAt(items, x, reject, at[0], t) {
      var i: nat :| Ours(items, x, reject, at[0], i) && items[i].entry.record.syncedAt == At(t);
      var a := PositionAt(items, x, reject, at, rs, i);
      OursDelivered(items, x, reject, at, rs, a);
      DatedDelivered(rs[a], items[i].entry.record, IsV6(items[i].entry.network), t);
      assert Own(rs, rs[a]);
    }
    if t > 0 && exists r :: Own(rs, r) && r.syncedAt == t {
      var r :| Own(rs, r) && r.syncedAt == t;
      var a :| 0 <= a < |rs| && rs[a] == r;
      OursDelivered(items, x, reject, at, rs, a);
      DatedDelivered(r, items[at[a]].entry.record, IsV6(items[at[a]].entry.network), t);
    }
  }

  lemma SyncedAnswer(items: seq<Item>, x: nat, reject: Prefix -> bool, at: seq<nat>, rs: seq<Stored>, m: Stored)
    requires Delivers(items, x, reject, at, rs) && rs != [] && Leads(items, x, reject, at[0]) && SyncedOf(rs, m)
    ensures var rec := ToRecord(m);
            if rec.syncedAt.At? then
              SyncedAt(items, x, reject, at[0], rec.syncedAt.unix)
              && forall t :: SyncedAt(items, x, reject, at[0], t) ==> t <= rec.syncedAt.unix
            else forall t :: !SyncedAt(items, x, reject, at[0], t)
  {
    hide InNetwork, Takes, Stores, IsV6, SyncedAt;
    forall t ensures SyncedAt(items, x, reject, at[0], t) <==> t > 0 && exists r :: Own(rs, r) && r.syncedAt == t {
      DeliveredSynced(items, x, reject, at, rs, t);
    }
  }

  lemma ExtAnswer(items: seq<Item>, x: nat, reject: Prefix -> bool, at: seq<nat>, rs: seq<Stored>, m: Stored)
    requires Delivers(items, x, reject, at, rs) && rs != [] && Leads(items, x, reject, at[0]) && ExtOf(rs, m)
    ensures forall i: nat, k :: HasLastWord(items, x, reject, at[0], i, k) ==>
              k in m.ext && m.ext[k] == items[i].entry.record.ext[k]
    ensures forall k :: k in m.ext ==> exists i: nat :: HasLastWord(items, x, reject, at[0], i, k)
  {
    hide InNetwork, Takes, Stores, Leads, IsV6, SetsLast, HasLastWord;
    forall i: nat, k | HasLastWord(items, x, reject, at[0], i, k)
      ensures i < |items| && items[i].Ok? && k in items[i].entry.record.ext
      ensures k in m.ext && m.ext[k] == items[i].entry.record.ext[k]
    {
      WordIsSet(items, x, reject, at[0], i, k);
      var a := PositionAt(items, x, reject, at, rs, i);
      DeliveredExt(items, x, reject, at, rs, a, k);
    }
    forall k | k in m.ext ensures exists i: nat :: HasLastWord(items, x, reject, at[0], i, k) {
      var a: nat :| SetsLast(rs, a, k);
      SetsBounds(rs, a, k);
      DeliveredExt(items, x, reject, at, rs, a, k);
    }
  }

  lemma WordIsSet(items: seq<Item>, x: nat, reject: Prefix -> bool, first: nat, i: nat, k: string)
    requires first < |items| && Covers(items[first], x, reject) && HasLastWord(items, x, reject, first, i, k)
    ensures i < |items| && Covers(items[i], x, reject) && k in items[i].entry.record.ext
  {
  }

  lemma SetsBounds(rs: seq<Stored>, a: nat, k: string)
    requires SetsLast(rs, a, k)
    ensures a < |rs|
  {
  }

  lemma ListsAnswer(items: seq<Item>, x: nat, reject: Prefix -> bool, at: seq<nat>, rs: seq<Stored>, m: Stored)
    requires Delivers(items, x, reject, at, rs) && rs != [] && Leads(items, x, reject, at[0])
    requires ServicesOf(rs, m) && CategoriesOf(rs, m)
    ensures Ascending(m.services) && (forall s :: s in m.services <==> Offered(items, x, reject, at[0], s))
    ensures Ascending(m.Cats()) && (forall c :: c in m.Cats() <==> InCategory(items, x, reject, c))
  {
    hide InNetwork, Takes, Stores, IsV6, Offered, InCategory, Serves, Tagged, Lt;
    forall s ensures Serves(rs, s) <==> Offered(items, x, reject, at[0], s) {
      DeliveredServices(items, x, reject, at, rs, s);
    }
    forall c ensures Tagged(rs, c) <==> InCategory(items, x, reject, c) {
      DeliveredCategories(items, x, reject, at, rs, c);
    }
  }

  /** The closed form over the records that reach an address, decoded, is the answer over entries. */
  lemma ClosedFormAnswers(items: seq<Item>, x: nat, reject: Prefix -> bool, at: seq<nat>, rs: seq<Stored>, m: Stored)
    requires Delivers(items, x, reject, at, rs) && rs != [] && ClosedForm(rs, m)
    ensures Leads(items, x, reject, at[0]) && AnswerOf(items, x, reject, at[0], ToRecord(m))
  {
    hide InNetwork, Takes, Stores, IsV6, Offered, InCategory, HasLastWord, SyncedAt, Delivers, NamesFirst, Ascending,
      ServicesOf, CategoriesOf, ExtOf, SyncedOf, IdentityOf;
    FirstDelivered(items, x, reject, at, rs);
    ListsAnswer(items, x, reject, at, rs, m);
    ExtAnswer(items, x, reject, at, rs, m);
    SyncedAnswer(items, x, reject, at, rs, m);
    NamedFirst(items, x, reject, at, rs, m);
  }

  lemma NamedFirst(items: seq<Item>, x: nat, reject: Prefix -> bool, at: seq<nat>, rs: seq<Stored>, m: Stored)
    requires Delivers(items, x, reject, at, rs) && rs != [] && IdentityOf(rs, m)
    ensures at != [] && at[0] < |items| && items[at[0]].Ok? && NamesFirst(items, at[0], ToRecord(m))
  {
    hide InNetwork, Takes, IsV6, Ascending, Elems;
  }

  /** What a lookup decodes from the database built from a stream, in terms of the entries: nothing
      where no accepted entry's network holds the address, and elsewhere the record AnswerOf says. */
  lemma AnswerFromEntries(items: seq<Item>, reject: Prefix -> bool, ip: Addr)
    requires Finish(BuildFold(items, reject)).Built? && ip.IP?
    ensures var r, x := WriteTo(Finish(BuildFold(items, reject)).tree), TreeAddr(ip);
            && (r.At(x).None? <==> forall i: nat :: i < |items| ==> !Covers(items[i], x, reject))
            && (r.At(x).Some? ==>
                  && r.At(x).value in r.data
                  && exists first: nat :: Leads(items, x, reject, first)
                                          && AnswerOf(items, x, reject, first, ToRecord(r.data[r.At(x).value])))
  {
    hide Covers, BuildFold, Reaching, WriteTo, TreeAddr, ClosedForm, AnswerOf, Leads, Find, CoverAt;
    var x := TreeAddr(ip);
    LookupAfterBuild(items, reject, ip);
    ReachingDelivers(items, x, reject);
    var at, rs := CoverAt(items, x, reject), Reaching(items, x, reject);
    var r := WriteTo(BuildFold(items, reject).tree);
    if rs != [] {
      var m := r.data[r.At(x).value];
      ClosedFormAnswers(items, x, reject, at, rs, m);
      assert at[0] < |items| && Covers(items[at[0]], x, reject);
    }
  }

  /** That description leaves a single record. */
  lemma AnswerUnique(items: seq<Item>, x: nat, reject: Prefix -> bool, i: nat, a: Record, j: nat, b: Record)
    requires Leads(items, x, reject, i) && AnswerOf(items, x, reject, i, a)
    requires Leads(items, x, reject, j) && AnswerOf(items, x, reject, j, b)
    ensures a == b
  {
    assert i == j;
    hide Covers, Leads, Offered, InCategory, HasLastWord, SyncedAt, Ascending;
    assert Elems(a.services) == Elems(b.services) && Elems(a.categories) == Elems(b.categories);
    AscendingUnique(a.services, b.services);
    AscendingUnique(a.categories, b.categories);
    forall k ensures k in a.ext <==> k in b.ext {
    }
    forall k | k in a.ext ensures a.ext[k] == b.ext[k] {
      var w: nat :| HasLastWord(items, x, reject, i, w, k);
    }
    assert a.ext == b.ext;
    assert a.syncedAt == b.syncedAt;
  }
}
