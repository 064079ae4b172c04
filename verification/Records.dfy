// Records, their stored form, and the merge that a colliding insert performs
// (attribution/storage.go, attribution/build.go).
module Records {
  import opened Net
  import opened Strings

  /** time.Time at the precision the database keeps: the zero time, or seconds since the epoch. */
  datatype Time = ZeroTime | At(unix: int)

  datatype Record = Record(
    provider: string, region: string, services: seq<string>, categories: seq<string>,
    ipv6: bool, source: string, syncedAt: Time, ext: map<string, string>)

  /** The mmdbtype.Map of one network. `categories` is None when the key is absent. */
  datatype Stored = Stored(
    provider: string, region: string, services: seq<string>, categories: Option<seq<string>>,
    ipv6: bool, source: string, syncedAt: nat, ext: map<string, string>)
  {
    function Cats(): seq<string> {
      if categories.Some? then categories.value else []
    }
  }

  function Epoch(t: Time): nat {
    if t.At? && t.unix > 0 then t.unix else 0
  }

  function NonEmpty(ext: map<string, string>): map<string, string> {
    map k | k in ext && ext[k] != "" :: ext[k]
  }

  function PresentOnly(cats: seq<string>): Option<seq<string>> {
    if cats == [] then None else Some(cats)
  }

  /** What toMMDB stores for a record. */
  function ToStored(r: Record, ipv6: bool): Stored {
    Stored(r.provider, r.region, Canon(r.services), PresentOnly(Canon(r.categories)),
           ipv6, r.source, Epoch(r.syncedAt), NonEmpty(r.ext))
  }

  /** storedRecord.toRecord. */
  function ToRecord(s: Stored): Record {
    Record(s.provider, s.region, s.services, s.Cats(), s.ipv6, s.source,
           if s.syncedAt > 0 then At(s.syncedAt) else ZeroTime, s.ext)
  }

  /** The form every stored record has. */
  ghost predicate Canonical(s: Stored) {
    && Ascending(s.services)
    && (s.categories.Some? ==> s.categories.value != [] && Ascending(s.categories.value))
    && forall k :: k in s.ext ==> s.ext[k] != ""
  }

  /** `s` is the stored form of `r`, field by field: equal identity, the given family flag, the
      elements of both lists in ascending order, the non-empty ext pairs, and the seconds if positive. */
  ghost predicate Stores(s: Stored, r: Record, ipv6: bool) {
    && s.provider == r.provider && s.region == r.region && s.source == r.source && s.ipv6 == ipv6
    && Ascending(s.services) && Elems(s.services) == Elems(r.services)
    && Ascending(s.Cats()) && Elems(s.Cats()) == Elems(r.categories) && (s.categories.None? <==> r.categories == [])
    && (forall k :: k in s.ext <==> k in r.ext && r.ext[k] != "")
    && (forall k :: k in s.ext ==> s.ext[k] == r.ext[k])
    && (if r.syncedAt.At? && r.syncedAt.unix > 0 then s.syncedAt == r.syncedAt.unix else s.syncedAt == 0)
  }

  /** What is stored for any record at all, and nothing else could be. */
  lemma StoredFields(r: Record, ipv6: bool, s: Stored)
    ensures Stores(s, r, ipv6) <==> s == ToStored(r, ipv6)
  {
    CanonCorrect(r.services);
    CanonCorrect(r.categories);
    NoElems(r.categories);
    NoElems(Canon(r.categories));
    if Stores(s, r, ipv6) {
      AscendingUnique(s.services, Canon(r.services));
      AscendingUnique(s.Cats(), Canon(r.categories));
      assert s.ext == NonEmpty(r.ext);
    }
  }

  /** Reading a stored record and storing it again is lossless, and a first store loses only what
      the format cannot carry: order and repeats in lists, empty ext values, times before 1970. */
  lemma StoreRoundTrip(r: Record, ipv6: bool)
    ensures var s := ToStored(r, ipv6); Canonical(s) && ToStored(ToRecord(s), ipv6) == s
    ensures ToRecord(ToStored(r, ipv6)) == r <==>
              && Ascending(r.services) && Ascending(r.categories) && r.ipv6 == ipv6
              && (r.syncedAt.At? ==> r.syncedAt.unix > 0)
              && forall k :: k in r.ext ==> r.ext[k] != ""
  {
    CanonCorrect(r.services);
    CanonCorrect(r.categories);
    CanonFixed(Canon(r.services));
    CanonFixed(Canon(r.categories));
    assert NonEmpty(NonEmpty(r.ext)) == NonEmpty(r.ext);
    if Ascending(r.services) { CanonFixed(r.services); }
    if Ascending(r.categories) { CanonFixed(r.categories); }
    if forall k :: k in r.ext ==> r.ext[k] != "" {
      assert NonEmpty(r.ext) == r.ext;
    }
  }

  lemma CanonicalRoundTrip(s: Stored)
    requires Canonical(s)
    ensures ToStored(ToRecord(s), s.ipv6) == s
  {
    CanonFixed(s.services);
    CanonFixed(s.Cats());
    assert NonEmpty(s.ext) == s.ext;
  }

  /** toMMDB, with its loop over the ext map. */
  method ToMmdb(r: Record, ipv6: bool) returns (m: Stored)
    ensures m == ToStored(r, ipv6) && Stores(m, r, ipv6)
  {
    var services := DedupeSorted(r.services);
    var ext: map<string, string> := map[];
    var todo := r.ext.Keys;
    while todo != {}
      invariant todo <= r.ext.Keys
      invariant ext == map k | k in r.ext && k !in todo && r.ext[k] != "" :: r.ext[k]
      decreases todo
    {
      var k :| k in todo;
      todo := todo - {k};
      if r.ext[k] == "" {
        continue;
      }
      ext := ext[k := r.ext[k]];
    }
    var synced := 0;
    if r.syncedAt != ZeroTime {
      if r.syncedAt.unix > 0 {
        synced := r.syncedAt.unix;
      }
    }
    m := Stored(r.provider, r.region, services, None, ipv6, r.source, synced, ext);
    var cats := DedupeSorted(r.categories);
    if |cats| > 0 {
      m := m.(categories := Some(cats));
    }
    StoredFields(r, ipv6, m);
  }

  // ----- merging -----

  function Max(a: nat, b: nat): nat {
    if b > a then b else a
  }

  /** What an insert leaves at an address: the incoming record in an empty slot, and otherwise the
      existing record with the categories of both and, for the same provider, the services, ext
      and timestamp of both. */
  function Merge(existing: Option<Stored>, incoming: Stored): Stored {
    match existing
    case None => incoming
    case Some(cur) =>
      var cats := Canon(cur.Cats() + incoming.Cats());
      var merged := if cats != [] then cur.(categories := Some(cats)) else cur;
      if cur.provider != incoming.provider then merged
      else merged.(services := Canon(cur.services + incoming.services),
                   ext := cur.ext + incoming.ext,
                   syncedAt := Max(cur.syncedAt, incoming.syncedAt))
  }

  /** unionExt: incoming values win. */
  method UnionExt(a: map<string, string>, b: map<string, string>) returns (out: map<string, string>)
    ensures out == a + b
  {
    out := map[];
    var todo := a.Keys;
    while todo != {}
      invariant todo <= a.Keys
      invariant out == map k | k in a && k !in todo :: a[k]
      decreases todo
    {
      var k :| k in todo;
      todo := todo - {k};
      out := out[k := a[k]];
    }
    assert out == a;
    todo := b.Keys;
    while todo != {}
      invariant todo <= b.Keys
      invariant out == a + map k | k in b && k !in todo :: b[k]
      decreases todo
    {
      var k :| k in todo;
      todo := todo - {k};
      out := out[k := b[k]];
    }
    assert out == a + b;
  }

  /** The inserter built by mergeRecords. */
  method MergeRecords(incoming: Stored, existing: Option<Stored>) returns (merged: Stored)
    ensures merged == Merge(existing, incoming)
  {
    if existing.None? {
      return incoming;
    }
    var cur := existing.value;
    merged := cur;
    var cats := UnionSlices(cur.Cats(), incoming.Cats());
    if |cats| > 0 {
      merged := merged.(categories := Some(cats));
    }
    if cur.provider != incoming.provider {
      return;
    }
    var services := UnionSlices(cur.services, incoming.services);
    var ext := UnionExt(cur.ext, incoming.ext);
    merged := merged.(services := services, ext := ext, syncedAt := Max(cur.syncedAt, incoming.syncedAt));
  }
}
