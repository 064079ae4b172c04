// Addresses below 2^32 that both families cover: what enrichment leaves there.
module SharedSlots {
  import opened Bits
  import opened Net
  import opened Strings
  import opened Records
  import opened MergeLaws
  import opened Streams
  import opened AsnRanges
  import opened Coalescing
  import opened AsnTables
  import opened Enriching
  import opened Tries
  import opened Building
  import opened BuildLaws
  import opened Commuting

  function AsnKeys(): set<string> {
    {EXT_ASN, EXT_AS_ORG}
  }

  lemma {:induction false} OwnerStampKeys(items: seq<Item>, v4: seq<Row>, v6: seq<Row>, x: nat, reject: Prefix -> bool)
    ensures forall st :: st in OwnerStamps(items, v4, v6, x, reject) ==> st.Keys <= AsnKeys()
  {
    hide Reach, Owner, KeyOf, Decimal;
    if items != [] {
      OwnerStampKeys(items[..|items| - 1], v4, v6, x, reject);
    }
  }

  /** The ext entries that enrichment adds at `x`: those of the owner rows of the covering entries of
      the provider that comes first, each row from the table of the entry's own family. */
  function AddedAt(items: seq<Item>, v4: seq<Row>, v6: seq<Row>, x: nat, reject: Prefix -> bool): map<string, string> {
    OwnStamps(Reaching(items, x, reject), OwnerStamps(items, v4, v6, x, reject))
  }

  /** Whatever families cover an address: building the enriched stream gives the plain record with
      the added entries. So it is the plain record stamped by the owner in family `f` if and only if
      the added entries are that owner's stamp. */
  lemma EnrichedExactlyWhen(items: seq<Item>, v4: seq<Row>, v6: seq<Row>, reject: Prefix -> bool, x: nat, f: Family)
    requires TableRows(v4, V4) && TableRows(v6, V6) && PlainStream(items, v4, v6, reject) && NoAsnKeys(items)
    requires x < Pow2(V6_BITS) && Finish(BuildFold(items, reject)).Built?
    ensures Finish(BuildFold(Enriched(items, v4, v6), reject)).Built?
    ensures var m, n := Held(items, reject, x), Held(Enriched(items, v4, v6), reject, x);
            && (n.Some? <==> m.Some?)
            && (m.Some? ==>
                  var st := StampOf(Owner(RowsFor(f, v4, v6), KeyOf(f, x)));
                  && n.value == Stamp(m.value, AddedAt(items, v4, v6, x, reject))
                  && (n.value == Stamp(m.value, st) <==> AddedAt(items, v4, v6, x, reject) == st))
  {
    hide Find, Fold, Reaching, BuildFold, PlainStream, Enriched, AllOf, Disjoint, StampEach, OwnerStamps, OwnStamps,
      Owner, Pow2, KeyOf, Decimal, NoAsnKeys;
    var rs, sts := Reaching(items, x, reject), OwnerStamps(items, v4, v6, x, reject);
    EnrichedFold(items, v4, v6, reject, x);
    ReachingLacks(items, x, reject);
    OwnerStampKeys(items, v4, v6, x, reject);
    StampEachFold(rs, sts, AsnKeys());
    FoldSome(rs);
    if rs != [] {
      HeldLacks(items, reject, x);
      StampDetermines(Held(items, reject, x).value, OwnStamps(rs, sts),
        StampOf(Owner(RowsFor(f, v4, v6), KeyOf(f, x))));
    }
  }

  lemma StampDetermines(m: Stored, s: map<string, string>, t: map<string, string>)
    requires m.ext.Keys !! AsnKeys() && s.Keys <= AsnKeys() && t.Keys <= AsnKeys()
    ensures Stamp(m, s) == Stamp(m, t) <==> s == t
  {
    if Stamp(m, s) == Stamp(m, t) {
      forall k ensures k in s <==> k in t {
        assert k in m.ext + s <==> k in m.ext + t;
      }
      forall k | k in s ensures s[k] == t[k] {
        assert (m.ext + s)[k] == (m.ext + t)[k];
      }
    }
  }

  // ----- which owner shows -----

  function Other(f: Family): Family {
    if f == V4 then V6 else V4
  }

  function InFamily<T>(f: Family, t4: T, t6: T): T {
    if f == V4 then t4 else t6
  }

  /** The families of the entries of `who` that cover `x`, in stream order. */
  function FamiliesAt(items: seq<Item>, x: nat, who: string, reject: Prefix -> bool): seq<Family> {
    if items == [] then []
    else
      var last := items[|items| - 1];
      FamiliesAt(items[..|items| - 1], x, who, reject)
      + if Reach(last, x, reject) != [] && last.entry.record.provider == who
        then [NormalizePrefix(last.entry.network).value.addr.fam] else []
  }

  /** The stamps of the owners of those entries, on top of each other. */
  function StampsIn(fs: seq<Family>, s4: map<string, string>, s6: map<string, string>): map<string, string> {
    if fs == [] then map[] else StampsIn(fs[..|fs| - 1], s4, s6) + InFamily(fs[|fs| - 1], s4, s6)
  }

  /** Only the last family matters, and whether the other one occurs at all. */
  lemma {:induction false} StampsShape(fs: seq<Family>, s4: map<string, string>, s6: map<string, string>)
    requires fs != []
    ensures var g := fs[|fs| - 1];
            StampsIn(fs, s4, s6)
            == if Other(g) in fs then InFamily(Other(g), s4, s6) + InFamily(g, s4, s6) else InFamily(g, s4, s6)
  {
    var n, g := |fs| - 1, fs[|fs| - 1];
    var pre := fs[..n];
    assert fs == pre + [g];
    var last, other := InFamily(g, s4, s6), InFamily(Other(g), s4, s6);
    StampTwice(last, other);
    if pre == [] {
      NoStamps(s4, s6);
    } else {
      StampsShape(pre, s4, s6);
      assert pre[n - 1] in pre;
      hide StampsIn;
      if pre[n - 1] == g {
        assert Other(g) in fs <==> Other(g) in pre;
      } else {
        assert pre[n - 1] == Other(g) && Other(g) in fs;
      }
    }
  }

  lemma StampTwice(a: map<string, string>, b: map<string, string>)
    ensures a + a == a && (a + b) + a == b + a && (b + a) + a == b + a
  {
  }

  lemma {:induction false} NoneCovers(items: seq<Item>, x: nat, who: string, reject: Prefix -> bool)
    requires Reaching(items, x, reject) == []
    ensures FamiliesAt(items, x, who, reject) == []
  {
    hide Reach;
    if items != [] { NoneCovers(items[..|items| - 1], x, who, reject); }
  }

  /** The first entry to cover the address. */
  lemma AddedFirst(pre: seq<Item>, last: Item, v4: seq<Row>, v6: seq<Row>, x: nat, reject: Prefix -> bool)
    requires Reaching(pre, x, reject) == [] && Reach(last, x, reject) != []
    ensures var who, fs := last.entry.record.provider, [NormalizePrefix(last.entry.network).value.addr.fam];
            && |Reaching(pre + [last], x, reject)| == 1 && Reaching(pre + [last], x, reject)[0].provider == who
            && FamiliesAt(pre + [last], x, who, reject) == fs
            && AddedAt(pre + [last], v4, v6, x, reject)
               == StampsIn(fs, StampOf(Owner(v4, KeyOf(V4, x))), StampOf(Owner(v6, KeyOf(V6, x))))
  {
    hide Owner, StampOf, KeyOf, Reach, ReachStamp, OwnStamps, StampsIn;
    OneCovers(last, v4, v6, x, reject);
    var items, f := pre + [last], NormalizePrefix(last.entry.network).value.addr.fam;
    var r, st := Reach(last, x, reject)[0], ReachStamp(last, v4, v6, x);
    NoneCovers(pre, x, last.entry.record.provider, reject);
    assert items[..|pre|] == pre;
    assert Reaching(items, x, reject) == [r] && OwnerStamps(items, v4, v6, x, reject) == [st];
    FirstStamp(r, st);
    NextFamily([], f, StampOf(Owner(v4, KeyOf(V4, x))), StampOf(Owner(v6, KeyOf(V6, x))));
    NoStamps(StampOf(Owner(v4, KeyOf(V4, x))), StampOf(Owner(v6, KeyOf(V6, x))));
    assert [] + [f] == [f];
  }

  /** A further entry that covers it. */
  lemma AddedNext(pre: seq<Item>, last: Item, v4: seq<Row>, v6: seq<Row>, x: nat, reject: Prefix -> bool)
    requires Reaching(pre, x, reject) != [] && Reach(last, x, reject) != []
    ensures var who, f := Reaching(pre, x, reject)[0].provider, NormalizePrefix(last.entry.network).value.addr.fam;
            var own := last.entry.record.provider == who;
            && Reaching(pre + [last], x, reject) != [] && Reaching(pre + [last], x, reject)[0].provider == who
            && FamiliesAt(pre + [last], x, who, reject) == FamiliesAt(pre, x, who, reject) + (if own then [f] else [])
            && AddedAt(pre + [last], v4, v6, x, reject)
               == if own then AddedAt(pre, v4, v6, x, reject)
                    + InFamily(f, StampOf(Owner(v4, KeyOf(V4, x))), StampOf(Owner(v6, KeyOf(V6, x))))
                  else AddedAt(pre, v4, v6, x, reject)
  {
    hide Owner, StampOf, KeyOf, Reach, ReachStamp, OwnStamps;
    var items, ps := pre + [last], Reaching(pre, x, reject);
    var r, st := Reach(last, x, reject)[0], ReachStamp(last, v4, v6, x);
    OneCovers(last, v4, v6, x, reject);
    assert items[..|pre|] == pre;
    assert Reaching(items, x, reject) == ps + [r];
    assert OwnerStamps(items, v4, v6, x, reject) == OwnerStamps(pre, v4, v6, x, reject) + [st];
    NextStamp(ps, OwnerStamps(pre, v4, v6, x, reject), r, st);
    assert AddedAt(pre, v4, v6, x, reject) + map[] == AddedAt(pre, v4, v6, x, reject);
  }

  /** The added entries depend only on the two owners and on which families cover the address. */
  lemma {:induction false} AddedByFamilies(items: seq<Item>, v4: seq<Row>, v6: seq<Row>, x: nat, reject: Prefix -> bool)
    requires Reaching(items, x, reject) != []
    ensures var fs := FamiliesAt(items, x, Reaching(items, x, reject)[0].provider, reject);
            fs != [] && AddedAt(items, v4, v6, x, reject)
            == StampsIn(fs, StampOf(Owner(v4, KeyOf(V4, x))), StampOf(Owner(v6, KeyOf(V6, x))))
  {
    hide Owner, StampOf, KeyOf, Reach, OwnStamps, StampsIn, InFamily;
    var n := |items| - 1;
    var pre, last := items[..n], items[n];
    assert items == pre + [last];
    var s4, s6 := StampOf(Owner(v4, KeyOf(V4, x))), StampOf(Owner(v6, KeyOf(V6, x)));
    if Reaching(pre, x, reject) == [] {
      AddedFirst(pre, last, v4, v6, x, reject);
    } else {
      AddedByFamilies(pre, v4, v6, x, reject);
      var who := Reaching(pre, x, reject)[0].provider;
      var fs := FamiliesAt(pre, x, who, reject);
      if Reach(last, x, reject) == [] {
        assert OwnerStamps(items, v4, v6, x, reject) == OwnerStamps(pre, v4, v6, x, reject);
        assert FamiliesAt(items, x, who, reject) == fs;
        assert Reaching(items, x, reject) == Reaching(pre, x, reject);
      } else {
        OneCovers(last, v4, v6, x, reject);
        AddedNext(pre, last, v4, v6, x, reject);
        NextFamily(fs, NormalizePrefix(last.entry.network).value.addr.fam, s4, s6);
        assert fs + [] == fs;
      }
    }
  }

  lemma OneCovers(item: Item, v4: seq<Row>, v6: seq<Row>, x: nat, reject: Prefix -> bool)
    requires Reach(item, x, reject) != []
    ensures item.Ok? && NormalizePrefix(item.entry.network).Some? && NormalizePrefix(item.entry.network).value.IsValid()
    ensures |Reach(item, x, reject)| == 1 && Reach(item, x, reject)[0].provider == item.entry.record.provider
    ensures ReachStamp(item, v4, v6, x)
         == InFamily(NormalizePrefix(item.entry.network).value.addr.fam,
                     StampOf(Owner(v4, KeyOf(V4, x))), StampOf(Owner(v6, KeyOf(V6, x))))
  {
    hide Owner, StampOf, KeyOf, Canon, NonEmpty, Epoch, Pow2, Floor, MappedBase;
  }

  lemma NoStamps(s4: map<string, string>, s6: map<string, string>)
    ensures StampsIn([], s4, s6) == map[] && map[] + s4 == s4 && map[] + s6 == s6
  {
  }

  lemma FirstStamp(r: Stored, st: map<string, string>)
    ensures OwnStamps([r], [st]) == st
  {
    assert [r][..0] == [] && [st][..0] == [];
    assert map[] + st == st;
  }

  lemma NextStamp(rs: seq<Stored>, sts: seq<map<string, string>>, r: Stored, st: map<string, string>)
    requires |rs| == |sts| > 0
    ensures OwnStamps(rs + [r], sts + [st])
         == OwnStamps(rs, sts) + if r.provider == rs[0].provider then st else map[]
  {
    assert (rs + [r])[..|rs|] == rs && (sts + [st])[..|sts|] == sts;
  }

  lemma NextFamily(fs: seq<Family>, f: Family, s4: map<string, string>, s6: map<string, string>)
    ensures StampsIn(fs + [f], s4, s6) == StampsIn(fs, s4, s6) + InFamily(f, s4, s6)
  {
    assert (fs + [f])[..|fs|] == fs;
  }

  lemma StampsDiffer(a: Option<(nat, string)>, b: Option<(nat, string)>)
    ensures StampOf(a) == StampOf(b) <==> a == b
  {
    if a.Some? && b.Some? {
      DecimalApart(a.value.0, b.value.0);
      var s, t := StampOf(a), StampOf(b);
      assert s[EXT_ASN] == Decimal(a.value.0) && t[EXT_ASN] == Decimal(b.value.0);
      assert a.value.1 != "" ==> s[EXT_AS_ORG] == a.value.1;
      assert b.value.1 != "" ==> t[EXT_AS_ORG] == b.value.1;
      assert a.value.1 == "" ==> EXT_AS_ORG !in s;
      assert b.value.1 == "" ==> EXT_AS_ORG !in t;
    } else {
      assert a.Some? ==> EXT_ASN in StampOf(a);
      assert b.Some? ==> EXT_ASN in StampOf(b);
    }
  }

  /** `below`, stamped over by `above`, leaves the stamp of `above`. */
  predicate HiddenBy(below: Option<(nat, string)>, above: Option<(nat, string)>) {
    below.None? || (above.Some? && (below.value.1 == "" || above.value.1 != ""))
  }

  /** `below`, stamped over by `above`, leaves the stamp of `below`. */
  predicate ConfirmedBy(below: Option<(nat, string)>, above: Option<(nat, string)>) {
    above.None? || (below.Some? && above.value.0 == below.value.0
      && (above.value.1 == "" || above.value.1 == below.value.1))
  }

  lemma StampedOver(below: Option<(nat, string)>, above: Option<(nat, string)>)
    ensures StampOf(below) + StampOf(above) == StampOf(above) <==> HiddenBy(below, above)
    ensures StampOf(below) + StampOf(above) == StampOf(below) <==> ConfirmedBy(below, above)
  {
    hide Decimal;
    var s, t := StampOf(below), StampOf(above);
    var sum := s + t;
    if below.Some? {
      assert EXT_ASN in s && EXT_ASN in sum;
      assert below.value.1 != "" ==> EXT_AS_ORG in s && EXT_AS_ORG in sum;
    }
    if above.Some? {
      assert sum[EXT_ASN] == Decimal(above.value.0);
      assert above.value.1 != "" ==> sum[EXT_AS_ORG] == above.value.1;
      if below.Some? { DecimalApart(below.value.0, above.value.0); }
    } else {
      assert sum == s;
    }
    if HiddenBy(below, above) { assert sum == t; }
    if ConfirmedBy(below, above) { assert sum == s; }
  }

  /** Whether the owner in family `f` shows, given the families of the covering entries: it shows if
      its family came last and hides the other owner, or if a later owner of the other family adds
      nothing to it. */
  predicate Shows(fs: seq<Family>, f: Family, o4: Option<(nat, string)>, o6: Option<(nat, string)>)
    requires fs != []
  {
    var g := fs[|fs| - 1];
    var last, other := InFamily(g, o4, o6), InFamily(Other(g), o4, o6);
    if Other(g) !in fs then g == f || last == other
    else if g == f then HiddenBy(other, last)
    else ConfirmedBy(other, last)
  }

  lemma ShowsExactlyWhen(fs: seq<Family>, f: Family, o4: Option<(nat, string)>, o6: Option<(nat, string)>)
    requires fs != []
    ensures StampsIn(fs, StampOf(o4), StampOf(o6)) == StampOf(InFamily(f, o4, o6)) <==> Shows(fs, f, o4, o6)
  {
    hide StampOf, HiddenBy, ConfirmedBy;
    var g := fs[|fs| - 1];
    var last, other := InFamily(g, o4, o6), InFamily(Other(g), o4, o6);
    StampsShape(fs, StampOf(o4), StampOf(o6));
    StampsDiffer(last, other);
    StampedOver(other, last);
  }

  /** At an address that both families may cover, the stored record is the plain one stamped by the
      owner in family `f` if and only if that owner shows. */
  lemma OwnerShowsExactlyWhen(items: seq<Item>, v4: seq<Row>, v6: seq<Row>, reject: Prefix -> bool, x: nat, f: Family)
    requires TableRows(v4, V4) && TableRows(v6, V6) && PlainStream(items, v4, v6, reject) && NoAsnKeys(items)
    requires x < Pow2(V6_BITS) && Finish(BuildFold(items, reject)).Built? && Held(items, reject, x).Some?
    ensures Finish(BuildFold(Enriched(items, v4, v6), reject)).Built?
    ensures Held(Enriched(items, v4, v6), reject, x).Some?
    ensures var fs := FamiliesAt(items, x, Held(items, reject, x).value.provider, reject);
            fs != []
            && (Held(Enriched(items, v4, v6), reject, x).value
                == Stamp(Held(items, reject, x).value, StampOf(Owner(RowsFor(f, v4, v6), KeyOf(f, x))))
                <==> Shows(fs, f, Owner(v4, KeyOf(V4, x)), Owner(v6, KeyOf(V6, x))))
  {
    hide Find, Fold, Reaching, BuildFold, PlainStream, Enriched, AllOf, Disjoint, AddedAt, Owner, Pow2, KeyOf, Decimal,
      NoAsnKeys, FamiliesAt, StampOf, Shows;
    EnrichedExactlyWhen(items, v4, v6, reject, x, f);
    HeldProvider(items, reject, x);
    AddedByFamilies(items, v4, v6, x, reject);
    var fs := FamiliesAt(items, x, Held(items, reject, x).value.provider, reject);
    ShowsExactlyWhen(fs, f, Owner(v4, KeyOf(V4, x)), Owner(v6, KeyOf(V6, x)));
  }

  lemma HeldProvider(items: seq<Item>, reject: Prefix -> bool, x: nat)
    requires x < Pow2(V6_BITS) && BuildFold(items, reject).Built? && Held(items, reject, x).Some?
    ensures Reaching(items, x, reject) != []
    ensures Held(items, reject, x).value.provider == Reaching(items, x, reject)[0].provider
  {
    hide BuildFold, Find, Reaching, Pow2;
    HeldClosedForm(items, reject, x);
  }

  // ----- a provider's v4 host and v6 host in one slot -----

  function Host(a: Addr): Prefix
    requires a.IP?
  {
    Prefix(a, Width(a.fam))
  }

  /** The v4 host n and the v6 host ::n. */
  predicate SameSlot(h4: Addr, h6: Addr) {
    h4.IP? && h6.IP? && h4.fam == V4 && h6.fam == V6 && h4.n == h6.n
  }

  function TwoHosts(h4: Addr, h6: Addr, a: Record, b: Record): seq<Item>
    requires SameSlot(h4, h6)
  {
    [Ok(Entry(Host(h4), a)), Ok(Entry(Host(h6), b))]
  }

  lemma HostReach(h: Addr, rec: Record, reject: Prefix -> bool)
    requires h.IP? && h.n < Pow2(V4_BITS) && forall p: Prefix :: !reject(p)
    ensures Host(h).IsValid() && NormalizePrefix(Host(h)) == Some(Host(h))
    ensures Reach(Ok(Entry(Host(h), rec)), h.n, reject) == [ToStored(rec, h.fam == V6)]
    ensures Clear(h.fam, Host(h).First(), Host(h).Last())
  {
    MappedSizes();
    hide Pow2, MappedBase, Uncut;
    assert Host(h).First() == h.n && Pow2(0) == 1 by { PowZero(); }
  }

  lemma HostPlain(h: Addr, rec: Record, v4: seq<Row>, v6: seq<Row>, reject: Prefix -> bool)
    requires TableRows(v4, V4) && TableRows(v6, V6)
    requires h.IP? && h.n < Pow2(V4_BITS) && forall p: Prefix :: !reject(p)
    ensures Plain(Entry(Host(h), rec), v4, v6, reject)
  {
    hide Plain, Disjoint, AllOf, Pow2, MappedBase, Clear, Uncut, Floor, Reach;
    HostReach(h, rec, reject);
    UniformIsPlain(Entry(Host(h), rec), v4, v6, reject);
  }

  lemma PowZero()
    ensures Pow2(0) == 1
  {
  }

  /** A table built from one row of each family. */
  lemma TwoTables(r4: Row, r6: Row)
    requires r4.Valid() && r6.Valid() && r4.first.fam == V4 && r6.first.fam == V6
    requires !Is4In6(r6.first) && !Is4In6(r6.last)
    ensures TableOf([r4, r6], V4, [r4]) && TableOf([r4, r6], V6, [r6])
  {
    var rows := [r4, r6];
    assert rows[..1] == [r4] && [r4][..0] == [];
    assert Usable([r4], V4) == [r4] && Usable([r4], V6) == [];
    assert Usable(rows, V4) == [r4] + [] == [r4] && Usable(rows, V6) == [] + [r6] == [r6];
    OneRowTable([r4, r6], V4, r4);
    OneRowTable([r4, r6], V6, r6);
  }

  lemma OneRowTable(rows: seq<Row>, f: Family, r: Row)
    requires Usable(rows, f) == [r]
    ensures TableOf(rows, f, [r])
  {
    assert [r][..0] == [];
    assert SortedForm([r], [r]) && Coalesced([r]) == [r];
  }

  lemma TwoStamps(a: Stored, b: Stored, s: map<string, string>, t: map<string, string>)
    requires a.provider == b.provider
    ensures OwnStamps([a, b], [s, t]) == s + t
  {
    assert [a, b][..1] == [a] && [s, t][..1] == [s] && [a][..0] == [] && [s][..0] == [];
    assert OwnStamps([a], [s]) == map[] + s == s;
  }

  lemma TwoReach(i: Item, j: Item, v4: seq<Row>, v6: seq<Row>, x: nat, reject: Prefix -> bool)
    requires |Reach(i, x, reject)| == |Reach(j, x, reject)| == 1
    ensures Reaching([i, j], x, reject) == [Reach(i, x, reject)[0], Reach(j, x, reject)[0]]
    ensures OwnerStamps([i, j], v4, v6, x, reject) == [ReachStamp(i, v4, v6, x), ReachStamp(j, v4, v6, x)]
  {
    hide Reach, ReachStamp;
    assert [i, j][..1] == [i] && [i][..0] == [];
    assert Reaching([i], x, reject) == [] + Reach(i, x, reject);
    assert OwnerStamps([i], v4, v6, x, reject) == [] + [ReachStamp(i, v4, v6, x)];
  }

  /** The tree keeps IPv4 in ::/96: a v4 host and the v6 host with the same integer share a slot. */
  lemma FamiliesShareSlots(h4: Addr, h6: Addr, a: Record, b: Record, v4: seq<Row>, v6: seq<Row>, reject: Prefix -> bool)
    requires SameSlot(h4, h6) && forall p: Prefix :: !reject(p)
    ensures var items := TwoHosts(h4, h6, a, b);
            && Reaching(items, h4.n, reject) == [ToStored(a, false), ToStored(b, true)]
            && OwnerStamps(items, v4, v6, h4.n, reject)
               == [StampOf(Owner(v4, KeyOf(V4, h4.n))), StampOf(Owner(v6, KeyOf(V6, h6.n)))]
  {
    HostReach(h4, a, reject);
    HostReach(h6, b, reject);
    hide Reaching, Reach, OwnerStamps, Pow2, Owner, StampOf, KeyOf, Plain, ToStored;
    TwoReach(Ok(Entry(Host(h4), a)), Ok(Entry(Host(h6), b)), v4, v6, h4.n, reject);
  }

  lemma TwoHostsPlain(h4: Addr, h6: Addr, a: Record, b: Record, v4: seq<Row>, v6: seq<Row>, reject: Prefix -> bool)
    requires TableRows(v4, V4) && TableRows(v6, V6)
    requires SameSlot(h4, h6) && forall p: Prefix :: !reject(p)
    requires a.ext.Keys !! AsnKeys() && b.ext.Keys !! AsnKeys()
    ensures var items := TwoHosts(h4, h6, a, b);
            PlainStream(items, v4, v6, reject) && NoAsnKeys(items) && Finish(BuildFold(items, reject)).Built?
  {
    HostPlain(h4, a, v4, v6, reject);
    HostPlain(h6, b, v4, v6, reject);
    HostReach(h4, a, reject);
    HostReach(h6, b, reject);
    hide BuildFold, Reach, Pow2, Plain, Host, ToStored, Disjoint, AllOf, Clear;
    PairPlain(Ok(Entry(Host(h4), a)), Ok(Entry(Host(h6), b)), v4, v6, reject);
  }

  lemma PairPlain(i: Item, j: Item, v4: seq<Row>, v6: seq<Row>, reject: Prefix -> bool)
    requires i.Ok? && j.Ok? && Plain(i.entry, v4, v6, reject) && Plain(j.entry, v4, v6, reject)
    requires i.entry.record.ext.Keys !! AsnKeys() && j.entry.record.ext.Keys !! AsnKeys()
    requires i.entry.network.IsValid() && j.entry.network.IsValid() && forall p: Prefix :: !reject(p)
    requires NormalizePrefix(i.entry.network).Some?
    ensures PlainStream([i, j], v4, v6, reject) && NoAsnKeys([i, j]) && Finish(BuildFold([i, j], reject)).Built?
  {
    hide Plain, NormalizePrefix, BuildFold, Clean, SomeInserted, InsertedAt;
    TwoInserted(i, j, reject);
    BuildOutcome([i, j], reject);
  }

  lemma TwoInserted(i: Item, j: Item, reject: Prefix -> bool)
    requires i.Ok? && j.Ok? && i.entry.network.IsValid() && j.entry.network.IsValid() && forall p: Prefix :: !reject(p)
    requires NormalizePrefix(i.entry.network).Some?
    ensures Clean([i, j]) && SomeInserted([i, j], reject)
  {
    hide NormalizePrefix;
    assert !Skips([i, j][0], reject);
  }

  /** What enrichment adds at the shared slot: the later entry's stamp on top of the earlier one's. */
  lemma TwoHostsAdded(h4: Addr, h6: Addr, a: Record, b: Record, r4: Row, r6: Row, reject: Prefix -> bool)
    requires SameSlot(h4, h6) && forall p: Prefix :: !reject(p)
    requires a.provider == b.provider
    requires Owner([r4], KeyOf(V4, h4.n)) == Some(r4.AS()) && Owner([r6], KeyOf(V6, h6.n)) == Some(r6.AS())
    ensures var items := TwoHosts(h4, h6, a, b);
            && Reaching(items, h4.n, reject) != []
            && AddedAt(items, [r4], [r6], h4.n, reject) == StampOf(Some(r4.AS())) + StampOf(Some(r6.AS()))
  {
    hide Reaching, Reach, OwnerStamps, Pow2, Owner, OwnStamps, StampOf, KeyOf, ToStored, TwoHosts;
    FamiliesShareSlots(h4, h6, a, b, [r4], [r6], reject);
    SameProvider(a, b);
    TwoStamps(ToStored(a, false), ToStored(b, true), StampOf(Some(r4.AS())), StampOf(Some(r6.AS())));
  }

  /** Added entries are what a lookup sees. */
  lemma AddedIsHeld(items: seq<Item>, v4: seq<Row>, v6: seq<Row>, reject: Prefix -> bool, x: nat)
    requires TableRows(v4, V4) && TableRows(v6, V6) && PlainStream(items, v4, v6, reject) && NoAsnKeys(items)
    requires x < Pow2(V6_BITS) && Finish(BuildFold(items, reject)).Built? && Reaching(items, x, reject) != []
    ensures var en, added := Enriched(items, v4, v6), AddedAt(items, v4, v6, x, reject);
            && Finish(BuildFold(en, reject)).Built? && Held(en, reject, x).Some?
            && forall k :: k in added
                ==> k in Held(en, reject, x).value.ext && Held(en, reject, x).value.ext[k] == added[k]
  {
    hide Find, Fold, BuildFold, Enriched, Reaching, AddedAt, PlainStream, NoAsnKeys, TableRows, StampOf, Owner, KeyOf,
      Pow2;
    EnrichedExactlyWhen(items, v4, v6, reject, x, V4);
    BuildRefines(items, reject, x);
    FoldSome(Reaching(items, x, reject));
  }

  lemma MixedStamp(asn4: nat, org4: string, asn6: nat)
    requires org4 != ""
    ensures StampOf(Some((asn4, org4))) + StampOf(Some((asn6, ""))) == map[EXT_ASN := Decimal(asn6), EXT_AS_ORG := org4]
  {
    hide Decimal;
  }

  lemma SameProvider(a: Record, b: Record)
    requires a.provider == b.provider
    ensures ToStored(a, false).provider == ToStored(b, true).provider
  {
  }

  lemma HostRows(h4: Addr, h6: Addr, r4: Row, r6: Row)
    requires SameSlot(h4, h6) && r4.first == r4.last == h4 && r6.first == r6.last == h6
    ensures h4.n < Pow2(V6_BITS)
    ensures TableOf([r4, r6], V4, [r4]) && TableOf([r4, r6], V6, [r6]) && TableRows([r4], V4) && TableRows([r6], V6)
    ensures Owner([r4], KeyOf(V4, h4.n)) == Some(r4.AS()) && Owner([r6], KeyOf(V6, h6.n)) == Some(r6.AS())
  {
    MappedSizes();
    hide Usable, TableOf, Coalesced, Pow2, MappedBase;
    TwoTables(r4, r6);
  }

  /** The tree keeps IPv4 in ::/96, so the hosts n and ::n of one provider share a slot, although the
      table keeps the families apart: the stored ASN is that of the v6 row and the stored org that
      of the v4 row, a pair no row announces. */
  lemma SharedSlotMixesRows(h4: Addr, h6: Addr, a: Record, b: Record, r4: Row, r6: Row, reject: Prefix -> bool)
    requires SameSlot(h4, h6) && forall p: Prefix :: !reject(p)
    requires a.provider == b.provider && a.ext.Keys !! AsnKeys() && b.ext.Keys !! AsnKeys()
    requires r4.first == r4.last == h4 && r6.first == r6.last == h6
    requires r4.org != "" && r6.org == "" && r4.asn != r6.asn
    ensures TableOf([r4, r6], V4, [r4]) && TableOf([r4, r6], V6, [r6]) && TableRows([r4], V4) && TableRows([r6], V6)
    ensures var en := Enriched(TwoHosts(h4, h6, a, b), [r4], [r6]);
            && Finish(BuildFold(en, reject)).Built? && Held(en, reject, h4.n).Some?
            && var ext := Held(en, reject, h4.n).value.ext;
               && EXT_ASN in ext && ext[EXT_ASN] == Decimal(r6.asn)
               && EXT_AS_ORG in ext && ext[EXT_AS_ORG] == r4.org
               && r4.AS() != (r6.asn, r4.org) && r6.AS() != (r6.asn, r4.org)
  {
    hide Pow2, Usable, TableOf, Coalesced, Owner, BuildFold, Enriched, Find, Decimal, MappedBase, PlainStream,
      NoAsnKeys, Reaching, AddedAt, StampOf, KeyOf, TableRows, TwoHosts;
    HostRows(h4, h6, r4, r6);
    var items := TwoHosts(h4, h6, a, b);
    TwoHostsPlain(h4, h6, a, b, [r4], [r6], reject);
    TwoHostsAdded(h4, h6, a, b, r4, r6, reject);
    AddedIsHeld(items, [r4], [r6], reject, h4.n);
    MixedStamp(r4.asn, r4.org, r6.asn);
  }
}
