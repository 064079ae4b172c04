// The reader: lookups, the in-memory index, the tree walk and the CSV export
// over one database file (attribution/reader.go, attribution/export.go).
module Reading {
  import opened Bits
  import opened Net
  import opened Records
  import opened Streams
  import opened Tries

  /** An opened database: leaves hold offsets into a data section of deduplicated records. An offset
      outside the data section is a record that does not decode. */
  datatype Reader = Reader(tree: Trie<nat>, data: map<nat, Stored>) {
    ghost predicate Valid() { Fits(tree, V6_BITS) }
    function At(x: nat): Option<nat> { Find(tree, V6_BITS, x) }
  }

  /** A leaf of the walk: the block of 2^k addresses at `base`, and its data offset. */
  datatype Spot = Spot(base: nat, k: nat, offset: nat) {
    function Last(): int { base + Pow2(k) - 1 }
    predicate Covers(x: nat) { base <= x <= Last() }
  }

  function Leaves(t: Trie<nat>, h: nat, base: nat): seq<Spot> {
    match t
    case Empty => []
    case Leaf(o) => [Spot(base, h, o)]
    case Node(l, r) => if h == 0 then [] else Leaves(l, h - 1, base) + Leaves(r, h - 1, base + Pow2(h - 1))
  }

  ghost predicate WalkOf(ls: seq<Spot>, base: nat, h: nat) {
    && (forall i :: 0 <= i < |ls|
         ==> base <= ls[i].base && ls[i].Last() < base + Pow2(h) && ls[i].k <= h && Aligned(ls[i].base, ls[i].k))
    && forall i, j :: 0 <= i < j < |ls| ==> ls[i].Last() < ls[j].base
  }

  /** The walk yields aligned blocks, ascending and disjoint. */
  lemma {:induction false} LeavesOrdered(t: Trie<nat>, h: nat, base: nat)
    requires Aligned(base, h)
    ensures WalkOf(Leaves(t, h, base), base, h)
    decreases h
  {
    hide Aligned;
    if t.Node? && h > 0 {
      var mid := base + Pow2(h - 1);
      AlignedHalves(base, h - 1);
      LeavesOrdered(t.zero, h - 1, base);
      LeavesOrdered(t.one, h - 1, mid);
    }
  }

  ghost predicate SomeLeaf(ls: seq<Spot>, x: nat, o: nat) {
    exists i :: 0 <= i < |ls| && ls[i].Covers(x) && ls[i].offset == o
  }

  lemma SomeLeafConcat(a: seq<Spot>, b: seq<Spot>, x: nat, o: nat)
    ensures SomeLeaf(a + b, x, o) <==> SomeLeaf(a, x, o) || SomeLeaf(b, x, o)
  {
    var c := a + b;
    if SomeLeaf(a, x, o) {
      var i :| 0 <= i < |a| && a[i].Covers(x) && a[i].offset == o;
      assert c[i] == a[i];
    }
    if SomeLeaf(b, x, o) {
      var i :| 0 <= i < |b| && b[i].Covers(x) && b[i].offset == o;
      assert c[|a| + i] == b[i];
    }
  }

  /** A lookup finds an offset exactly when the walk yields a block around the address with it. */
  lemma {:induction false} LeafFound(t: Trie<nat>, h: nat, base: nat, x: nat, o: nat)
    requires Fits(t, h) && Aligned(base, h) && base <= x < base + Pow2(h)
    ensures Find(t, h, x - base) == Some(o) <==> SomeLeaf(Leaves(t, h, base), x, o)
    decreases h
  {
    hide Aligned, SomeLeaf, WalkOf;
    match t {
      case Empty => NoLeaf(x, o);
      case Leaf(v) => OneLeaf(Spot(base, h, v), x, o);
      case Node(l, r) =>
        var mid := base + Pow2(h - 1);
        AlignedHalves(base, h - 1);
        SomeLeafConcat(Leaves(l, h - 1, base), Leaves(r, h - 1, mid), x, o);
        LeavesOrdered(l, h - 1, base);
        LeavesOrdered(r, h - 1, mid);
        if x < mid {
          LeafFound(l, h - 1, base, x, o);
          OutsideWalk(Leaves(r, h - 1, mid), mid, h - 1, x, o);
        } else {
          LeafFound(r, h - 1, mid, x, o);
          OutsideWalk(Leaves(l, h - 1, base), base, h - 1, x, o);
        }
    }
  }

  lemma NoLeaf(x: nat, o: nat)
    ensures !SomeLeaf([], x, o)
  {
  }

  lemma OneLeaf(s: Spot, x: nat, o: nat)
    ensures SomeLeaf([s], x, o) <==> s.Covers(x) && s.offset == o
  {
    assert [s][0] == s;
  }

  lemma OutsideWalk(ls: seq<Spot>, base: nat, h: nat, x: nat, o: nat)
    requires WalkOf(ls, base, h) && !(base <= x < base + Pow2(h))
    ensures !SomeLeaf(ls, x, o)
  {
  }

  // ----- the matched network -----

  /** Where a lookup of tree address `x` ends. */
  function Locate(t: Trie<nat>, h: nat, base: nat, x: nat): (nat, nat) {
    match t
    case Empty => (base, h)
    case Leaf(_) => (base, h)
    case Node(l, r) =>
      if h == 0 then (base, h)
      else if x < base + Pow2(h - 1) then Locate(l, h - 1, base, x)
      else Locate(r, h - 1, base + Pow2(h - 1), x)
  }

  lemma {:induction false} LocateUniform(t: Trie<nat>, h: nat, base: nat, x: nat, y: nat)
    requires Fits(t, h) && Aligned(base, h) && base <= x < base + Pow2(h)
    ensures var (b, k) := Locate(t, h, base, x);
            && Aligned(b, k) && k <= h && base <= b <= x < b + Pow2(k) <= base + Pow2(h)
            && (b <= y < b + Pow2(k) ==> Find(t, h, y - base) == Find(t, h, x - base))
    decreases h
  {
    hide Aligned;
    if t.Node? {
      var mid := base + Pow2(h - 1);
      AlignedHalves(base, h - 1);
      if x < mid {
        LocateUniform(t.zero, h - 1, base, x, y);
      } else {
        LocateUniform(t.one, h - 1, mid, x, y);
      }
    }
  }

  /** A lookup that finds something ends at a leaf of the walk. */
  lemma {:induction false} LocateIsLeaf(t: Trie<nat>, h: nat, base: nat, x: nat)
    requires Fits(t, h) && base <= x < base + Pow2(h) && Find(t, h, x - base).Some?
    ensures var (b, k) := Locate(t, h, base, x); Spot(b, k, Find(t, h, x - base).value) in Leaves(t, h, base)
    decreases h
  {
    if t.Node? {
      var mid := base + Pow2(h - 1);
      if x < mid {
        LocateIsLeaf(t.zero, h - 1, base, x);
      } else {
        LocateIsLeaf(t.one, h - 1, mid, x);
      }
    }
  }

  /** The tree slot of an address: IPv4 lives in ::/96, and v4-mapped addresses are aliases of it. */
  function TreeAddr(ip: Addr): nat
    requires ip.IP?
  {
    Unmap(ip).n
  }

  lemma TreeAddrFits(ip: Addr)
    requires ip.IP?
    ensures TreeAddr(ip) < Pow2(V6_BITS)
  {
    Pow2Mono(V4_BITS, V6_BITS);
  }

  lemma MappedFits(n: nat)
    requires n < Pow2(V4_BITS)
    ensures MappedBase() + n < Pow2(V6_BITS)
  {
    Pow2Mono(MAPPED_BITS, V6_BITS);
  }

  /** maxminddb's Result.Prefix for a lookup that ended at the block of 2^k addresses at `base`; a
      mapped query is answered in mapped space, and a v4 query above the v4 subtree as ::/len. */
  function ResultPrefix(ip: Addr, base: nat, k: nat): Prefix
    requires ip.IP? && base < Pow2(V6_BITS) && (k <= V4_BITS && !(ip.fam == V6 && !Is4In6(ip)) ==> base < Pow2(V4_BITS))
    requires Is4In6(ip) ==> k <= V4_BITS
  {
    if ip.fam == V4 then
      if k > V4_BITS then Prefix(IP(V6, 0), V6_BITS - k) else Prefix(IP(V4, base), V4_BITS - k)
    else if Is4In6(ip) then MappedFits(base); Prefix(IP(V6, MappedBase() + base), V6_BITS - k)
    else Prefix(IP(V6, base), V6_BITS - k)
  }

  /** unmapPrefix. */
  function UnmapPrefix(p: Prefix): Prefix {
    if Is4In6(p.addr) && p.bits >= V6_BITS - V4_BITS then Prefix(Unmap(p.addr), p.bits - (V6_BITS - V4_BITS)) else p
  }

  /** The alias of mapped space points at the v4 subtree, so a mapped lookup ends inside it. */
  ghost predicate AliasReached(tree: Trie<nat>, ip: Addr)
    requires ip.IP?
  {
    Is4In6(ip) ==> Locate(tree, V6_BITS, 0, TreeAddr(ip)).1 <= V4_BITS
  }

  lemma V4Block(b: nat, k: nat, x: nat)
    requires Aligned(b, k) && b <= x < b + Pow2(k) && x < Pow2(V4_BITS) && k > V4_BITS
    ensures b == 0
  {
    hide Aligned;
    ZeroAligned(k);
    if b > 0 { AlignedGap(0, b, k); }
    Pow2Mono(V4_BITS, k);
  }

  /** A block of at most 2^32 addresses that starts in mapped space lies in it. */
  lemma MappedBlock(b: nat, k: nat, x: nat)
    requires Aligned(b, k) && k <= V4_BITS && b <= x < b + Pow2(k)
    requires MappedBase() <= b < MappedBase() + Pow2(V4_BITS)
    ensures MappedBase() <= x < MappedBase() + Pow2(V4_BITS)
  {
    hide Aligned;
    AlignedPow2(MAPPED_BITS, k);
    AlignedGap(b, Pow2(MAPPED_BITS), k);
  }

  lemma LocateInV4(tree: Trie<nat>, ip: Addr)
    requires ip.IP? && Fits(tree, V6_BITS) && AliasReached(tree, ip)
    ensures var (b, k) := Locate(tree, V6_BITS, 0, TreeAddr(ip));
            && b < Pow2(V6_BITS) && k <= V6_BITS && Aligned(b, k) && b <= TreeAddr(ip) < b + Pow2(k)
            && ((ip.fam == V4 || Is4In6(ip)) && k <= V4_BITS ==> b < Pow2(V4_BITS))
            && (ip.fam == V4 && k > V4_BITS ==> b == 0)
            && (ip.fam == V6 && !Is4In6(ip) && k <= V4_BITS ==> !(MappedBase() <= b < MappedBase() + Pow2(V4_BITS)))
  {
    hide Aligned, Locate, Pow2, MappedBase, Fits;
    TreeAddrFits(ip);
    ZeroAligned(V6_BITS);
    LocateUniform(tree, V6_BITS, 0, TreeAddr(ip), 0);
    var (b, k) := Locate(tree, V6_BITS, 0, TreeAddr(ip));
    if ip.fam == V4 && k > V4_BITS { V4Block(b, k, TreeAddr(ip)); }
    if ip.fam == V6 && !Is4In6(ip) && k <= V4_BITS && MappedBase() <= b < MappedBase() + Pow2(V4_BITS) {
      MappedBlock(b, k, ip.n);
    }
  }

  lemma LocateResolves(tree: Trie<nat>, x: nat, y: nat)
    requires Fits(tree, V6_BITS) && x < Pow2(V6_BITS)
    ensures var (b, k) := Locate(tree, V6_BITS, 0, x);
            b <= y < b + Pow2(k) ==> Find(tree, V6_BITS, y) == Find(tree, V6_BITS, x)
  {
    hide Aligned, Locate, Find, Fits;
    ZeroAligned(V6_BITS);
    LocateUniform(tree, V6_BITS, 0, x, y);
    assert y - 0 == y && x - 0 == x;
  }

  function MatchedNetwork(tree: Trie<nat>, ip: Addr): Prefix
    requires ip.IP? && Fits(tree, V6_BITS) && AliasReached(tree, ip)
  {
    LocateInV4(tree, ip);
    var (b, k) := Locate(tree, V6_BITS, 0, TreeAddr(ip));
    UnmapPrefix(ResultPrefix(ip, b, k))
  }

  /** A prefix for the block of 2^k addresses at `b`, native IPv4 if `v4`. */
  ghost predicate Names(p: Prefix, b: nat, k: nat, v4: bool) {
    p.IsValid() && p.Host() == k && p.addr.n == b && (p.addr.fam == V4 <==> v4)
  }

  lemma ResultShape(ip: Addr, b: nat, k: nat)
    requires ip.IP? && b < Pow2(V6_BITS) && k <= V6_BITS && (Is4In6(ip) ==> k <= V4_BITS)
    requires (ip.fam == V4 || Is4In6(ip)) && k <= V4_BITS ==> b < Pow2(V4_BITS)
    requires ip.fam == V4 && k > V4_BITS ==> b == 0
    requires ip.fam == V6 && !Is4In6(ip) && k <= V4_BITS ==> !(MappedBase() <= b < MappedBase() + Pow2(V4_BITS))
    ensures Names(UnmapPrefix(ResultPrefix(ip, b, k)), b, k, Unmap(ip).fam == V4 && k <= V4_BITS)
  {
    hide Pow2, MappedBase;
  }

  /** The reported network is the block where the lookup ended, as native IPv4 inside ::/96. */
  lemma NetworkShape(tree: Trie<nat>, ip: Addr)
    requires ip.IP? && Fits(tree, V6_BITS) && AliasReached(tree, ip)
    ensures var (b, k) := Locate(tree, V6_BITS, 0, TreeAddr(ip));
            Names(MatchedNetwork(tree, ip), b, k, Unmap(ip).fam == V4 && k <= V4_BITS)
  {
    LocateInV4(tree, ip);
    hide Aligned, Locate, Find, Fits, UnmapPrefix, ResultPrefix, Pow2, MappedBase, Names;
    var (b, k) := Locate(tree, V6_BITS, 0, TreeAddr(ip));
    ResultShape(ip, b, k);
  }

  /** Record.Network: a range that contains the queried address and resolves throughout to exactly
      what the query found; a mapped query reports the same network as the plain v4 query. */
  lemma NetworkResolves(tree: Trie<nat>, ip: Addr)
    requires ip.IP? && Fits(tree, V6_BITS) && AliasReached(tree, ip)
    ensures var p := MatchedNetwork(tree, ip);
            && p.IsValid() && p.Holds(TreeAddr(ip))
            && forall y :: p.Holds(y) ==> Find(tree, V6_BITS, y) == Find(tree, V6_BITS, TreeAddr(ip))
    ensures MatchedNetwork(tree, ip) == MatchedNetwork(tree, Unmap(ip))
  {
    hide Aligned, Floor, Locate, Find, Pow2, MappedBase, MatchedNetwork, Unmap;
    LocatedBlock(tree, ip);
    TreeAddrFits(ip);
    NetworkShape(tree, ip);
    UnmappedReached(tree, ip);
    NetworkShape(tree, Unmap(ip));
    assert Unmap(Unmap(ip)) == Unmap(ip) by { UnmapTwice(ip); }
    var (b, k) := Locate(tree, V6_BITS, 0, TreeAddr(ip));
    FloorUnique(b, b, k);
    forall y | MatchedNetwork(tree, ip).Holds(y) ensures Find(tree, V6_BITS, y) == Find(tree, V6_BITS, TreeAddr(ip)) {
      LocateResolves(tree, TreeAddr(ip), y);
    }
  }

  lemma UnmappedReached(tree: Trie<nat>, ip: Addr)
    requires ip.IP?
    ensures Unmap(ip).IP? && AliasReached(tree, Unmap(ip))
  {
    hide Pow2, MappedBase;
  }

  ghost predicate WalkedAs(tree: Trie<nat>, o: nat, first: nat, last: int) {
    exists s :: s in Leaves(tree, V6_BITS, 0) && s.offset == o && s.base == first && s.Last() == last
  }

  /** The reported network is the block of a leaf of the walk, the one holding what was found: it is
      never narrower than the tree node. */
  lemma NetworkIsWalked(tree: Trie<nat>, ip: Addr)
    requires ip.IP? && Fits(tree, V6_BITS) && AliasReached(tree, ip) && Find(tree, V6_BITS, TreeAddr(ip)).Some?
    ensures var p := MatchedNetwork(tree, ip);
            p.IsValid() && WalkedAs(tree, Find(tree, V6_BITS, TreeAddr(ip)).value, p.First(), p.Last())
  {
    hide Aligned, Floor, Locate, Find, Fits, Pow2, MappedBase, MatchedNetwork, Leaves, Names, AliasReached;
    var x := TreeAddr(ip);
    TreeAddrFits(ip);
    LocatedBlock(tree, ip);
    NetworkShape(tree, ip);
    LocateIsLeaf(tree, V6_BITS, 0, x);
    assert x - 0 == x;
    var (b, k) := Locate(tree, V6_BITS, 0, x);
    NamesBlock(MatchedNetwork(tree, ip), b, k, Unmap(ip).fam == V4 && k <= V4_BITS);
    var s := Spot(b, k, Find(tree, V6_BITS, x).value);
    assert s in Leaves(tree, V6_BITS, 0) && s.Last() == b + Pow2(k) - 1;
  }

  lemma LocatedBlock(tree: Trie<nat>, ip: Addr)
    requires ip.IP? && Fits(tree, V6_BITS) && AliasReached(tree, ip)
    ensures var (b, k) := Locate(tree, V6_BITS, 0, TreeAddr(ip)); Aligned(b, k) && b <= TreeAddr(ip) < b + Pow2(k)
  {
    hide Aligned, Locate, Fits, Pow2, MappedBase, AliasReached;
    LocateInV4(tree, ip);
  }

  lemma NamesBlock(p: Prefix, b: nat, k: nat, v4: bool)
    requires Names(p, b, k, v4) && Aligned(b, k)
    ensures p.IsValid() && p.First() == b && p.Last() == b + Pow2(k) - 1
  {
    FloorBlock(b, k);
    hide Aligned, Floor, Pow2;
    FloorUnique(b, b, k);
  }

  lemma UnmapTwice(ip: Addr)
    ensures Unmap(Unmap(ip)) == Unmap(ip)
  {
  }

  // ----- lookups -----

  datatype Answer = Hit(rec: Record, network: Prefix) | Miss | Corrupt

  datatype Mini = Mini(provider: string, region: string)

  datatype Identity = Known(who: Mini) | Unknown | Undecodable

  /** The three answers of a lookup: nothing under the address, a record that does not decode, or the
      record decoded. */
  ghost predicate Answers(r: Reader, ip: Addr, a: Answer)
    requires ip.IP?
  {
    var found := r.At(TreeAddr(ip));
    && (a.Miss? <==> found.None?)
    && (a.Corrupt? <==> found.Some? && found.value !in r.data)
    && (a.Hit? ==> a.rec == ToRecord(r.data[found.value]))
  }

  /** LookupProvider without an index: decode the record found. */
  function DecodeIdentity(r: Reader, ip: Addr): Identity
    requires ip.IP?
  {
    match r.At(TreeAddr(ip))
    case None => Unknown
    case Some(o) => if o in r.data then Known(Mini(r.data[o].provider, r.data[o].region)) else Undecodable
  }

  /** Every leaf's record decodes, and the index holds its identity. */
  ghost predicate IndexOf(r: Reader, idx: map<nat, Mini>) {
    forall s :: s in Leaves(r.tree, V6_BITS, 0) ==>
      s.offset in r.data && s.offset in idx && idx[s.offset] == Mini(r.data[s.offset].provider, r.data[s.offset].region)
  }

  /** The fast path names the provider and region of the record the full lookup decodes, and misses
      and fails with it. */
  lemma IdentityAgrees(r: Reader, ip: Addr, a: Answer)
    requires ip.IP? && Answers(r, ip, a)
    ensures match a
            case Miss => DecodeIdentity(r, ip).Unknown?
            case Corrupt => DecodeIdentity(r, ip).Undecodable?
            case Hit(rec, _) =>
              var who := DecodeIdentity(r, ip);
              who.Known? && who.who.provider == rec.provider && who.who.region == rec.region
  {
    hide TreeAddr, Find;
  }

  /** Every offset a lookup can reach is the offset of a leaf of the walk. */
  lemma ReachableIsWalked(r: Reader, x: nat)
    requires r.Valid() && x < Pow2(V6_BITS) && r.At(x).Some?
    ensures exists s :: s in Leaves(r.tree, V6_BITS, 0) && s.offset == r.At(x).value
  {
    var o := r.At(x).value;
    ZeroAligned(V6_BITS);
    assert x - 0 == x;
    LeafFound(r.tree, V6_BITS, 0, x, o);
    var i :| 0 <= i < |Leaves(r.tree, V6_BITS, 0)| && Leaves(r.tree, V6_BITS, 0)[i].Covers(x)
      && Leaves(r.tree, V6_BITS, 0)[i].offset == o;
    assert Leaves(r.tree, V6_BITS, 0)[i] in Leaves(r.tree, V6_BITS, 0);
  }

  class DB {
    const r: Reader
    var idx: Option<map<nat, Mini>>

    constructor (r: Reader)
      requires r.Valid()
      ensures this.r == r && idx == None && Valid()
    {
      this.r := r;
      idx := None;
    }

    ghost predicate Valid()
      reads this
    {
      r.Valid() && (idx.Some? ==> IndexOf(r, idx.value))
    }

    /** DB.Lookup. */
    method Lookup(ip: Addr) returns (a: Answer)
      requires Valid() && ip.IP? && AliasReached(r.tree, ip)
      ensures Answers(r, ip, a)
      ensures a.Hit? ==> a.network == MatchedNetwork(r.tree, ip)
    {
      hide Pow2, MappedBase, Aligned, Fits, Find, Locate;
      LocateInV4(r.tree, ip);
      TreeAddrFits(ip);
      var x := TreeAddr(ip);
      var found := r.At(x);
      if found.None? {
        return Miss;
      }
      if found.value !in r.data {
        return Corrupt;
      }
      var (base, k) := Locate(r.tree, V6_BITS, 0, x);
      a := Hit(ToRecord(r.data[found.value]), UnmapPrefix(ResultPrefix(ip, base, k)));
    }

    method Contains(ip: Addr) returns (found: bool)
      requires Valid() && ip.IP?
      ensures found <==> r.At(TreeAddr(ip)).Some?
      ensures found <==> DecodeIdentity(r, ip) != Unknown
    {
      found := r.At(TreeAddr(ip)).Some?;
    }

    /** LookupProvider answers the same with and without the index. */
    method LookupProvider(ip: Addr) returns (who: Identity)
      requires Valid() && ip.IP?
      ensures who == DecodeIdentity(r, ip)
    {
      TreeAddrFits(ip);
      var found := r.At(TreeAddr(ip));
      if found.None? {
        return Unknown;
      }
      if idx.Some? {
        ReachableIsWalked(r, TreeAddr(ip));
        var m := if found.value in idx.value then idx.value[found.value] else Mini("", "");
        return Known(m);
      }
      if found.value !in r.data {
        return Undecodable;
      }
      who := Known(Mini(r.data[found.value].provider, r.data[found.value].region));
    }

    /** BuildIndex succeeds exactly when every record the walk meets decodes, and otherwise leaves
        the database as it was. */
    method BuildIndex() returns (ok: bool)
      requires Valid()
      modifies this
      ensures Valid()
      ensures ok <==> forall s :: s in Leaves(r.tree, V6_BITS, 0) ==> s.offset in r.data
      ensures if ok then idx.Some? && idx.value.Keys == (set s | s in Leaves(r.tree, V6_BITS, 0) :: s.offset)
              else idx == old(idx)
    {
      var walk := Leaves(r.tree, V6_BITS, 0);
      var m: map<nat, Mini> := map[];
      for i := 0 to |walk|
        invariant idx == old(idx)
        invariant m.Keys == set s | s in walk[..i] :: s.offset
        invariant forall o :: o in m ==> o in r.data && m[o] == Mini(r.data[o].provider, r.data[o].region)
      {
        var off := walk[i].offset;
        assert walk[..i + 1] == walk[..i] + [walk[i]];
        if off in m {
          continue;
        }
        if off !in r.data {
          assert walk[i] in walk;
          return false;
        }
        m := m[off := Mini(r.data[off].provider, r.data[off].region)];
      }
      assert walk[..|walk|] == walk;
      assert forall s :: s in walk ==> s.offset in m.Keys;
      idx := Some(m);
      ok := true;
    }
  }

  // ----- the walk and the export -----

  /** The prefix the walk reports for a leaf: native IPv4 inside ::/96. */
  function NodePrefix(s: Spot): Prefix
    requires s.base < Pow2(V6_BITS)
  {
    if s.base < Pow2(V4_BITS) && s.k <= V4_BITS then Prefix(IP(V4, s.base), V4_BITS - s.k)
    else Prefix(IP(V6, s.base), V6_BITS - s.k)
  }

  datatype NetworkRecord = Network(prefix: Prefix, rec: Record) | BadRecord

  /** What Networks yields: one item per leaf up to the first that does not decode. */
  function Walked(r: Reader, ls: seq<Spot>): seq<NetworkRecord>
    requires forall s :: s in ls ==> s.base < Pow2(V6_BITS)
  {
    if ls == [] then []
    else [WalkItem(r, ls[0])] + if ls[0].offset in r.data then Walked(r, ls[1..]) else []
  }

  function WalkItem(r: Reader, s: Spot): NetworkRecord
    requires s.base < Pow2(V6_BITS)
  {
    if s.offset in r.data then Network(NodePrefix(s), ToRecord(r.data[s.offset])) else BadRecord
  }

  /** The items of a walk are its leaves, in order; only the last can be an error. */
  lemma {:induction false} WalkedItems(r: Reader, ls: seq<Spot>)
    requires forall s :: s in ls ==> s.base < Pow2(V6_BITS)
    ensures var items := Walked(r, ls);
            && |items| <= |ls|
            && (forall i :: 0 <= i < |items| ==> items[i] == WalkItem(r, ls[i]))
            && (forall i :: 0 <= i < |items| - 1 ==> items[i].Network?)
            && (|items| < |ls| ==> items != [] && items[|items| - 1].BadRecord?)
  {
    hide WalkItem, Pow2;
    if ls != [] && ls[0].offset in r.data {
      WalkedItems(r, ls[1..]);
      WalkedCons(r, ls);
      var items, tail := Walked(r, ls), Walked(r, ls[1..]);
      assert items == [WalkItem(r, ls[0])] + tail;
      assert forall i :: 0 < i < |items| ==> items[i] == tail[i - 1] && ls[i] == ls[1..][i - 1];
    } else if ls != [] {
      WalkedCons(r, ls);
    }
  }

  lemma WalkedCons(r: Reader, ls: seq<Spot>)
    requires ls != [] && forall s :: s in ls ==> s.base < Pow2(V6_BITS)
    ensures WalkItem(r, ls[0]).Network? <==> ls[0].offset in r.data
    ensures Walked(r, ls) == [WalkItem(r, ls[0])] + if ls[0].offset in r.data then Walked(r, ls[1..]) else []
  {
  }

  ghost predicate SpotsValid(ls: seq<Spot>) {
    forall s :: s in ls ==> s.base < Pow2(V6_BITS) && s.k <= V6_BITS && Aligned(s.base, s.k)
  }

  lemma WalkSpots(r: Reader)
    ensures SpotsValid(Leaves(r.tree, V6_BITS, 0)) && WalkOf(Leaves(r.tree, V6_BITS, 0), 0, V6_BITS)
  {
    hide Aligned, Leaves;
    ZeroAligned(V6_BITS);
    LeavesOrdered(r.tree, V6_BITS, 0);
  }

  /** DB.Networks: the consumer sees the walk until it stops or a record does not decode. */
  method Networks(db: DB, c: Consumer<NetworkRecord>)
    requires db.Valid() && !c.Done()
    modifies c
    ensures SpotsValid(Leaves(db.r.tree, V6_BITS, 0))
    ensures c.got == Deliver(old(c.got), Walked(db.r, Leaves(db.r.tree, V6_BITS, 0)), c.limit)
  {
    hide Leaves, Deliver, Walked, WalkItem, ToRecord, Aligned, WalkOf, Pow2;
    WalkSpots(db.r);
    var walk, r := Leaves(db.r.tree, V6_BITS, 0), db.r;
    ghost var items := Walked(r, walk);
    WalkedItems(r, walk);
    var i := 0;
    while i < |walk|
      invariant i <= |items| && !c.Done()
      invariant i == |items| ==> i == |walk|
      invariant c.got == old(c.got) + items[..i]
    {
      assert walk[i] in walk;
      var item := WalkItem(r, walk[i]);
      assert items[..i + 1] == items[..i] + [item];
      var more := c.Yield(item);
      i := i + 1;
      if item.BadRecord? || !more {
        DeliverPart(old(c.got), items, i, c.limit);
        return;
      }
    }
    DeliverPart(old(c.got), items, i, c.limit);
  }

  /** One exported row, with the inclusive integer bounds of its network. */
  datatype Row = Row(network: Prefix, start: nat, end: int, rec: Record, syncedAt: int)

  /** rangeBounds. */
  function RangeBounds(p: Prefix): (nat, int)
    requires p.IsValid()
  {
    var start := Floor(p.addr.n, p.Host());
    (start, start + Pow2(p.Host()) - 1)
  }

  function RowFor(p: Prefix, rec: Record): Row
    requires p.IsValid()
  {
    Row(p, RangeBounds(p).0, RangeBounds(p).1, rec, if rec.syncedAt.At? then rec.syncedAt.unix else 0)
  }

  lemma NodePrefixBounds(s: Spot)
    requires s.base < Pow2(V6_BITS) && s.k <= V6_BITS && Aligned(s.base, s.k)
    ensures NodePrefix(s).IsValid() && RangeBounds(NodePrefix(s)) == (s.base, s.Last())
    ensures NodePrefix(s).First() == s.base && NodePrefix(s).Last() == s.Last()
  {
    hide Aligned, Floor;
    FloorUnique(s.base, s.base, s.k);
  }

  /** The walk and a lookup name the same network for an address, unless the query is a plain v6
      address inside ::/96: the walk names the leaf there as native IPv4, the lookup as queried. */
  lemma WalkedNetworkIsMatched(tree: Trie<nat>, ip: Addr)
    requires ip.IP? && Fits(tree, V6_BITS) && AliasReached(tree, ip) && Find(tree, V6_BITS, TreeAddr(ip)).Some?
    ensures exists s :: s in Leaves(tree, V6_BITS, 0) && s.Covers(TreeAddr(ip)) && s.base < Pow2(V6_BITS)
              && (NodePrefix(s) == MatchedNetwork(tree, ip)
                  <==> !(ip.fam == V6 && !Is4In6(ip) && s.k <= 32 && s.base < 0x1_0000_0000))
  {
    hide Aligned, Floor, Locate, Find, Fits, Pow2, MappedBase, Leaves, MatchedNetwork, Names, NodePrefix;
    AddressSizes();
    var x := TreeAddr(ip);
    TreeAddrFits(ip);
    LocateInV4(tree, ip);
    LocateIsLeaf(tree, V6_BITS, 0, x);
    assert x - 0 == x;
    var (b, k) := Locate(tree, V6_BITS, 0, x);
    var s := Spot(b, k, Find(tree, V6_BITS, x).value);
    NodeNames(s);
    NetworkShape(tree, ip);
    NamesUnique(NodePrefix(s), MatchedNetwork(tree, ip), b, k, s.base < Pow2(V4_BITS) && s.k <= V4_BITS,
      Unmap(ip).fam == V4 && k <= V4_BITS);
    assert s in Leaves(tree, V6_BITS, 0) && s.Covers(x);
  }

  /** The family aside, a prefix is given by its block. */
  lemma NamesUnique(p: Prefix, q: Prefix, b: nat, k: nat, v: bool, w: bool)
    requires Names(p, b, k, v) && Names(q, b, k, w)
    ensures p == q <==> v == w
  {
  }

  /** The walk names a leaf as native IPv4 exactly when it lies inside ::/96. */
  lemma NodeNames(s: Spot)
    requires s.base < Pow2(V6_BITS) && s.k <= V6_BITS
    ensures Names(NodePrefix(s), s.base, s.k, s.base < Pow2(V4_BITS) && s.k <= V4_BITS)
  {
    hide Pow2;
  }

  datatype Export = Exported | BadRecordMet | WriteFailed | FlushFailed

  /** ExportCSV: one row per network of the walk, up to the first record that does not decode or that
      the writer refuses. The writer takes `accepts` records, counting the header; `flushes` says
      whether the final flush succeeds. */
  method ExportCSV(db: DB, accepts: nat, flushes: bool) returns (rows: seq<Row>, outcome: Export)
    requires db.Valid()
    ensures var walk, n := Leaves(db.r.tree, V6_BITS, 0), |rows|;
            && n <= |walk|
            && (forall i :: 0 <= i < n ==> RowOf(db.r, rows[i], walk[i]))
            && match outcome
               case Exported => n == |walk| < accepts && flushes
               case FlushFailed => n == |walk| < accepts && !flushes
               case BadRecordMet => n < |walk| && walk[n].offset !in db.r.data && n < accepts
               case WriteFailed => if accepts == 0 then n == 0
                                   else n < |walk| && walk[n].offset in db.r.data && n == accepts - 1
  {
    hide Leaves, Aligned, Walked, NodePrefix, RangeBounds, RowOf, RowFor, ToRecord, Pow2, WalkOf;
    rows := [];
    if accepts == 0 {
      return [], WriteFailed;
    }
    ghost var walk := Leaves(db.r.tree, V6_BITS, 0);
    WalkSpots(db.r);
    WalkedItems(db.r, walk);
    var items := Walked(db.r, Leaves(db.r.tree, V6_BITS, 0));
    var count := 0;
    while count < |items|
      invariant count == |rows| <= |items| && count < accepts
      invariant forall i :: 0 <= i < |rows| ==> RowOf(db.r, rows[i], walk[i])
      invariant forall i :: 0 <= i < count ==> items[i].Network?
    {
      assert walk[count] in walk;
      if items[count].BadRecord? {
        return rows, BadRecordMet;
      }
      NodePrefixBounds(walk[count]);
      var row := RowFor(items[count].prefix, items[count].rec);
      RowDescribes(db.r, walk[count], row);
      if count + 1 == accepts {
        return rows, WriteFailed;
      }
      rows := rows + [row];
      count := count + 1;
    }
    outcome := if flushes then Exported else FlushFailed;
  }

  /** A row describes a leaf: the leaf's network, its block as bounds, its record, its epoch. */
  ghost predicate RowOf(r: Reader, row: Row, s: Spot) {
    && s.base < Pow2(V6_BITS) && row.network == NodePrefix(s)
    && row.network.IsValid() && row.network.First() == row.start == s.base && row.network.Last() == row.end == s.Last()
    && s.offset in r.data && row.rec == ToRecord(r.data[s.offset])
    && row.syncedAt == r.data[s.offset].syncedAt
  }

  lemma RowDescribes(r: Reader, s: Spot, row: Row)
    requires s.base < Pow2(V6_BITS) && s.k <= V6_BITS && Aligned(s.base, s.k) && s.offset in r.data
    requires NodePrefix(s).IsValid() ==> row == RowFor(NodePrefix(s), ToRecord(r.data[s.offset]))
    ensures NodePrefix(s).IsValid() && RowOf(r, row, s)
  {
    NodePrefixBounds(s);
    hide Aligned, Pow2, Floor, NodePrefix;
  }

  ghost predicate OneRowHolds(rows: seq<Row>, x: nat) {
    exists i :: 0 <= i < |rows| && rows[i].start <= x <= rows[i].end
      && forall j :: 0 <= j < |rows| && rows[j].start <= x <= rows[j].end ==> j == i
  }

  ghost predicate ExportOf(r: Reader, rows: seq<Row>) {
    && |rows| == |Leaves(r.tree, V6_BITS, 0)|
    && forall i :: 0 <= i < |rows| ==> RowOf(r, rows[i], Leaves(r.tree, V6_BITS, 0)[i])
  }

  /** In a complete export a row holds an address exactly when a lookup of it finds the row's record. */
  lemma RowHolds(r: Reader, rows: seq<Row>, i: nat, x: nat)
    requires r.Valid() && x < Pow2(V6_BITS) && ExportOf(r, rows) && i < |rows|
    requires rows[i].start <= x <= rows[i].end
    ensures r.At(x).Some? && r.At(x).value in r.data && rows[i].rec == ToRecord(r.data[r.At(x).value])
  {
    hide Leaves, Aligned, Find;
    var walk := Leaves(r.tree, V6_BITS, 0);
    ZeroAligned(V6_BITS);
    assert x - 0 == x;
    assert RowOf(r, rows[i], walk[i]);
    assert walk[i].Covers(x);
    LeafFound(r.tree, V6_BITS, 0, x, walk[i].offset);
  }

  lemma RowsApart(r: Reader, rows: seq<Row>, i: nat, j: nat, x: nat)
    requires ExportOf(r, rows) && i < |rows| && j < |rows|
    requires rows[i].start <= x <= rows[i].end && rows[j].start <= x <= rows[j].end
    ensures i == j
  {
    hide Leaves, Aligned;
    var walk := Leaves(r.tree, V6_BITS, 0);
    WalkSpots(r);
    assert RowOf(r, rows[i], walk[i]) && RowOf(r, rows[j], walk[j]);
  }

  /** The views agree: in a complete export an address is found exactly when exactly one row's
      integer range holds it, and that row carries the record a lookup decodes. */
  lemma ExportAgrees(r: Reader, rows: seq<Row>, ip: Addr)
    requires r.Valid() && ip.IP? && ExportOf(r, rows)
    ensures r.At(TreeAddr(ip)).Some? <==> OneRowHolds(rows, TreeAddr(ip))
    ensures forall i :: 0 <= i < |rows| && rows[i].start <= TreeAddr(ip) <= rows[i].end ==>
              r.At(TreeAddr(ip)).Some? && r.At(TreeAddr(ip)).value in r.data
              && rows[i].rec == ToRecord(r.data[r.At(TreeAddr(ip)).value])
  {
    var x := TreeAddr(ip);
    TreeAddrFits(ip);
    if r.At(x).Some? { FoundRow(r, rows, x); }
    hide ExportOf, Find, Pow2, TreeAddr;
    forall i | 0 <= i < |rows| && rows[i].start <= x <= rows[i].end
      ensures r.At(x).Some? && r.At(x).value in r.data && rows[i].rec == ToRecord(r.data[r.At(x).value])
    {
      RowHolds(r, rows, i, x);
    }
  }

  lemma FoundRow(r: Reader, rows: seq<Row>, x: nat)
    requires r.Valid() && x < Pow2(V6_BITS) && ExportOf(r, rows) && r.At(x).Some?
    ensures OneRowHolds(rows, x)
  {
    hide Leaves, Aligned, Find, Pow2, Fits, NodePrefix, Floor;
    var walk := Leaves(r.tree, V6_BITS, 0);
    ZeroAligned(V6_BITS);
    assert x - 0 == x;
    LeafFound(r.tree, V6_BITS, 0, x, r.At(x).value);
    var i :| 0 <= i < |walk| && walk[i].Covers(x) && walk[i].offset == r.At(x).value;
    assert RowOf(r, rows[i], walk[i]);
    forall j | 0 <= j < |rows| && rows[j].start <= x <= rows[j].end ensures j == i {
      RowsApart(r, rows, i, j, x);
    }
  }
}
