// The part of Go's net/netip and netipx that the attribution code relies on.
module Net {
  import opened Bits

  datatype Family = V4 | V6

  const V4_BITS: nat := 32
  const V6_BITS: nat := 128
  const MAPPED_BITS: nat := 48

  function Width(f: Family): nat {
    if f == V4 then V4_BITS else V6_BITS
  }

  datatype RawAddr = ZeroAddr | IP(fam: Family, n: nat)

  /** netip.Addr without zones: the invalid zero value, or an integer below 2^32 or 2^128. */
  type Addr = a: RawAddr | a.IP? ==> a.n < Pow2(Width(a.fam)) witness ZeroAddr

  /** Both families on one line, v4 first. */
  function KeyOf(f: Family, n: nat): int {
    if f == V4 then n else Pow2(V4_BITS) + n
  }

  /** Addr.Compare orders by bit length and then by value; that is the order of this key. */
  function Key(a: Addr): int {
    if a.IP? then KeyOf(a.fam, a.n) else -1
  }

  predicate Le(a: Addr, b: Addr) {
    Key(a) <= Key(b)
  }

  /** The zero Addr first, then IPv4, then IPv6, each by value. */
  lemma CompareOrder(a: Addr, b: Addr)
    ensures Le(a, b) <==>
              a == ZeroAddr || (b.IP? && (if a.fam == b.fam then a.n <= b.n else a.fam == V4))
  {
  }

  predicate Is4(a: Addr) {
    a.IP? && a.fam == V4
  }

  /** Addr.Next: the zero Addr above the last address of a family. */
  function Next(a: Addr): Addr {
    if a.IP? && a.n + 1 < Pow2(Width(a.fam)) then IP(a.fam, a.n + 1) else ZeroAddr
  }

  /** Addr.Prev: the zero Addr below the first address of a family. */
  function Prev(a: Addr): Addr {
    if a.IP? && a.n > 0 then IP(a.fam, a.n - 1) else ZeroAddr
  }

  /** ::ffff:0:0, the first v4-mapped address (section 2.5.5.2 of RFC 4291). */
  function MappedBase(): nat {
    Pow2Mono(V4_BITS, MAPPED_BITS);
    Pow2(MAPPED_BITS) - Pow2(V4_BITS)
  }

  /** Next and Prev step to the neighbours: nothing of the family lies in between. */
  lemma Neighbours(a: Addr, b: Addr)
    requires a.IP? && b.IP? && a.fam == b.fam
    ensures Next(a) == b <==> Prev(b) == a
    ensures Next(a) == b <==> a != b && Le(a, b) && forall c: Addr :: Le(a, c) && Le(c, b) ==> c == a || c == b
  {
    if a != b && Le(a, b) && Next(a) != b {
      var c: Addr := IP(a.fam, a.n + 1);
      assert Le(a, c) && Le(c, b) && c != a && c != b;
    }
  }

  lemma PowerSizes(k: nat)
    requires k == 4
    ensures Pow2(8 * k) == 0x1_0000_0000 && Pow2(12 * k) == 0x1_0000_0000_0000
    ensures Pow2(32 * k) == 0x1_0000_0000_0000_0000_0000_0000_0000_0000
  {
    assert Pow2(k) == 0x10;
    hide Pow2;
    Pow2Sum(k, k, 0x10, 0x10);
    Pow2Sum(2 * k, 2 * k, 0x100, 0x100);
    Pow2Sum(4 * k, 4 * k, 0x1_0000, 0x1_0000);
    Pow2Sum(8 * k, 4 * k, 0x1_0000_0000, 0x1_0000);
    Pow2Sum(8 * k, 8 * k, 0x1_0000_0000, 0x1_0000_0000);
    Pow2Sum(16 * k, 16 * k, 0x1_0000_0000_0000_0000, 0x1_0000_0000_0000_0000);
  }

  /** 32-bit and 128-bit addresses, and mapped ones from ::ffff:0:0 on. */
  lemma AddressSizes()
    ensures Pow2(V4_BITS) == 0x1_0000_0000 && Pow2(V6_BITS) == 0x1_0000_0000_0000_0000_0000_0000_0000_0000
    ensures MappedBase() == 0xffff_0000_0000
  {
    hide Pow2;
    PowerSizes(4);
  }

  predicate Is4In6(a: Addr) {
    a.IP? && a.fam == V6 && MappedBase() <= a.n < MappedBase() + Pow2(V4_BITS)
  }

  function Unmap(a: Addr): Addr {
    if Is4In6(a) then IP(V4, a.n - MappedBase()) else a
  }

  /** netip.Prefix. The address may carry host bits; `bits` is -1 in an invalid prefix. */
  datatype Prefix = Prefix(addr: Addr, bits: int) {
    predicate IsValid() {
      addr.IP? && 0 <= bits <= Width(addr.fam)
    }

    /** Number of bits below the prefix length. */
    function Host(): nat
      requires IsValid()
    {
      Width(addr.fam) - bits
    }

    /** First and last address of netipx.RangeOfPrefix, which masks the prefix. */
    function First(): nat
      requires IsValid()
    {
      Floor(addr.n, Host())
    }

    function Last(): nat
      requires IsValid()
    {
      First() + Pow2(Host()) - 1
    }

    /** The addresses a network stands for, as integers. A v4 address and the v6
        address ::a.b.c.d with the same integer are one slot of the MMDB tree. */
    predicate Holds(x: nat) {
      IsValid() && First() <= x <= Last()
    }
  }

  /** A masked prefix ends inside its family. */
  lemma PrefixInFamily(p: Prefix)
    requires p.IsValid()
    ensures Aligned(p.First(), p.Host())
    ensures p.First() <= p.addr.n <= p.Last() < Pow2(Width(p.addr.fam))
  {
    FloorBlock(p.addr.n, p.Host());
    BlockFits(p.First(), p.Host(), Width(p.addr.fam));
  }

  datatype Option<+T> = None | Some(value: T)

  /** normalizePrefix: a v4-in-v6 prefix becomes native IPv4; one shorter than /96 is refused. */
  function NormalizePrefix(p: Prefix): (r: Option<Prefix>)
    ensures r.Some? ==> (r.value.IsValid() <==> p.IsValid())
    ensures r.Some? ==> !Is4In6(r.value.addr)
  {
    if Is4In6(p.addr) then
      if p.bits < V6_BITS - V4_BITS then None else Some(Prefix(Unmap(p.addr), p.bits - (V6_BITS - V4_BITS)))
    else
      Some(p)
  }

  /** Rewriting a mapped prefix to native IPv4 moves its block down by ::ffff:0:0 and nothing else;
      a prefix is refused exactly when it is mapped and its length would turn negative. */
  lemma NormalizeMovesBlock(p: Prefix)
    requires p.IsValid()
    ensures NormalizePrefix(p).None? <==> Is4In6(p.addr) && p.bits < V6_BITS - V4_BITS
    ensures NormalizePrefix(p).Some? ==>
              var q := NormalizePrefix(p).value;
              var shift := if Is4In6(p.addr) then MappedBase() else 0;
              q.First() + shift == p.First() && q.Last() + shift == p.Last()
  {
    hide Aligned, Floor, Pow2;
    if Is4In6(p.addr) && p.bits >= V6_BITS - V4_BITS {
      var k, n := p.Host(), p.addr.n;
      MappedAligned(k);
      FloorBlock(n - MappedBase(), k);
      AlignedSum(Floor(n - MappedBase(), k), MappedBase(), k);
      FloorUnique(Floor(n - MappedBase(), k) + MappedBase(), n, k);
    }
  }

  lemma MappedAligned(k: nat)
    requires k <= V4_BITS
    ensures Aligned(MappedBase(), k)
  {
    hide Aligned, Pow2;
    AlignedPow2(MAPPED_BITS, k);
    AlignedPow2(V4_BITS, k);
    Pow2Less(V4_BITS, MAPPED_BITS);
    AlignedGap(Pow2(V4_BITS), Pow2(MAPPED_BITS), k);
  }
}
