/**
 Addresses and prefixes as the program uses them, and the canonical form (netutil.go) that every
 index and key relies on. An address is a family and a number; prefix notation is that of section
 3.1 of RFC 4632, and IPv4-mapped IPv6 that of section 2.5.5.2 of RFC 4291.
 */
module Netip {
  import opened Bits
  import opened Common

  type Word32 = n: nat | n < 0x1_0000_0000
  type Word128 = n: nat | n < 0x1_0000_0000_0000_0000_0000_0000_0000_0000

  datatype Addr = NoAddr | V4(w: Word32) | V6(x: Word128, zone: string) {
    predicate IsValid() { !NoAddr? }

    predicate Is4() { V4? }

    predicate Is6() { V6? }

    predicate Is4In6() { V6? && x / 0x1_0000_0000 == 0xFFFF }

    function Unmap(): Addr {
      if Is4In6() then V4(x % 0x1_0000_0000) else this
    }

    function Zone(): string {
      if V6? then zone else ""
    }

    function WithoutZone(): Addr {
      if V6? then V6(x, "") else this
    }

    function Number(): nat {
      match this
      case NoAddr => 0
      case V4(w) => w
      case V6(x, _) => x
    }
  }

  function CanonicalIP(a: Addr): Addr {
    var b := if a.Is4In6() then a.Unmap() else a;
    if b.Zone() != "" then b.WithoutZone() else b
  }

  /** The host an address names: its 128-bit form with IPv4 in mapped position, the zone ignored. */
  function Host(a: Addr): Option<Word128> {
    match a
    case NoAddr => None
    case V4(w) => Some(0xFFFF * 0x1_0000_0000 + w)
    case V6(x, _) => Some(x)
  }

  predicate Canonical(a: Addr) {
    !a.Is4In6() && a.Zone() == ""
  }

  /** Canonical addresses are fixed points, and one host has exactly one canonical address. */
  lemma CanonicalIPIsTheHostsOneForm(a: Addr, b: Addr)
    ensures Canonical(CanonicalIP(a)) && Host(CanonicalIP(a)) == Host(a)
    ensures Canonical(a) <==> CanonicalIP(a) == a
    ensures CanonicalIP(a) == CanonicalIP(b) <==> Host(a) == Host(b)
  {
    CanonicalHost(a);
    CanonicalHost(b);
    if Host(a) == Host(b) {
      CanonicalInjective(CanonicalIP(a), CanonicalIP(b));
    }
  }

  /** An IPv4 address behind the prefix ::ffff:0:0/96 becomes itself; any other address only loses its zone. */
  lemma MappedIsUnmapped(w: Word32, x: Word128, zone: string)
    ensures CanonicalIP(V6(0xFFFF_0000_0000 + w, zone)) == V4(w) == CanonicalIP(V4(w))
    ensures !(0xFFFF_0000_0000 <= x <= 0xFFFF_FFFF_FFFF) ==> CanonicalIP(V6(x, zone)) == V6(x, "")
  {
    assert (0xFFFF_0000_0000 + w) / 0x1_0000_0000 == 0xFFFF;
    assert x / 0x1_0000_0000 == 0xFFFF ==> 0xFFFF_0000_0000 <= x <= 0xFFFF_FFFF_FFFF;
  }

  lemma CanonicalHost(a: Addr)
    ensures Canonical(CanonicalIP(a)) && Host(CanonicalIP(a)) == Host(a)
  {
  }

  lemma CanonicalInjective(a: Addr, b: Addr)
    requires Canonical(a) && Canonical(b) && Host(a) == Host(b)
    ensures a == b
  {
    if a.V4? {
      assert (0xFFFF * 0x1_0000_0000 + a.w) / 0x1_0000_0000 == 0xFFFF;
    }
    if b.V4? {
      assert (0xFFFF * 0x1_0000_0000 + b.w) / 0x1_0000_0000 == 0xFFFF;
    }
  }

  // ---------- prefixes ----------

  datatype Prefix = NoPrefix | Prefix4(w: Word32, bits: int) | Prefix6(x: Word128, bits: int) {
    predicate IsValid() {
      match this
      case NoPrefix => false
      case Prefix4(_, b) => 0 <= b <= 32
      case Prefix6(_, b) => 0 <= b <= 128
    }

    /** How many low bits the prefix leaves to the host. */
    function HostBits(): nat
      requires IsValid()
    {
      if Prefix4? then 32 - bits else 128 - bits
    }

    function Number(): nat
      requires IsValid()
    {
      if Prefix4? then w else x
    }

    /** The lowest and the highest number inside the prefix. */
    function First(): nat
      requires IsValid()
    {
      ClearLow(Number(), HostBits())
    }

    function Last(): nat
      requires IsValid()
    {
      First() + Pow2(HostBits()) - 1
    }

    predicate SameFamily(a: Addr)
      requires IsValid()
    {
      if Prefix4? then a.V4? else a.V6?
    }

    /** Containment as the address library decides it: equal top bits, one family, no zone. */
    predicate Contains(a: Addr) {
      && IsValid()
      && a.Zone() == ""
      && SameFamily(a)
      && TopBits(a.Number(), HostBits()) == TopBits(Number(), HostBits())
    }
  }

  lemma ValueOfFamily(p: Prefix)
    requires p.IsValid()
    ensures p.First() <= p.Number() <= p.Last()
    ensures p.Prefix4? ==> p.Last() < 0x1_0000_0000
    ensures p.Prefix6? ==> p.Last() < 0x1_0000_0000_0000_0000_0000_0000_0000_0000
  {
    Pow2Of32();
    Pow2Of128();
    ClearLowBounds(p.Number(), p.HostBits());
    BlockBelow(p.Number(), p.HostBits(), p.bits);
  }

  function Masked(p: Prefix): (m: Prefix)
    ensures m.IsValid() == p.IsValid()
  {
    if !p.IsValid() then NoPrefix
    else
      ValueOfFamily(p);
      if p.Prefix4? then Prefix4(p.First(), p.bits) else Prefix6(p.First(), p.bits)
  }

  /** Masking changes neither end of a prefix, and so no containment answer. */
  lemma MaskedKeepsEnds(p: Prefix)
    requires p.IsValid()
    ensures Masked(p).First() == p.First() && Masked(p).Last() == p.Last()
    ensures Masked(p).Number() == p.First()
  {
    ValueOfFamily(p);
    ClearLowBounds(p.Number(), p.HostBits());
    SameBlock(p.Number(), p.First(), p.HostBits());
  }

  /** Equal top bits is the same test as lying between the two ends. */
  lemma ContainsIffBetween(p: Prefix, a: Addr)
    requires p.IsValid()
    ensures p.Contains(a) <==>
            a.Zone() == "" && p.SameFamily(a) && p.First() <= a.Number() <= p.Last()
  {
    SameBlock(p.Number(), a.Number(), p.HostBits());
  }

  /** Two prefixes of one family that share an address are nested: the longer one lies inside the shorter. */
  lemma NestedOrDisjoint(p: Prefix, q: Prefix)
    requires p.IsValid() && q.IsValid() && p.Prefix4? == q.Prefix4?
    requires p.bits <= q.bits
    ensures || (p.First() <= q.First() && q.Last() <= p.Last())
            || p.Last() < q.First()
            || q.Last() < p.First()
  {
    var g, h := p.HostBits(), q.HostBits();
    if p.First() <= q.Last() && q.First() <= p.Last() {
      // Some number lies in both blocks, so q's whole block shares p's top bits.
      var n := if p.First() <= q.First() then q.First() else p.First();
      SameBlock(p.Number(), n, g);
      SameBlock(q.Number(), n, h);
      SameBlock(q.Number(), q.First(), h);
      SameBlock(q.Number(), q.Last(), h);
      BlockInside(n, q.First(), g, h);
      BlockInside(n, q.Last(), g, h);
      SameBlock(p.Number(), q.First(), g);
      SameBlock(p.Number(), q.Last(), g);
    }
  }

  // ---------- the /24 or /64 neighbourhood (vpn.go) ----------

  /** The library's Prefix method: the top b bits of an address, or an error. */
  function AddrPrefix(a: Addr, b: int): Option<Prefix> {
    match a
    case NoAddr => if b < 0 then None else Some(NoPrefix)
    case V4(w) => if b < 0 || b > 32 then None else Some(Masked(Prefix4(w, b)))
    case V6(x, _) => if b < 0 || b > 128 then None else Some(Masked(Prefix6(x, b)))
  }

  function NetPrefixForIP(ip: Addr): Option<Prefix> {
    var a := CanonicalIP(ip);
    var bits := if a.Is6() then 64 else 24;
    match AddrPrefix(a, bits)
    case None => None
    case Some(p) => Some(Masked(p))
  }

  /** Every valid address has a neighbourhood, and it consists of exactly the addresses the prefix contains. */
  lemma NeighbourhoodIsContainment(a: Addr, b: Addr)
    requires a.IsValid()
    ensures NetPrefixForIP(a).Some? && NetPrefixForIP(a).value.IsValid()
    ensures NetPrefixForIP(a).value.bits == if CanonicalIP(a).Is4() then 24 else 64
    ensures NetPrefixForIP(b) == NetPrefixForIP(a) <==> NetPrefixForIP(a).value.Contains(CanonicalIP(b))
  {
    var pa := NetPrefixForIP(a).value;
    NeighbourhoodEnds(a);
    CanonicalHost(b);
    ContainsIffBetween(pa, CanonicalIP(b));
    if b.IsValid() {
      NeighbourhoodEnds(b);
      SameBlock(CanonicalIP(a).Number(), CanonicalIP(b).Number(), pa.HostBits());
    }
  }

  lemma NeighbourhoodEnds(a: Addr)
    requires a.IsValid()
    ensures NetPrefixForIP(a).Some? && NetPrefixForIP(a).value.IsValid()
    ensures var c, p := CanonicalIP(a), NetPrefixForIP(a).value;
            && p.SameFamily(c)
            && p.bits == (if c.Is4() then 24 else 64)
            && p.Number() == p.First() == ClearLow(c.Number(), p.HostBits())
  {
    var c := CanonicalIP(a);
    var raw := if c.Is4() then Prefix4(c.w, 24) else Prefix6(c.x, 64);
    MaskedKeepsEnds(raw);
    MaskedKeepsEnds(Masked(raw));
  }
}
