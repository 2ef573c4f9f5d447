/** Addresses a connector may never lease. */
module ConnectorAddress {
  import opened Bits
  import opened Cidr

  /** The forbidden IPv4 ranges, in the order they are looked up. */
  const V4_RANGES: seq<Block> := [
    Block(V4, 0xA9FE_A9FE, 32),
    Block(V4, 0x6464_64C8, 32),
    Block(V4, 0x0000_0000, 8),
    Block(V4, 0x7F00_0000, 8),
    Block(V4, 0xA9FE_0000, 16),
    Block(V4, 0x6440_0000, 10),
    Block(V4, 0xE000_0000, 4),
    Block(V4, 0xF000_0000, 4)
  ]

  const MAPPED := Block(V6, 0xFFFF_0000_0000, 96)
  const NAT64 := Block(V6, 0x0064_FF9B_0000_0000_0000_0000_0000_0000, 96)

  /** The forbidden IPv6 ranges; `org` is the address that names the organisation's pool. */
  function V6Ranges(org: nat): seq<Block> {
    [
      Block(V6, 0xFD00_0EC2_0000_0000_0000_0000_0000_0254, 128),
      Block(V6, 0, 128),
      Block(V6, 1, 128),
      Block(V6, 0xFE80_0000_0000_0000_0000_0000_0000_0000, 10),
      Block(V6, 0xFF00_0000_0000_0000_0000_0000_0000_0000, 8),
      Block(V6, org, 64)
    ]
  }

  /** The address agrees with the block under its mask. */
  predicate In(b: Block, ip: Address) {
    IsBlock(b) && CidrContains(b, ip)
  }

  predicate InSome(ranges: seq<Block>, ip: Address) {
    exists i :: 0 <= i < |ranges| && In(ranges[i], ip)
  }

  predicate Forbidden4(ip: Address) {
    InSome(V4_RANGES, ip)
  }

  /** The IPv4 address in the low 32 bits. */
  function Embedded(ip: Address): Address {
    Address(V4, ip.bits % 0x1_0000_0000)
  }

  predicate Forbidden(ip: Address, org: nat) {
    if ip.family.V4? then Forbidden4(ip)
    else In(MAPPED, ip) || (In(NAT64, ip) && Forbidden4(Embedded(ip))) || InSome(V6Ranges(org), ip)
  }

  // ----- the ranges as intervals -----

  lemma {:induction false} Powers()
    ensures Pow2(0) == 1 && Pow2(16) == 0x1_0000 && Pow2(22) == 0x40_0000 && Pow2(24) == 0x100_0000
    ensures Pow2(28) == 0x1000_0000 && Pow2(32) == 0x1_0000_0000
  {
    Pow2Add(6, 16);
    Pow2Add(8, 16);
    Pow2Add(12, 16);
    Pow2Add(16, 16);
  }

  lemma {:induction false} LargePowers()
    ensures Pow2(64) == 0x1_0000_0000_0000_0000
    ensures Pow2(118) == 0x40_0000_0000_0000_0000_0000_0000_0000
    ensures Pow2(120) == 0x100_0000_0000_0000_0000_0000_0000_0000
    ensures Pow2(128) == 0x1_0000_0000_0000_0000_0000_0000_0000_0000
  {
    Powers();
    Pow2Add(32, 32);
    Pow2Add(32, 64);
    Pow2Add(22, 96);
    Pow2Add(24, 96);
    Pow2Add(32, 96);
  }

  /** A range of addresses: `size` of them from `first` on. */
  datatype Span = Span(first: nat, size: nat)

  predicate Spans(b: Block, s: Span) {
    IsBlock(b) && b.net == s.first && Pow2(Free(b)) == s.size && s.first % s.size == 0
  }

  predicate Inside(s: Span, bits: nat) {
    s.first <= bits < s.first + s.size
  }

  lemma {:induction false} HasIsSpan(b: Block, s: Span, ip: Address)
    requires Spans(b, s)
    ensures Has(b, ip) <==> ip.family == b.family && Inside(s, ip.bits)
  {
    AlignedByModulo(b.net, Free(b));
  }

  /** Masks over aligned blocks are intervals from the network on. */
  lemma {:induction false} InIsSpan(b: Block, s: Span, ip: Address)
    requires IsAddress(ip) && Spans(b, s)
    ensures In(b, ip) <==> ip.family == b.family && Inside(s, ip.bits)
  {
    ContainsIsMembership(b, ip);
    HasIsSpan(b, s, ip);
  }

  lemma {:induction false} InSomeIsSpans(r: seq<Block>, s: seq<Span>, ip: Address)
    requires IsAddress(ip) && |r| == |s|
    requires forall i :: 0 <= i < |r| ==> r[i].family == ip.family && Spans(r[i], s[i])
    ensures InSome(r, ip) <==> exists i :: 0 <= i < |s| && Inside(s[i], ip.bits)
  {
    forall i | 0 <= i < |r| ensures In(r[i], ip) <==> Inside(s[i], ip.bits) { InIsSpan(r[i], s[i], ip); }
  }

  predicate Reserved4(bits: nat) {
    bits < 0x100_0000
    || 0x6440_0000 <= bits < 0x6480_0000
    || 0x7F00_0000 <= bits < 0x8000_0000
    || 0xA9FE_0000 <= bits < 0xA9FF_0000
    || bits >= 0xE000_0000
  }

  const V4_SPANS: seq<Span> := [
    Span(0xA9FE_A9FE, 1),
    Span(0x6464_64C8, 1),
    Span(0x0000_0000, 0x100_0000),
    Span(0x7F00_0000, 0x100_0000),
    Span(0xA9FE_0000, 0x1_0000),
    Span(0x6440_0000, 0x40_0000),
    Span(0xE000_0000, 0x1000_0000),
    Span(0xF000_0000, 0x1000_0000)
  ]

  lemma {:induction false} V4SpansFit()
    ensures |V4_RANGES| == |V4_SPANS|
    ensures forall i :: 0 <= i < |V4_RANGES| ==> V4_RANGES[i].family.V4? && Spans(V4_RANGES[i], V4_SPANS[i])
  {
    Powers();
  }

  lemma {:induction false} V4SpansAreReserved(bits: nat)
    requires bits < 0x1_0000_0000
    ensures (exists i :: 0 <= i < |V4_SPANS| && Inside(V4_SPANS[i], bits)) <==> Reserved4(bits)
  {
    if Reserved4(bits) {
      var i := if bits < 0x100_0000 then 2 else if bits < 0x6480_0000 then 5 else if bits < 0x8000_0000 then 3
               else if bits < 0xA9FF_0000 then 4 else if bits < 0xF000_0000 then 6 else 7;
      assert Inside(V4_SPANS[i], bits);
    }
  }

  /** Refused IPv4 answers: this-network, the overlay's shared range, loopback, link-local,
      multicast and reserved addresses. The metadata endpoints lie inside these. */
  lemma {:induction false} Forbidden4Meaning(ip: Address)
    requires ip.family.V4? && IsAddress(ip)
    ensures ip.bits < 0x1_0000_0000
    ensures Forbidden4(ip) <==> Reserved4(ip.bits)
  {
    Powers();
    V4SpansFit();
    InSomeIsSpans(V4_RANGES, V4_SPANS, ip);
    V4SpansAreReserved(ip.bits);
  }

  predicate Reserved6(bits: nat, org: nat) {
    bits <= 1
    || 0xFFFF_0000_0000 <= bits < 0x1_0000_0000_0000
    || bits == 0xFD00_0EC2_0000_0000_0000_0000_0000_0254
    || 0xFE80_0000_0000_0000_0000_0000_0000_0000 <= bits < 0xFEC0_0000_0000_0000_0000_0000_0000_0000
    || bits >= 0xFF00_0000_0000_0000_0000_0000_0000_0000
    || org <= bits < org + 0x1_0000_0000_0000_0000
  }

  const TOP: nat := 0x1_0000_0000_0000_0000_0000_0000_0000_0000
  const HALF: nat := 0x1_0000_0000_0000_0000

  function V6Spans(org: nat): seq<Span> {
    [
      Span(0xFD00_0EC2_0000_0000_0000_0000_0000_0254, 1),
      Span(0, 1),
      Span(1, 1),
      Span(0xFE80_0000_0000_0000_0000_0000_0000_0000, 0x40_0000_0000_0000_0000_0000_0000_0000),
      Span(0xFF00_0000_0000_0000_0000_0000_0000_0000, 0x100_0000_0000_0000_0000_0000_0000_0000),
      Span(org, HALF)
    ]
  }

  /** The organisation's pool address: its low 64 bits are zero. */
  predicate IsPoolAddress(org: nat) {
    org < TOP && org % HALF == 0
  }

  lemma {:induction false} V6SpansFit(org: nat)
    requires IsPoolAddress(org)
    ensures forall i :: 0 <= i < 6 ==> V6Ranges(org)[i].family.V6? && Spans(V6Ranges(org)[i], V6Spans(org)[i])
  {
    HostSpans(V6Ranges(org)[0].net);
    HostSpans(0);
    HostSpans(1);
    LargePowers();
    V6SpanFits(0xFE80_0000_0000_0000_0000_0000_0000_0000, 118, 0x40_0000_0000_0000_0000_0000_0000_0000);
    V6SpanFits(0xFF00_0000_0000_0000_0000_0000_0000_0000, 120, 0x100_0000_0000_0000_0000_0000_0000_0000);
    V6SpanFits(org, 64, HALF);
  }

  lemma {:induction false} V6SpanFits(net: nat, free: nat, size: nat)
    requires free <= 128 && net < TOP && Pow2(free) == size && net % size == 0
    ensures Spans(Block(V6, net, 128 - free), Span(net, size))
  {
    LargePowers();
  }

  lemma {:induction false} HostSpans(net: nat)
    requires net < TOP
    ensures Spans(Block(V6, net, 128), Span(net, 1))
  {
    V6SpanFits(net, 0, 1);
  }

  lemma {:induction false} EmbeddingSpansFit()
    ensures Spans(MAPPED, Span(MAPPED.net, 0x1_0000_0000)) && Spans(NAT64, Span(NAT64.net, 0x1_0000_0000))
  {
    Powers();
    LargePowers();
  }

  lemma {:induction false} V6SpansAreReserved(bits: nat, org: nat)
    requires bits < TOP
    ensures Inside(Span(MAPPED.net, 0x1_0000_0000), bits) || (exists i :: 0 <= i < 6 && Inside(V6Spans(org)[i], bits))
            <==> Reserved6(bits, org)
  {
    if Reserved6(bits, org) && !Inside(Span(MAPPED.net, 0x1_0000_0000), bits) {
      var i := if bits == 0 then 1 else if bits == 1 then 2 else if org <= bits < org + HALF then 5
               else if bits == V6Spans(org)[0].first then 0
               else if bits < 0xFF00_0000_0000_0000_0000_0000_0000_0000 then 3 else 4;
      assert Inside(V6Spans(org)[i], bits);
    }
  }

  lemma {:induction false} V6RangesMeaning(ip: Address, org: nat)
    requires ip.family.V6? && IsAddress(ip) && IsPoolAddress(org)
    ensures In(MAPPED, ip) || InSome(V6Ranges(org), ip) <==> Reserved6(ip.bits, org)
  {
    LargePowers();
    V6SpansFit(org);
    EmbeddingSpansFit();
    InIsSpan(MAPPED, Span(MAPPED.net, 0x1_0000_0000), ip);
    InSomeIsSpans(V6Ranges(org), V6Spans(org), ip);
    V6SpansAreReserved(ip.bits, org);
  }

  /** Refused IPv6 answers: a reserved one, or the NAT64 form of a refused IPv4 address. */
  lemma {:induction false} Forbidden6Meaning(ip: Address, org: nat)
    requires ip.family.V6? && IsAddress(ip) && IsPoolAddress(org)
    ensures Forbidden(ip, org) <==>
            Reserved6(ip.bits, org) || (0 <= ip.bits - NAT64.net < 0x1_0000_0000 && Reserved4(ip.bits - NAT64.net))
  {
    V6RangesMeaning(ip, org);
    EmbeddingSpansFit();
    InIsSpan(NAT64, Span(NAT64.net, 0x1_0000_0000), ip);
    if In(NAT64, ip) {
      Powers();
      LowBits(ip.bits - NAT64.net);
      Forbidden4Meaning(Embedded(ip));
    }
  }

  lemma {:induction false} LowBits(k: nat)
    requires k < 0x1_0000_0000
    ensures (NAT64.net + k) % 0x1_0000_0000 == k
  {
  }

  /** Neither the mapped nor the NAT64 form of a refused IPv4 address gets through. */
  lemma {:induction false} EmbeddedStaysForbidden(ip: Address, org: nat)
    requires ip.family.V4? && IsAddress(ip) && Forbidden4(ip)
    requires IsPoolAddress(org)
    ensures Forbidden(Address(V6, MAPPED.net + ip.bits), org) && Forbidden(Address(V6, NAT64.net + ip.bits), org)
  {
    Forbidden4Meaning(ip);
    LargePowers();
    Forbidden6Meaning(Address(V6, MAPPED.net + ip.bits), org);
    Forbidden6Meaning(Address(V6, NAT64.net + ip.bits), org);
  }
}
