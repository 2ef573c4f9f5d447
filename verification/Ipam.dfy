/** Pool arithmetic: usable ranges, reservation checks, and the organisation's IPv4 device
    pool inside the CGNAT supernet. */
module Ipam {
  import opened Bits
  import opened Cidr
  import opened Options

  // ----- usable hosts and reservations -----

  /** First and last host a reservation may name. A /31 and a /32 have no reserved ends. */
  function UsableRange(base: nat, prefix: nat): (nat, int)
    requires base < Pow2(32) && prefix <= 32
  {
    if prefix == 32 then (base, base)
    else if prefix == 31 then (base, base + 1)
    else
      var broadcast := Or(base, Shr(Pow2(32) - 1, prefix));
      (base + 1, broadcast - 1)
  }

  /** An exclusion entry: a parsed CIDR, a single address, or text that is neither. */
  datatype Exclusion = Net(block: Block) | Host(address: Address) | Unparseable

  datatype Pool = Pool(name: string, cidr: Option<Block>, exclusions: seq<Exclusion>)

  datatype Verdict = Ok | InvalidAddress | InvalidCidr | NetworkAddress | BroadcastAddress | OutsidePool | IsExcluded

  predicate ExclusionMatches(a: Address, e: Exclusion) {
    match e
    case Net(b) => IsBlock(b) && CidrContains(b, a)
    case Host(h) => h == a
    case Unparseable => false
  }

  /** The first exclusion that matches or does not parse decides. */
  function ExclusionVerdict(a: Address, exclusions: seq<Exclusion>): Verdict {
    if exclusions == [] then Ok
    else if exclusions[0].Unparseable? then InvalidCidr
    else if ExclusionMatches(a, exclusions[0]) then IsExcluded
    else ExclusionVerdict(a, exclusions[1..])
  }

  function EndVerdict(network: Block, a: Address): Verdict
    requires IsNetwork(network) && network.family == a.family
  {
    if a.family.V4? then
      var range := UsableRange(network.net, network.len);
      if a.bits < range.0 then NetworkAddress
      else if a.bits > range.1 then BroadcastAddress
      else Ok
    else if a.bits == network.net then NetworkAddress
    else Ok
  }

  predicate PoolsParseToNetworks(pools: seq<Pool>) {
    forall p :: p in pools && p.cidr.Some? ==> IsNetwork(p.cidr.value)
  }

  /** The first pool that has the address decides, after every earlier pool parsed. */
  function ReservationVerdict(pools: seq<Pool>, a: Address): Verdict
    requires PoolsParseToNetworks(pools)
  {
    if pools == [] then OutsidePool
    else if pools[0].cidr.None? then InvalidCidr
    else if !CidrContains(pools[0].cidr.value, a) then ReservationVerdict(pools[1..], a)
    else
      var excluded := ExclusionVerdict(a, pools[0].exclusions);
      if excluded != Ok then excluded else EndVerdict(pools[0].cidr.value, a)
  }

  method ValidateReservation(pools: seq<Pool>, address: Option<Address>) returns (v: Verdict)
    requires PoolsParseToNetworks(pools)
    ensures v == if address.None? then InvalidAddress else ReservationVerdict(pools, address.value)
  {
    if address.None? {
      return InvalidAddress;
    }
    var a := address.value;
    for i := 0 to |pools|
      invariant ReservationVerdict(pools, a) == ReservationVerdict(pools[i..], a)
    {
      var pool := pools[i];
      assert pools[i..][0] == pool && pools[i..][1..] == pools[i + 1..];
      if pool.cidr.None? {
        return InvalidCidr;
      }
      if !CidrContains(pool.cidr.value, a) {
        continue;
      }
      for j := 0 to |pool.exclusions|
        invariant ExclusionVerdict(a, pool.exclusions) == ExclusionVerdict(a, pool.exclusions[j..])
      {
        assert pool.exclusions[j..][0] == pool.exclusions[j] && pool.exclusions[j..][1..] == pool.exclusions[j + 1..];
        if pool.exclusions[j].Unparseable? {
          return InvalidCidr;
        }
        if ExclusionMatches(a, pool.exclusions[j]) {
          return IsExcluded;
        }
      }
      return EndVerdict(pool.cidr.value, a);
    }
    return OutsidePool;
  }

  lemma {:induction false} InteriorOfLarge(b: Block)
    requires IsNetwork(b) && b.family == V4 && b.len <= 30
    ensures UsableRange(b.net, b.len) == (b.net + 1, b.net + Pow2(Free(b)) - 2)
  {
    LastAddress(b.net, 32, b.len);
  }

  /** Setting the host bits of a network address gives the last address of the block. */
  lemma {:induction false} LastAddress(net: nat, w: nat, len: nat)
    requires len <= w && Aligned(net, w - len)
    ensures Or(net, Shr(Pow2(w) - 1, len)) == net + (Pow2(w - len) - 1)
  {
    ShrOnes(w, len);
    OrLow(net, Pow2(w - len) - 1, w - len);
  }

  lemma {:induction false} EndsOfSmall(b: Block)
    requires IsNetwork(b) && b.family == V4 && b.len >= 31
    ensures UsableRange(b.net, b.len) == (b.net, b.net + Pow2(Free(b)) - 1)
  {
    assert Pow2(1) == 2 && Pow2(0) == 1;
  }

  /** An accepted IPv4 host of a pool of /30 or shorter is neither end of its block. */
  lemma {:induction false} UsableRangeIsInterior(b: Block)
    requires IsNetwork(b) && b.family == V4
    ensures b.len <= 30 ==> UsableRange(b.net, b.len) == (b.net + 1, b.net + Pow2(Free(b)) - 2)
    ensures b.len >= 31 ==> UsableRange(b.net, b.len) == (b.net, b.net + Pow2(Free(b)) - 1)
  {
    if b.len <= 30 { InteriorOfLarge(b); } else { EndsOfSmall(b); }
  }

  /** A reservation is accepted exactly when the first pool with the address does not exclude
      it and it is a usable host there. */
  lemma {:induction false} AcceptedMeaning(pools: seq<Pool>, a: Address)
    requires PoolsParseToNetworks(pools) && IsAddress(a)
    ensures ReservationVerdict(pools, a) == Ok <==>
            exists i: nat :: AcceptedAt(pools, i, a)
  {
    if pools != [] {
      var rest := pools[1..];
      assert PoolsParseToNetworks(rest) && pools == [pools[0]] + rest;
      AcceptedMeaning(rest, a);
      FirstOrRest(pools[0], rest, a);
      if pools[0].cidr.Some? {
        ContainsIsMembership(pools[0].cidr.value, a);
        if Has(pools[0].cidr.value, a) { HeadMeaning(pools[0], a); }
      }
    }
  }

  ghost predicate AcceptedAt(pools: seq<Pool>, i: nat, a: Address) {
    i < |pools| && AcceptedBy(pools[i], a)
    && forall j :: 0 <= j < i ==> pools[j].cidr.Some? && !Has(pools[j].cidr.value, a)
  }

  lemma FirstOrRest(head: Pool, rest: seq<Pool>, a: Address)
    ensures (exists i: nat :: AcceptedAt([head] + rest, i, a)) <==>
            AcceptedBy(head, a)
            || (head.cidr.Some? && !Has(head.cidr.value, a) && exists i: nat :: AcceptedAt(rest, i, a))
  {
    var pools := [head] + rest;
    if AcceptedBy(head, a) { assert AcceptedAt(pools, 0, a); }
    if i: nat :| AcceptedAt(rest, i, a) && head.cidr.Some? && !Has(head.cidr.value, a) {
      assert forall j :: 0 < j <= i + 1 ==> pools[j] == rest[j - 1];
      assert AcceptedAt(pools, i + 1, a);
    }
    if i: nat :| AcceptedAt(pools, i, a) {
      if i > 0 {
        assert pools[0] == head && forall j :: 0 <= j < i ==> rest[j] == pools[j + 1];
        assert AcceptedAt(rest, i - 1, a);
      }
    }
  }

  /** The pool has the address, no exclusion matches it before one that does not parse, and it is usable. */
  ghost predicate AcceptedBy(pool: Pool, a: Address) {
    pool.cidr.Some? && Has(pool.cidr.value, a)
    && (forall e :: e in pool.exclusions ==> !e.Unparseable? && !ExclusionMatches(a, e))
    && (a.family.V4? ==>
          var range := UsableRange(pool.cidr.value.net, pool.cidr.value.len);
          range.0 <= a.bits <= range.1)
    && (a.family.V6? ==> a.bits != pool.cidr.value.net)
  }

  lemma HeadMeaning(pool: Pool, a: Address)
    requires pool.cidr.Some? && IsNetwork(pool.cidr.value) && Has(pool.cidr.value, a)
    ensures (ExclusionVerdict(a, pool.exclusions) == Ok && EndVerdict(pool.cidr.value, a) == Ok) <==>
            AcceptedBy(pool, a)
  {
    ExclusionsMeaning(a, pool.exclusions);
  }

  lemma {:induction false} ExclusionsMeaning(a: Address, exclusions: seq<Exclusion>)
    ensures ExclusionVerdict(a, exclusions) == Ok <==>
            forall e :: e in exclusions ==> !e.Unparseable? && !ExclusionMatches(a, e)
  {
    if exclusions != [] {
      ExclusionsMeaning(a, exclusions[1..]);
      assert forall e :: e in exclusions <==> e == exclusions[0] || e in exclusions[1..];
    }
  }

  // ----- the device pool -----

  const CGNAT_BASE: nat := 0x6440_0000
  const CGNAT_PREFIX: nat := 10
  const MIN_POOL_PREFIX: nat := 20
  const MAX_POOL_PREFIX: nat := 24
  const DEFAULT_POOL_PREFIX: nat := 24

  datatype DevicePool = DevicePool(network: nat, prefix: nat)

  /** `Pool::parse` on a parsed address and prefix; `None` where it reports an error. */
  function ParsePool(address: nat, prefix: nat): Option<DevicePool>
    requires address < Pow2(32)
  {
    if !(MIN_POOL_PREFIX <= prefix <= MAX_POOL_PREFIX) then None
    else
      MaskValue(32, prefix);
      if And(address, Not(Mask(32, prefix), 32)) != 0 then None
      else if And(address, Mask(32, CGNAT_PREFIX)) != CGNAT_BASE then None
      else Some(DevicePool(address, prefix))
  }

  predicate IsPool(p: DevicePool) {
    p.network < Pow2(32) && ParsePool(p.network, p.prefix) == Some(p)
  }

  function Broadcast(p: DevicePool): nat
    requires IsPool(p)
  {
    MaskValue(32, p.prefix);
    Or(p.network, Not(Mask(32, p.prefix), 32))
  }

  function Usable(p: DevicePool): int
    requires IsPool(p)
  {
    Broadcast(p) - p.network - 1
  }

  /** Every address between the network address and the last one. */
  function HostsOf(p: DevicePool): seq<nat>
    requires IsPool(p)
  {
    var first, last := p.network + 1, Broadcast(p);
    if first <= last then seq(last - first, i requires 0 <= i => first + i) else []
  }

  predicate ContainsIp(p: DevicePool, ip: nat)
    requires IsPool(p)
  {
    p.network < ip < Broadcast(p)
  }

  /** Distance from the start of the shared range, which becomes the host part of the paired
      IPv6 address; `None` outside the range and at its start. */
  function CgnatOffset(ip: nat): Option<nat>
    requires ip < Pow2(32)
  {
    AndMask(ip, 32, CGNAT_PREFIX);
    FloorBounds(ip, 22);
    if And(ip, Mask(32, CGNAT_PREFIX)) == CGNAT_BASE && ip != CGNAT_BASE
    then Some(ip - CGNAT_BASE) else None
  }

  function PoolBlock(p: DevicePool): Block {
    Block(V4, p.network, p.prefix)
  }

  /** `canonical_pool_address` on a parsed address: the reservation check against the pool. */
  predicate AcceptsAddress(p: DevicePool, a: Address)
    requires IsPool(p)
  {
    PoolIsNetwork(p);
    ReservationVerdict([Pool("devices", Some(PoolBlock(p)), [])], a) == Ok && a.family.V4?
  }

  lemma {:induction false} PoolIsNetwork(p: DevicePool)
    requires IsPool(p)
    ensures IsNetwork(PoolBlock(p))
    ensures Broadcast(p) == p.network + Pow2(32 - p.prefix) - 1
  {
    AndNotMask(p.network, 32, p.prefix);
    OrNotMask(p.network, 32, p.prefix);
    NetworkIsAligned(p.network, p.prefix);
  }

  lemma {:induction false} NetworkIsAligned(address: nat, prefix: nat)
    requires address < Pow2(32) && prefix <= 32
    ensures IsNetwork(Block(V4, address, prefix)) <==> Aligned(address, 32 - prefix)
  {
  }

  /** A pool is a network block of /20 to /24 inside the supernet, and every such block is a pool. */
  lemma {:induction false} PoolMeaning(address: nat, prefix: nat)
    requires address < Pow2(32)
    ensures ParsePool(address, prefix).Some? <==>
            MIN_POOL_PREFIX <= prefix <= MAX_POOL_PREFIX && IsNetwork(Block(V4, address, prefix))
            && Floor(address, 22) == CGNAT_BASE
  {
    if MIN_POOL_PREFIX <= prefix <= MAX_POOL_PREFIX {
      AndNotMask(address, 32, prefix);
      AndMask(address, 32, CGNAT_PREFIX);
      NetworkIsAligned(address, prefix);
    }
  }

  /** The pool of an organisation that chose none parses. */
  lemma {:induction false} DefaultPoolIsPool()
    ensures CGNAT_BASE < Pow2(32) && IsPool(DevicePool(CGNAT_BASE, DEFAULT_POOL_PREFIX))
  {
    Pow2Add(10, 22);
    assert Pow2(10) == 1024 && Pow2(22) == 0x40_0000 by { Pow2Add(11, 11); }
    AlignedByModulo(CGNAT_BASE, 22);
    AlignedCoarser(CGNAT_BASE, 8, 22);
    PoolMeaning(CGNAT_BASE, DEFAULT_POOL_PREFIX);
    NetworkIsAligned(CGNAT_BASE, DEFAULT_POOL_PREFIX);
  }

  /** The hosts of a pool are its addresses without the two ends; `usable` counts them. */
  lemma HostsMeaning(p: DevicePool)
    requires IsPool(p)
    ensures |HostsOf(p)| == Usable(p) == Pow2(32 - p.prefix) - 2
    ensures forall i :: 0 <= i < |HostsOf(p)| ==> HostsOf(p)[i] == p.network + 1 + i
    ensures forall ip: nat :: ip in HostsOf(p) <==> ContainsIp(p, ip)
    ensures forall ip: nat :: ip in HostsOf(p) <==>
              Has(PoolBlock(p), Address(V4, ip)) && ip != p.network && ip != Broadcast(p)
  {
    PoolIsNetwork(p);
    Pow2Monotone(1, 32 - p.prefix);
    var hosts := HostsOf(p);
    forall ip: nat ensures ip in hosts <==> ContainsIp(p, ip) {
      if ContainsIp(p, ip) { assert hosts[ip - p.network - 1] == ip; }
    }
  }

  /** The reservation check accepts exactly the addresses allocation enumerates. */
  lemma {:induction false} AcceptsExactlyHosts(p: DevicePool, a: Address)
    requires IsPool(p) && IsAddress(a)
    ensures AcceptsAddress(p, a) <==> a.family.V4? && a.bits in HostsOf(p)
  {
    PoolIsNetwork(p);
    OnePoolMeaning("devices", PoolBlock(p), a);
    if a.family.V4? { InteriorIsHost(p, a.bits); }
  }

  /** Against one pool of /30 or shorter without exclusions, an IPv4 address is accepted
      exactly when it is in the block and is neither end. */
  lemma {:induction false} OnePoolMeaning(name: string, b: Block, a: Address)
    requires IsNetwork(b) && b.family == V4 && b.len <= 30 && IsAddress(a)
    ensures ReservationVerdict([Pool(name, Some(b), [])], a) == Ok <==>
            a.family.V4? && b.net < a.bits < b.net + Pow2(Free(b)) - 1
  {
    ContainsIsMembership(b, a);
    UsableRangeIsInterior(b);
    var pool := Pool(name, Some(b), []);
    if Has(b, a) { HeadMeaning(pool, a); }
    assert [pool][1..] == [];
  }

  lemma {:induction false} InteriorIsHost(p: DevicePool, ip: nat)
    requires IsPool(p)
    ensures ip in HostsOf(p) <==> p.network < ip < p.network + Pow2(32 - p.prefix) - 1
  {
    PoolIsNetwork(p);
    HostsMeaning(p);
  }

  /** Every host has an offset, between 1 and 2^22, and different hosts of any pools have
      different offsets. */
  lemma OffsetsAreDistinct(p: DevicePool, q: DevicePool, x: nat, y: nat)
    requires IsPool(p) && IsPool(q) && x in HostsOf(p) && y in HostsOf(q)
    ensures x < Pow2(32) && y < Pow2(32)
    ensures CgnatOffset(x).Some? && 1 <= CgnatOffset(x).value < Pow2(22)
    ensures CgnatOffset(x) == CgnatOffset(y) ==> x == y
  {
    HostInSupernet(p, x);
    HostInSupernet(q, y);
  }

  lemma HostInSupernet(p: DevicePool, ip: nat)
    requires IsPool(p) && ip in HostsOf(p)
    ensures ip < Pow2(32)
    ensures CgnatOffset(ip) == Some(ip - CGNAT_BASE) && 1 <= ip - CGNAT_BASE < Pow2(22)
  {
    PoolIsNetwork(p);
    HostsMeaning(p);
    PoolMeaning(p.network, p.prefix);
    var s := 32 - p.prefix;
    FloorBelow(p.network, s, 32);
    FloorOfInterval(p.network, ip, s);
    FloorCoarser(p.network, ip, s, 22);
    AndMask(ip, 32, CGNAT_PREFIX);
    FloorBounds(ip, 22);
    FloorBounds(p.network, 22);
  }
}
