/** CIDR blocks: mask-based containment as the coordinator computes it, and its
    meaning as intervals of addresses. */
module Cidr {
  import opened Bits
  import opened Options

  datatype Family = V4 | V6

  function Width(f: Family): nat {
    if f.V4? then 32 else 128
  }

  datatype Address = Address(family: Family, bits: nat)

  predicate IsAddress(a: Address) {
    a.bits < Pow2(Width(a.family))
  }

  /** `address/prefix`. The address part need not be the network address. */
  datatype Block = Block(family: Family, net: nat, len: nat)

  predicate IsBlock(b: Block) {
    b.len <= Width(b.family) && b.net < Pow2(Width(b.family))
  }

  /** How many low bits of an address the block leaves free. */
  function Free(b: Block): nat
    requires IsBlock(b)
  {
    Width(b.family) - b.len
  }

  predicate IsNetwork(b: Block) {
    IsBlock(b) && Aligned(b.net, Free(b))
  }

  /** The addresses of a block, as an interval. */
  ghost predicate Has(b: Block, a: Address) {
    IsBlock(b) && a.family == b.family && Floor(b.net, Free(b)) <= a.bits < Floor(b.net, Free(b)) + Pow2(Free(b))
  }

  ghost predicate Subset(inner: Block, outer: Block) {
    forall a: Address :: Has(inner, a) ==> Has(outer, a)
  }

  ghost predicate Meet(x: Block, y: Block) {
    exists a: Address :: Has(x, a) && Has(y, a)
  }

  /** The address part of a parsed CIDR: everything below the prefix is cleared. */
  function MaskAddress(a: Address, prefix: nat): Address
    requires IsAddress(a) && prefix <= Width(a.family)
  {
    Address(a.family, And(a.bits, Mask(Width(a.family), prefix)))
  }

  /** Parsing `a/prefix`: a prefix too long for the family is rejected. */
  function ParseCidr(a: Address, prefix: nat): Option<Block>
    requires IsAddress(a)
  {
    if prefix > Width(a.family) then None
    else Some(Block(a.family, MaskAddress(a, prefix).bits, prefix))
  }

  /** Address and network agree under the mask; never across families. */
  predicate CidrContains(network: Block, ip: Address)
    requires IsBlock(network)
  {
    var mask := Mask(Width(network.family), network.len);
    network.family == ip.family && And(network.net, mask) == And(ip.bits, mask)
  }

  predicate PoolsOverlap(a: Block, b: Block)
    requires IsBlock(a) && IsBlock(b)
  {
    a.family == b.family
    && (CidrContains(a, Address(b.family, b.net)) || CidrContains(b, Address(a.family, a.net)))
  }

  predicate Within(inner: Block, outer: Block)
    requires IsBlock(inner) && IsBlock(outer)
  {
    inner.family == outer.family && inner.len >= outer.len && PoolsOverlap(inner, outer)
  }

  lemma HasByFloor(b: Block, a: Address)
    requires IsBlock(b)
    ensures Has(b, a) <==> a.family == b.family && Floor(a.bits, Free(b)) == Floor(b.net, Free(b))
  {
    FloorOfInterval(b.net, a.bits, Free(b));
  }

  /** Mask comparison is interval membership. */
  lemma ContainsIsMembership(b: Block, a: Address)
    requires IsBlock(b) && IsAddress(a)
    ensures CidrContains(b, a) <==> Has(b, a)
  {
    if a.family == b.family {
      AndMask(b.net, Width(b.family), b.len);
      AndMask(a.bits, Width(b.family), b.len);
      HasByFloor(b, a);
    }
  }

  /** Every member of a block is an address of its family, and the block is not empty. */
  lemma MembersAreAddresses(b: Block)
    requires IsBlock(b)
    ensures Has(b, Address(b.family, b.net))
    ensures forall a: Address :: Has(b, a) ==> IsAddress(a)
  {
    FloorBounds(b.net, Free(b));
    FloorBelow(b.net, Free(b), Width(b.family));
  }

  /** Parsing yields a network block with the same addresses as the text named. */
  lemma ParseKeepsMembers(a: Address, prefix: nat)
    requires IsAddress(a)
    ensures ParseCidr(a, prefix).Some? <==> prefix <= Width(a.family)
    ensures prefix <= Width(a.family) ==>
              var b := ParseCidr(a, prefix).value;
              IsNetwork(b) && b.len == prefix && Has(b, a)
              && forall x: Address :: Has(b, x) <==> Has(Block(a.family, a.bits, prefix), x)
  {
    if prefix <= Width(a.family) {
      var named := Block(a.family, a.bits, prefix);
      ParsedNetwork(a, prefix);
      var b := ParseCidr(a, prefix).value;
      forall x: Address ensures Has(b, x) <==> Has(named, x) { SameFloorSameMembers(b, named, x); }
      MembersAreAddresses(named);
    }
  }

  lemma {:induction false} ParsedNetwork(a: Address, prefix: nat)
    requires IsAddress(a) && prefix <= Width(a.family)
    ensures var b := ParseCidr(a, prefix).value;
            IsNetwork(b) && b.family == a.family && b.len == prefix
            && Floor(b.net, Free(b)) == Floor(a.bits, Width(a.family) - prefix)
  {
    var w := Width(a.family);
    AndMask(a.bits, w, prefix);
    FloorBounds(a.bits, w - prefix);
    FloorOfFloor(a.bits, w - prefix, w - prefix);
  }

  lemma {:induction false} SameFloorSameMembers(b: Block, c: Block, x: Address)
    requires IsBlock(b) && IsBlock(c) && b.family == c.family && b.len == c.len
    requires Floor(b.net, Free(b)) == Floor(c.net, Free(c))
    ensures Has(b, x) <==> Has(c, x)
  {
    HasByFloor(b, x);
    HasByFloor(c, x);
  }

  /** Two blocks are nested or disjoint; which one is inside is decided by the lengths. */
  lemma NestedOrDisjoint(x: Block, y: Block)
    requires IsBlock(x) && IsBlock(y)
    requires Meet(x, y) && x.len >= y.len
    ensures x.family == y.family
    ensures Subset(x, y)
    ensures Floor(x.net, Free(y)) == Floor(y.net, Free(y))
  {
    var a :| Has(x, a) && Has(y, a);
    HasByFloor(x, a);
    HasByFloor(y, a);
    FloorCoarser(a.bits, x.net, Free(x), Free(y));
    forall c: Address | Has(x, c) ensures Has(y, c) {
      HasByFloor(x, c);
      FloorCoarser(c.bits, x.net, Free(x), Free(y));
      HasByFloor(y, c);
    }
  }

  lemma {:induction false} EndsAreMembers(b: Block)
    requires IsBlock(b)
    ensures Has(b, Address(b.family, Floor(b.net, Free(b))))
    ensures Has(b, Address(b.family, Floor(b.net, Free(b)) + (Pow2(Free(b)) - 1)))
  {
  }

  lemma {:induction false} Pow2Order(m: nat, n: nat)
    requires Pow2(m) <= Pow2(n)
    ensures m <= n
  {
    if n < m { Pow2Monotone(n + 1, m); }
  }

  lemma {:induction false} SpanBetween(b: Block, first: nat, size: nat)
    requires size > 0 && Has(b, Address(b.family, first)) && Has(b, Address(b.family, first + (size - 1)))
    ensures size <= Pow2(Free(b))
  {
  }

  /** A block that is inside another is at least as long. */
  lemma {:induction false} SubsetIsLonger(inner: Block, outer: Block)
    requires IsBlock(inner) && IsBlock(outer) && Subset(inner, outer)
    ensures inner.family == outer.family && inner.len >= outer.len
  {
    EndsAreMembers(inner);
    var first, size := Floor(inner.net, Free(inner)), Pow2(Free(inner));
    assert Has(outer, Address(inner.family, first));
    SpanBetween(outer, first, size);
    Pow2Order(Free(inner), Free(outer));
  }

  /** `pools_overlap` is true exactly when the two blocks share an address. */
  lemma OverlapIsMeet(x: Block, y: Block)
    requires IsBlock(x) && IsBlock(y)
    ensures PoolsOverlap(x, y) <==> Meet(x, y)
  {
    var ax, ay := Address(x.family, x.net), Address(y.family, y.net);
    MembersAreAddresses(x);
    MembersAreAddresses(y);
    ContainsIsMembership(x, ay);
    ContainsIsMembership(y, ax);
    if Meet(x, y) {
      if x.len >= y.len { NestedOrDisjoint(x, y); } else { NestedOrDisjoint(y, x); }
    }
  }

  /** `cidr_within` is containment of address sets. */
  lemma WithinIsSubset(inner: Block, outer: Block)
    requires IsBlock(inner) && IsBlock(outer)
    ensures Within(inner, outer) <==> Subset(inner, outer)
  {
    OverlapIsMeet(inner, outer);
    MembersAreAddresses(inner);
    if Within(inner, outer) { NestedOrDisjoint(inner, outer); }
    if Subset(inner, outer) { SubsetIsLonger(inner, outer); }
  }

  /** Blocks with the same members are the same network block. */
  lemma NetworkByMembers(x: Block, y: Block)
    requires IsNetwork(x) && IsNetwork(y)
    requires Subset(x, y) && Subset(y, x)
    ensures x == y
  {
    SubsetIsLonger(x, y);
    SubsetIsLonger(y, x);
    MembersAreAddresses(x);
    SameNetwork(x, y);
  }

  lemma {:induction false} SameNetwork(x: Block, y: Block)
    requires IsNetwork(x) && IsNetwork(y) && x.len == y.len && Has(y, Address(x.family, x.net))
    ensures x == y
  {
    HasByFloor(y, Address(x.family, x.net));
  }
}
