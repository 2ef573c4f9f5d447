/** The default route minus a list of prefixes, by recursive splitting: the result covers
    exactly the addresses outside every excluded prefix, and no set of CIDRs covering the
    same addresses is smaller. */
module Complement {
  import opened Bits
  import opened Cidr
  import opened CidrText

  /** The second block lies inside the first: its prefix extends the first one's. */
  predicate Covers(a: Block, b: Block)
    requires IsBlock(a) && IsBlock(b) && a.family == b.family
  {
    b.len >= a.len && (a.len == 0 || Shr(Xor(a.net, b.net), Width(a.family) - a.len) == 0)
  }

  predicate AllIn(blocks: set<Block>, f: Family) {
    forall b :: b in blocks ==> IsBlock(b) && b.family == f
  }

  predicate CoveredBySome(b: Block, blocks: set<Block>)
    requires IsBlock(b) && AllIn(blocks, b.family)
  {
    exists e :: e in blocks && Covers(e, b)
  }

  predicate CoversSome(b: Block, blocks: set<Block>)
    requires IsBlock(b) && AllIn(blocks, b.family)
  {
    exists e :: e in blocks && Covers(b, e)
  }

  function LeftHalf(b: Block): Block
    requires IsNetwork(b) && b.len < Width(b.family)
  {
    Block(b.family, b.net, b.len + 1)
  }

  function RightHalf(b: Block): Block
    requires IsNetwork(b) && b.len < Width(b.family)
  {
    Block(b.family, Or(b.net, Pow2(Width(b.family) - b.len - 1)), b.len + 1)
  }

  lemma CoversIsSubset(a: Block, b: Block)
    requires IsBlock(a) && IsBlock(b) && a.family == b.family
    ensures Covers(a, b) <==> Subset(b, a)
  {
    WithinIsSubset(b, a);
    OverlapIsMeet(b, a);
    XorShr(a.net, b.net, Free(a));
    FloorBelow(a.net, Free(a), Width(a.family));
    FloorBelow(b.net, Free(a), Width(a.family));
    MembersAreAddresses(b);
    if Covers(a, b) {
      HasByFloor(a, Address(b.family, b.net));
      assert Meet(b, a);
    }
    if Subset(b, a) {
      assert Meet(b, a);
      NestedOrDisjoint(b, a);
    }
  }

  /** The halves of a block partition it. */
  lemma {:induction false} HalvesPartition(b: Block)
    requires IsNetwork(b) && b.len < Width(b.family)
    ensures IsNetwork(LeftHalf(b)) && IsNetwork(RightHalf(b))
    ensures RightHalf(b).net == b.net + Pow2(Free(b) - 1)
    ensures forall a: Address :: Has(b, a) <==> Has(LeftHalf(b), a) || Has(RightHalf(b), a)
    ensures !Meet(LeftHalf(b), RightHalf(b))
  {
    HalvesAreNetworks(b);
    forall a: Address
      ensures Has(b, a) <==> Has(LeftHalf(b), a) || Has(RightHalf(b), a)
      ensures !(Has(LeftHalf(b), a) && Has(RightHalf(b), a))
    {
      HalfMembers(b, a);
    }
  }

  lemma {:induction false} HalvesAreNetworks(b: Block)
    requires IsNetwork(b) && b.len < Width(b.family)
    ensures IsNetwork(LeftHalf(b)) && IsNetwork(RightHalf(b))
    ensures RightHalf(b).net == b.net + Pow2(Free(b) - 1)
  {
    var s := Free(b) - 1;
    AlignedCoarser(b.net, s, s + 1);
    Pow2Below(s);
    OrLow(b.net, Pow2(s), s + 1);
    FloorBelow(b.net, s + 1, Width(b.family));
    FloorAddHalf(b.net, s);
  }

  lemma {:induction false} HalfMembers(b: Block, a: Address)
    requires IsNetwork(b) && b.len < Width(b.family) && IsNetwork(LeftHalf(b)) && IsNetwork(RightHalf(b))
    requires RightHalf(b).net == b.net + Pow2(Free(b) - 1)
    ensures Has(b, a) <==> Has(LeftHalf(b), a) || Has(RightHalf(b), a)
    ensures !(Has(LeftHalf(b), a) && Has(RightHalf(b), a))
  {
    assert Pow2(Free(b)) == 2 * Pow2(Free(b) - 1);
  }

  lemma Pow2Below(s: nat)
    ensures Pow2(s) < Pow2(s + 1)
  {
  }

  lemma {:induction false} FloorAddHalf(x: nat, s: nat)
    requires Aligned(x, s + 1)
    ensures Aligned(x + Pow2(s), s)
    decreases s
  {
    if s > 0 {
      assert x == 2 * Floor(x / 2, s);
      FloorAddHalf(x / 2, s - 1);
    }
  }

  /** A single address is either covered or meets no excluded prefix, so the recursion
      never reaches the shift with no bits left. */
  lemma LeafIsDecided(b: Block, excluded: set<Block>)
    requires IsNetwork(b) && AllIn(excluded, b.family)
    requires !CoveredBySome(b, excluded) && CoversSome(b, excluded)
    ensures b.len < Width(b.family)
  {
    var e :| e in excluded && Covers(b, e);
    if b.len == Width(b.family) {
      CoversIsSubset(b, e);
      MembersAreAddresses(e);
      assert Meet(b, e);
      NestedOrDisjoint(b, e);
      CoversIsSubset(e, b);
    }
  }

  /** The blocks `split` pushes for `b`, in order. */
  function Parts(b: Block, excluded: set<Block>): seq<Block>
    requires IsNetwork(b) && AllIn(excluded, b.family)
    decreases Width(b.family) - b.len
  {
    if CoveredBySome(b, excluded) then []
    else if !CoversSome(b, excluded) then [b]
    else
      LeafIsDecided(b, excluded);
      HalvesPartition(b);
      Parts(LeftHalf(b), excluded) + Parts(RightHalf(b), excluded)
  }

  lemma {:induction false} PartsOfHalves(b: Block, excluded: set<Block>)
    requires IsNetwork(b) && AllIn(excluded, b.family)
    requires !CoveredBySome(b, excluded) && CoversSome(b, excluded)
    ensures b.len < Width(b.family) && IsNetwork(LeftHalf(b)) && IsNetwork(RightHalf(b))
    ensures Parts(b, excluded) == Parts(LeftHalf(b), excluded) + Parts(RightHalf(b), excluded)
  {
    LeafIsDecided(b, excluded);
    HalvesPartition(b);
  }

  /** `split`: appends the parts of `b` to `out`. */
  method Split(out: seq<Block>, b: Block, excluded: set<Block>) returns (r: seq<Block>)
    requires IsNetwork(b) && AllIn(excluded, b.family)
    ensures r == out + Parts(b, excluded)
    decreases Width(b.family) - b.len
  {
    if CoveredBySome(b, excluded) {
      return out;
    }
    if !CoversSome(b, excluded) {
      return out + [b];
    }
    PartsOfHalves(b, excluded);
    r := Split(out, LeftHalf(b), excluded);
    r := Split(r, RightHalf(b), excluded);
  }

  /** The parsed prefixes of one family. */
  function OfFamily(blocks: set<Block>, f: Family): set<Block> {
    set b | b in blocks && b.family == f
  }

  function ComplementBlocks(f: Family, excluded: set<Block>): seq<Block>
    requires forall b :: b in excluded ==> IsBlock(b)
  {
    Parts(DefaultRoute(f), OfFamily(excluded, f))
  }

  method ComplementOf(f: Family, excluded: set<Block>) returns (out: seq<Block>)
    requires forall b :: b in excluded ==> IsBlock(b)
    ensures out == ComplementBlocks(f, excluded)
  {
    out := Split([], DefaultRoute(f), OfFamily(excluded, f));
  }

  // ----- what the parts cover -----

  ghost predicate InSome(a: Address, blocks: seq<Block>) {
    exists b :: b in blocks && Has(b, a)
  }

  ghost predicate Excluded(a: Address, excluded: set<Block>) {
    exists e :: e in excluded && Has(e, a)
  }

  ghost predicate Avoids(b: Block, blocks: set<Block>) {
    forall e :: e in blocks ==> !Meet(b, e)
  }

  /** Each part is a network block inside `b`. */
  lemma {:induction false} PartsAreInside(b: Block, excluded: set<Block>)
    requires IsNetwork(b) && AllIn(excluded, b.family)
    ensures forall p :: p in Parts(b, excluded) ==> IsNetwork(p) && p.family == b.family && Subset(p, b)
    decreases Width(b.family) - b.len
  {
    if !CoveredBySome(b, excluded) && CoversSome(b, excluded) {
      LeafIsDecided(b, excluded);
      HalvesPartition(b);
      PartsAreInside(LeftHalf(b), excluded);
      PartsAreInside(RightHalf(b), excluded);
    }
  }

  /** A block that neither covers nor is covered by an excluded prefix meets none. */
  lemma UndecidedAvoids(b: Block, excluded: set<Block>)
    requires IsNetwork(b) && AllIn(excluded, b.family)
    requires !CoveredBySome(b, excluded) && !CoversSome(b, excluded)
    ensures Avoids(b, excluded)
  {
    forall e | e in excluded ensures !Meet(b, e) {
      CoversIsSubset(b, e);
      CoversIsSubset(e, b);
      if Meet(b, e) {
        if b.len >= e.len { NestedOrDisjoint(b, e); } else { NestedOrDisjoint(e, b); }
      }
    }
  }

  /** An address of `b` is in a part exactly when it is in no excluded prefix. */
  lemma {:induction false} PartsCover(b: Block, excluded: set<Block>, a: Address)
    requires IsNetwork(b) && AllIn(excluded, b.family)
    ensures InSome(a, Parts(b, excluded)) <==> Has(b, a) && !Excluded(a, excluded)
    decreases Width(b.family) - b.len
  {
    PartsAreInside(b, excluded);
    if CoveredBySome(b, excluded) {
      var e :| e in excluded && Covers(e, b);
      CoversIsSubset(e, b);
    } else if !CoversSome(b, excluded) {
      UndecidedAvoids(b, excluded);
      assert forall e :: e in excluded && Has(e, a) && Has(b, a) ==> Meet(b, e);
      assert b in Parts(b, excluded);
    } else {
      LeafIsDecided(b, excluded);
      HalvesPartition(b);
      var l, r := LeftHalf(b), RightHalf(b);
      PartsCover(l, excluded, a);
      PartsCover(r, excluded, a);
      assert forall p :: p in Parts(b, excluded) <==> p in Parts(l, excluded) || p in Parts(r, excluded);
    }
  }

  /** The parts come in ascending order and no two share an address. */
  ghost predicate PairwiseDisjoint(blocks: seq<Block>) {
    forall i, j :: 0 <= i < j < |blocks| ==> !Meet(blocks[i], blocks[j])
  }

  ghost predicate Ascending(blocks: seq<Block>) {
    forall i, j :: 0 <= i < j < |blocks| ==> blocks[i].net < blocks[j].net
  }

  lemma {:induction false} PartsDisjoint(b: Block, excluded: set<Block>)
    requires IsNetwork(b) && AllIn(excluded, b.family)
    ensures PairwiseDisjoint(Parts(b, excluded))
    ensures Ascending(Parts(b, excluded))
    decreases Width(b.family) - b.len
  {
    PartsAreInside(b, excluded);
    if !CoveredBySome(b, excluded) && CoversSome(b, excluded) {
      LeafIsDecided(b, excluded);
      HalvesPartition(b);
      var l, r := LeftHalf(b), RightHalf(b);
      PartsDisjoint(l, excluded);
      PartsDisjoint(r, excluded);
      PartsAreInside(l, excluded);
      PartsAreInside(r, excluded);
      forall x, y | x in Parts(l, excluded) && y in Parts(r, excluded)
        ensures !Meet(x, y) && x.net < y.net
      {
        MembersAreAddresses(x);
        MembersAreAddresses(y);
        assert Has(l, Address(x.family, x.net));
        assert Has(r, Address(y.family, y.net));
      }
    }
  }

  /** Every block inside `b` that avoids the excluded prefixes lies inside one part. */
  lemma {:induction false} PartsAreMaximal(b: Block, excluded: set<Block>, c: Block) returns (p: Block)
    requires IsNetwork(b) && AllIn(excluded, b.family)
    requires IsBlock(c) && Subset(c, b) && Avoids(c, excluded)
    ensures p in Parts(b, excluded) && IsNetwork(p) && Subset(c, p)
    decreases Width(b.family) - b.len
  {
    MembersAreAddresses(c);
    SubsetIsLonger(c, b);
    if CoveredBySome(b, excluded) {
      var e :| e in excluded && Covers(e, b);
      CoversIsSubset(e, b);
      assert Meet(c, e);
      assert false;
    } else if !CoversSome(b, excluded) {
      p := b;
    } else {
      LeafIsDecided(b, excluded);
      HalvesPartition(b);
      var l, r := LeftHalf(b), RightHalf(b);
      var e :| e in excluded && Covers(b, e);
      CoversIsSubset(b, e);
      if c.len == b.len {
        MembersAreAddresses(e);
        assert Meet(b, c);
        NestedOrDisjoint(b, c);
        assert false;
      } else if Has(l, Address(c.family, c.net)) {
        assert Meet(c, l);
        NestedOrDisjoint(c, l);
        p := PartsAreMaximal(l, excluded, c);
      } else {
        assert Has(r, Address(c.family, c.net));
        assert Meet(c, r);
        NestedOrDisjoint(c, r);
        p := PartsAreMaximal(r, excluded, c);
      }
    }
  }

  // ----- the whole complement -----

  lemma DefaultRouteHasAll(f: Family, a: Address)
    ensures Has(DefaultRoute(f), a) <==> a.family == f && IsAddress(a)
  {
    FloorBelow(0, Width(f), Width(f));
  }

  lemma OwnFamilyDecides(f: Family, excluded: set<Block>, a: Address)
    requires forall b :: b in excluded ==> IsBlock(b)
    requires a.family == f
    ensures Excluded(a, OfFamily(excluded, f)) <==> Excluded(a, excluded)
  {
  }

  lemma {:induction false} ComplementCovers(f: Family, excluded: set<Block>, a: Address)
    requires forall b :: b in excluded ==> IsBlock(b)
    ensures forall p :: p in ComplementBlocks(f, excluded) ==> IsNetwork(p) && p.family == f
    ensures InSome(a, ComplementBlocks(f, excluded)) <==>
            a.family == f && IsAddress(a) && !Excluded(a, excluded)
  {
    var own := OfFamily(excluded, f);
    var top := DefaultRoute(f);
    PartsAreInside(top, own);
    PartsCover(top, own, a);
    DefaultRouteHasAll(f, a);
    if a.family == f { OwnFamilyDecides(f, excluded, a); }
  }

  /** An address is in the complement exactly when no excluded prefix has it; the blocks are
      aligned, ascending and pairwise disjoint. */
  lemma {:induction false} ComplementIsExact(f: Family, excluded: set<Block>)
    requires forall b :: b in excluded ==> IsBlock(b)
    ensures forall p :: p in ComplementBlocks(f, excluded) ==> IsNetwork(p) && p.family == f
    ensures forall a: Address :: InSome(a, ComplementBlocks(f, excluded)) <==>
                                 a.family == f && IsAddress(a) && !Excluded(a, excluded)
    ensures PairwiseDisjoint(ComplementBlocks(f, excluded)) && Ascending(ComplementBlocks(f, excluded))
  {
    PartsAreInside(DefaultRoute(f), OfFamily(excluded, f));
    PartsDisjoint(DefaultRoute(f), OfFamily(excluded, f));
    forall a: Address
      ensures InSome(a, ComplementBlocks(f, excluded)) <==>
              a.family == f && IsAddress(a) && !Excluded(a, excluded)
    {
      ComplementCovers(f, excluded, a);
    }
  }

  /** A block none of whose addresses is excluded avoids every excluded prefix. */
  lemma AvoidsByAddress(c: Block, excluded: set<Block>)
    requires IsBlock(c) && forall b :: b in excluded ==> IsBlock(b)
    ensures Avoids(c, excluded) <==> forall a: Address :: Has(c, a) ==> !Excluded(a, excluded)
  {
  }

  /** A block of the family lies inside one complement block exactly when it meets no
      excluded prefix. */
  lemma ComplementIsMaximal(f: Family, excluded: set<Block>, c: Block)
    requires forall b :: b in excluded ==> IsBlock(b)
    requires IsBlock(c) && c.family == f
    ensures (exists p :: p in ComplementBlocks(f, excluded) && Subset(c, p)) <==> Avoids(c, excluded)
  {
    if Avoids(c, excluded) {
      AvoidingIsInside(f, excluded, c);
    } else if p :| p in ComplementBlocks(f, excluded) && Subset(c, p) {
      InsideAvoids(f, excluded, c, p);
    }
  }

  lemma {:induction false} AvoidingIsInside(f: Family, excluded: set<Block>, c: Block)
    requires forall b :: b in excluded ==> IsBlock(b)
    requires IsBlock(c) && c.family == f && Avoids(c, excluded)
    ensures exists p :: p in ComplementBlocks(f, excluded) && Subset(c, p)
  {
    MembersAreAddresses(c);
    forall a: Address | Has(c, a) ensures Has(DefaultRoute(f), a) { DefaultRouteHasAll(f, a); }
    var p := PartsAreMaximal(DefaultRoute(f), OfFamily(excluded, f), c);
  }

  lemma {:induction false} InsideAvoids(f: Family, excluded: set<Block>, c: Block, p: Block)
    requires forall b :: b in excluded ==> IsBlock(b)
    requires IsBlock(c) && p in ComplementBlocks(f, excluded) && Subset(c, p)
    ensures Avoids(c, excluded)
  {
    forall a: Address | Has(c, a) ensures !Excluded(a, excluded) {
      assert Has(p, a);
      ComplementCovers(f, excluded, a);
    }
    AvoidsByAddress(c, excluded);
  }

  /** The same, in the terms of the coordinator's containment test. */
  lemma {:induction false} ComplementWithin(f: Family, excluded: set<Block>, c: Block)
    requires forall b :: b in excluded ==> IsBlock(b)
    requires IsBlock(c)
    ensures forall p :: p in ComplementBlocks(f, excluded) ==> IsNetwork(p)
    ensures (exists p :: p in ComplementBlocks(f, excluded) && IsBlock(p) && Within(c, p)) <==>
            c.family == f && Avoids(c, excluded)
  {
    ComplementCovers(f, excluded, Address(c.family, c.net));
    forall p | p in ComplementBlocks(f, excluded) ensures Within(c, p) <==> Subset(c, p) {
      WithinIsSubset(c, p);
    }
    if c.family == f { ComplementIsMaximal(f, excluded, c); }
  }

  ghost predicate SameAddresses(xs: seq<Block>, ys: seq<Block>) {
    forall a: Address :: InSome(a, xs) <==> InSome(a, ys)
  }

  /** No list of CIDRs with the same addresses is shorter. */
  lemma ComplementIsFewest(f: Family, excluded: set<Block>, other: seq<Block>)
    requires forall b :: b in excluded ==> IsBlock(b)
    requires forall b :: b in other ==> IsBlock(b)
    requires SameAddresses(ComplementBlocks(f, excluded), other)
    ensures |ComplementBlocks(f, excluded)| <= |other|
  {
    ComplementIsExact(f, excluded);
    var out := ComplementBlocks(f, excluded);
    forall c | c in other ensures exists p :: p in out && Subset(c, p) {
      MembersAreAddresses(c);
      assert forall a: Address :: Has(c, a) ==> InSome(a, other);
      assert InSome(Address(c.family, c.net), out);
      AvoidsByAddress(c, excluded);
      ComplementIsMaximal(f, excluded, c);
    }
    DisjointNeedsAsMany(out, other);
  }

  ghost predicate CoveredBy(parts: seq<Block>, other: seq<Block>) {
    forall p, a: Address :: p in parts && Has(p, a) ==> InSome(a, other)
  }

  ghost predicate EachFits(other: seq<Block>, parts: seq<Block>) {
    forall c :: c in other ==> exists p :: p in parts && Subset(c, p)
  }

  /** Pairwise disjoint blocks cannot be covered by fewer blocks that each fit inside one. */
  lemma {:induction false} DisjointNeedsAsMany(parts: seq<Block>, other: seq<Block>)
    requires (forall b :: b in parts ==> IsBlock(b)) && (forall b :: b in other ==> IsBlock(b))
    requires PairwiseDisjoint(parts) && CoveredBy(parts, other) && EachFits(other, parts)
    ensures |parts| <= |other|
  {
    if parts != [] {
      var rest, last := parts[..|parts| - 1], parts[|parts| - 1];
      assert parts == rest + [last];
      PeelLast(rest, last, other);
      DisjointNeedsAsMany(rest, InsideOthers(other, last));
    }
  }

  lemma PeelLast(rest: seq<Block>, last: Block, other: seq<Block>)
    requires (forall b :: b in rest ==> IsBlock(b)) && IsBlock(last)
    requires forall b :: b in other ==> IsBlock(b)
    requires PairwiseDisjoint(rest + [last])
    requires CoveredBy(rest + [last], other) && EachFits(other, rest + [last])
    ensures PairwiseDisjoint(rest)
    ensures CoveredBy(rest, InsideOthers(other, last)) && EachFits(InsideOthers(other, last), rest)
    ensures |InsideOthers(other, last)| < |other|
  {
    forall i, j | 0 <= i < j < |rest| ensures !Meet(rest[i], rest[j]) {
      assert rest[i] == (rest + [last])[i] && rest[j] == (rest + [last])[j];
    }
    var c := CovererOfLast(rest, last, other);
    InsideOthersShorter(other, last, c);
    RestCovered(rest, last, other);
    RestFits(rest, last, other);
  }

  lemma ApartFromLast(rest: seq<Block>, last: Block, p: Block)
    requires (forall b :: b in rest ==> IsBlock(b)) && IsBlock(last)
    requires PairwiseDisjoint(rest + [last]) && p in rest
    ensures !Meet(p, last)
  {
    var i :| 0 <= i < |rest| && rest[i] == p;
    assert (rest + [last])[i] == p && (rest + [last])[|rest|] == last;
  }

  lemma CovererOfLast(rest: seq<Block>, last: Block, other: seq<Block>) returns (c: Block)
    requires (forall b :: b in rest ==> IsBlock(b)) && IsBlock(last)
    requires forall b :: b in other ==> IsBlock(b)
    requires PairwiseDisjoint(rest + [last])
    requires CoveredBy(rest + [last], other) && EachFits(other, rest + [last])
    ensures c in other && Subset(c, last)
  {
    MembersAreAddresses(last);
    var a := Address(last.family, last.net);
    assert last in rest + [last];
    assert InSome(a, other);
    c :| c in other && Has(c, a);
    var q :| q in rest + [last] && Subset(c, q);
    if q in rest { ApartFromLast(rest, last, q); }
  }

  lemma {:induction false} RestCovered(rest: seq<Block>, last: Block, other: seq<Block>)
    requires (forall b :: b in rest ==> IsBlock(b)) && IsBlock(last)
    requires PairwiseDisjoint(rest + [last]) && CoveredBy(rest + [last], other)
    ensures CoveredBy(rest, InsideOthers(other, last))
  {
    forall p, x: Address | p in rest && Has(p, x) ensures InSome(x, InsideOthers(other, last)) {
      assert p in rest + [last];
      assert InSome(x, other);
      var d :| d in other && Has(d, x);
      ApartFromLast(rest, last, p);
      assert !Has(last, x);
      assert d in InsideOthers(other, last);
    }
  }

  lemma {:induction false} RestFits(rest: seq<Block>, last: Block, other: seq<Block>)
    requires EachFits(other, rest + [last])
    ensures EachFits(InsideOthers(other, last), rest)
  {
    forall d | d in InsideOthers(other, last) ensures exists p :: p in rest && Subset(d, p) {
      var p :| p in rest + [last] && Subset(d, p);
      assert p in rest;
    }
  }

  ghost function InsideOthers(blocks: seq<Block>, b: Block): (r: seq<Block>)
    ensures |r| <= |blocks|
    ensures forall c :: c in r <==> c in blocks && !Subset(c, b)
  {
    if blocks == [] then []
    else (if Subset(blocks[0], b) then [] else [blocks[0]]) + InsideOthers(blocks[1..], b)
  }

  lemma {:induction false} InsideOthersShorter(blocks: seq<Block>, b: Block, c: Block)
    requires c in blocks && Subset(c, b)
    ensures |InsideOthers(blocks, b)| < |blocks|
  {
    if blocks[0] != c { InsideOthersShorter(blocks[1..], b, c); }
  }
}
