/** Overlay address tables: devices, leases and reservations, and what the coordinator
    computes from one snapshot of them. Addresses are the pool's IPv4 hosts as integers. */
module AddressPool {
  import opened Options

  type NodeId = nat

  const GRACE: int := 7 * 24 * 60 * 60

  /** A device row. `addresses` are the IPv4 hosts among its overlay addresses. */
  datatype Node = Node(name: string, key: string, addresses: set<nat>, revokedAt: Option<int>, deletedAt: Option<int>)

  predicate Active(n: Node) {
    n.revokedAt.None? && n.deletedAt.None?
  }

  datatype Lease = Lease(node: Option<NodeId>, allocatedAt: int, releasedAt: Option<int>)

  datatype Reservation = Reservation(boundName: Option<string>, boundKey: Option<string>, revision: nat)

  predicate Binds(r: Reservation, name: string, key: string) {
    r.boundName == Some(name) || r.boundKey == Some(key)
  }

  /** `hosts` are the addresses the organisation's pool enumerates, in order. */
  datatype Tables = Tables(
    hosts: seq<nat>, nodes: map<NodeId, Node>, leases: map<nat, Lease>, reservations: map<nat, Reservation>)

  // ----- releases -----

  /** When an inactive device left: its deletion, or its revocation if it is not deleted. */
  function LeftAt(n: Node): int
    requires !Active(n)
  {
    if n.deletedAt.Some? then n.deletedAt.value else n.revokedAt.value
  }

  function StampOne(nodes: map<NodeId, Node>, lease: Lease, at: int): Lease {
    if lease.releasedAt.Some? then lease
    else if lease.node.Some? && lease.node.value in nodes then
      if Active(nodes[lease.node.value]) then lease
      else lease.(releasedAt := Some(LeftAt(nodes[lease.node.value])))
    else lease.(releasedAt := Some(at))
  }

  /** `stamp_releases`: every unreleased lease of a revoked, deleted or purged device starts
      its grace period. */
  function Stamped(nodes: map<NodeId, Node>, leases: map<nat, Lease>, at: int): map<nat, Lease> {
    map a | a in leases :: StampOne(nodes, leases[a], at)
  }

  predicate LeaseHeld(lease: Lease, at: int) {
    lease.releasedAt.None? || lease.releasedAt.value > at - GRACE
  }

  /** The guard of the conditional lease insert. A bound reservation ignores the grace. */
  predicate MayTake(leases: map<nat, Lease>, address: nat, at: int, ignoreGrace: bool) {
    address in leases ==>
      leases[address].releasedAt.Some? && (ignoreGrace || leases[address].releasedAt.value <= at - GRACE)
  }

  // ----- blocked hosts -----

  function Listed(nodes: map<NodeId, Node>): set<nat> {
    set n, a | n in nodes && a in nodes[n].addresses :: a
  }

  /** `blocked_hosts`: device addresses, leases held or in grace, and reservations. */
  function Blocked(t: Tables, at: int): set<nat> {
    Listed(t.nodes) + (set a | a in t.leases && LeaseHeld(t.leases[a], at)) + t.reservations.Keys
  }

  /** The first element outside `avoid`. */
  function FirstOutside(hosts: seq<nat>, avoid: set<nat>): Option<nat> {
    if hosts == [] then None
    else if hosts[0] !in avoid then Some(hosts[0])
    else FirstOutside(hosts[1..], avoid)
  }

  lemma {:induction false} FirstOutsideMeaning(hosts: seq<nat>, avoid: set<nat>)
    ensures FirstOutside(hosts, avoid).None? <==> forall h :: h in hosts ==> h in avoid
    ensures FirstOutside(hosts, avoid).Some? ==>
              exists i :: 0 <= i < |hosts| && hosts[i] == FirstOutside(hosts, avoid).value && hosts[i] !in avoid
                          && forall j :: 0 <= j < i ==> hosts[j] in avoid
  {
    if hosts != [] {
      var rest := hosts[1..];
      FirstOutsideMeaning(rest, avoid);
      assert forall h :: h in hosts <==> h == hosts[0] || h in rest;
      if hosts[0] !in avoid {
        assert hosts[0] == FirstOutside(hosts, avoid).value;
      } else if FirstOutside(rest, avoid).Some? {
        var i :| 0 <= i < |rest| && rest[i] == FirstOutside(rest, avoid).value && rest[i] !in avoid
                 && forall j :: 0 <= j < i ==> rest[j] in avoid;
        assert hosts[i + 1] == rest[i];
        assert forall j :: 0 < j < i + 1 ==> hosts[j] == rest[j - 1];
      }
    }
  }

  // ----- one unbound enrolment on one snapshot -----

  /** The host the next enrolment without a reservation receives; `None` is exhaustion. */
  function NextHost(t: Tables, at: int): Option<nat> {
    FirstOutside(t.hosts, Blocked(t.(leases := Stamped(t.nodes, t.leases, at)), at))
  }

  // ----- the operator view -----

  /** Pool hosts the view counts as taken. */
  function Taken(t: Tables, at: int): set<nat> {
    set a | a in t.hosts && (a in Listed(t.nodes) || a in t.reservations || ShownReleased(t, a, at))
  }

  /** The view lists the lease as released: no device names the address, the lease is held,
      and it is not an unreleased lease of an existing device. */
  predicate ShownReleased(t: Tables, a: nat, at: int) {
    a in t.leases && a !in Listed(t.nodes) && LeaseHeld(t.leases[a], at)
    && !(t.leases[a].releasedAt.None? && t.leases[a].node.Some? && t.leases[a].node.value in t.nodes)
  }

  function NextFree(t: Tables, at: int): Option<nat> {
    FirstOutside(t.hosts, Taken(t, at))
  }

  /** An unreleased lease of an existing device that no device row lists, that is not
      reserved, and that stays held once releases are stamped. */
  predicate OrphanLease(t: Tables, a: nat, at: int) {
    a in t.leases && a !in Listed(t.nodes) && a !in t.reservations
    && t.leases[a].releasedAt.None? && t.leases[a].node.Some? && t.leases[a].node.value in t.nodes
    && LeaseHeld(StampOne(t.nodes, t.leases[a], at), at)
  }

  lemma BlockedIsTakenOrOrphan(t: Tables, at: int, a: nat)
    requires a in t.hosts
    ensures a in Blocked(t.(leases := Stamped(t.nodes, t.leases, at)), at) <==>
            a in Taken(t, at) || OrphanLease(t, a, at)
  {
  }

  /** Nothing lists, reserves or, once releases are stamped, still holds the address. */
  predicate Vacant(t: Tables, a: nat, at: int) {
    a !in Listed(t.nodes) && a !in t.reservations
    && (a in t.leases ==> !LeaseHeld(StampOne(t.nodes, t.leases[a], at), at))
  }

  /** The next enrolment receives the first vacant host of the pool, and reports exhaustion
      exactly when no host is vacant. */
  lemma {:induction false} NextHostIsFirstVacant(t: Tables, at: int)
    ensures NextHost(t, at).None? <==> forall h :: h in t.hosts ==> !Vacant(t, h, at)
    ensures NextHost(t, at).Some? ==>
              exists i :: 0 <= i < |t.hosts| && t.hosts[i] == NextHost(t, at).value && Vacant(t, t.hosts[i], at)
                          && forall j :: 0 <= j < i ==> !Vacant(t, t.hosts[j], at)
  {
    var blocked := Blocked(t.(leases := Stamped(t.nodes, t.leases, at)), at);
    FirstOutsideMeaning(t.hosts, blocked);
    assert forall h :: h in blocked <==> !Vacant(t, h, at);
  }

  /** Some orphan lease comes before every vacant host of the pool. */
  ghost predicate OrphanFirst(t: Tables, at: int) {
    exists i :: 0 <= i < |t.hosts| && OrphanLease(t, t.hosts[i], at)
                && forall j :: 0 <= j < |t.hosts| && Vacant(t, t.hosts[j], at) ==> i < j
  }

  lemma {:induction false} HostIsOneOfThree(t: Tables, at: int, a: nat)
    requires a in t.hosts
    ensures a in Taken(t, at) || OrphanLease(t, a, at) || Vacant(t, a, at)
    ensures !(a in Taken(t, at) && (OrphanLease(t, a, at) || Vacant(t, a, at)))
    ensures !(OrphanLease(t, a, at) && Vacant(t, a, at))
  {
    BlockedIsTakenOrOrphan(t, at, a);
  }

  /** The view offers an orphan exactly when one comes before every vacant host. */
  lemma {:induction false} OffersOrphan(t: Tables, at: int)
    ensures NextFree(t, at).Some? && OrphanLease(t, NextFree(t, at).value, at) <==> OrphanFirst(t, at)
  {
    var hosts := t.hosts;
    forall h | h in hosts
      ensures h in Taken(t, at) <==> !OrphanLease(t, h, at) && !Vacant(t, h, at)
      ensures !(OrphanLease(t, h, at) && Vacant(t, h, at))
    {
      HostIsOneOfThree(t, at, h);
    }
    FirstOutsideMeaning(hosts, Taken(t, at));
    if NextFree(t, at).Some? {
      var k :| 0 <= k < |hosts| && hosts[k] == NextFree(t, at).value && hosts[k] !in Taken(t, at)
               && forall j :: 0 <= j < k ==> hosts[j] in Taken(t, at);
      FirstIsOrphan(t, at, k);
    }
  }

  /** The first host that is not taken is an orphan exactly when some orphan precedes every
      vacant host. */
  lemma {:induction false} FirstIsOrphan(t: Tables, at: int, k: nat)
    requires forall h :: h in t.hosts ==> (h in Taken(t, at) <==> !OrphanLease(t, h, at) && !Vacant(t, h, at))
    requires forall h :: h in t.hosts ==> !(OrphanLease(t, h, at) && Vacant(t, h, at))
    requires k < |t.hosts| && t.hosts[k] !in Taken(t, at) && forall j :: 0 <= j < k ==> t.hosts[j] in Taken(t, at)
    ensures OrphanLease(t, t.hosts[k], at) <==> OrphanFirst(t, at)
  {
    assert t.hosts[k] in t.hosts;
    assert forall j :: 0 <= j < k ==> t.hosts[j] in t.hosts;
    if OrphanLease(t, t.hosts[k], at) {
      forall j | 0 <= j < |t.hosts| && Vacant(t, t.hosts[j], at) ensures k < j { assert t.hosts[j] in t.hosts; }
    }
  }

  /** The view's next free address is the one the next unbound enrolment receives, and is
      absent exactly when that enrolment reports exhaustion, unless an orphan lease comes
      before every vacant host. */
  lemma {:induction false} NextFreeIsNextHost(t: Tables, at: int)
    ensures NextFree(t, at) == NextHost(t, at) <==> !OrphanFirst(t, at)
  {
    var hosts := t.hosts;
    var blocked := Blocked(t.(leases := Stamped(t.nodes, t.leases, at)), at);
    forall h | h in hosts ensures h in blocked <==> h in Taken(t, at) || OrphanLease(t, h, at) {
      BlockedIsTakenOrOrphan(t, at, h);
    }
    OffersOrphan(t, at);
    FirstOutsideMeaning(hosts, Taken(t, at));
    FirstOutsideMeaning(hosts, blocked);
    if NextFree(t, at).Some? && !OrphanLease(t, NextFree(t, at).value, at) {
      FirstOutsideSuperset(hosts, Taken(t, at), blocked);
    }
  }

  /** A device row that lost its address while its lease is unreleased: the view offers the
      address, and the next enrolment gets another one. */
  lemma {:induction false} OrphanIsOffered(at: int)
    ensures var t := Tables([1, 2], map[7 := Node("a", "k", {}, None, None)], map[1 := Lease(Some(7), 0, None)], map[]);
            NextFree(t, at) == Some(1) && NextHost(t, at) == Some(2)
  {
    var t := Tables([1, 2], map[7 := Node("a", "k", {}, None, None)], map[1 := Lease(Some(7), 0, None)], map[]);
    var stamped := t.(leases := Stamped(t.nodes, t.leases, at));
    assert 1 !in Taken(t, at);
    assert 1 in Blocked(stamped, at) && 2 !in Blocked(stamped, at);
    assert t.hosts[1..] == [2];
    assert FirstOutside([2], Blocked(stamped, at)) == Some(2);
  }

  lemma {:induction false} FirstOutsideSuperset(hosts: seq<nat>, x: set<nat>, y: set<nat>)
    requires forall h :: h in hosts && h in x ==> h in y
    requires FirstOutside(hosts, x).Some? && FirstOutside(hosts, x).value !in y
    ensures FirstOutside(hosts, y) == FirstOutside(hosts, x)
  {
    if hosts[0] in x { FirstOutsideSuperset(hosts[1..], x, y); }
  }

  /** Every unreleased lease of an existing device is listed by that device. */
  ghost predicate LeasesAreListed(t: Tables) {
    forall a :: a in t.leases && t.leases[a].releasedAt.None? && t.leases[a].node.Some?
                && t.leases[a].node.value in t.nodes
                ==> a in t.nodes[t.leases[a].node.value].addresses
  }

  /** Where unreleased leases are listed by their devices, the two agree. */
  lemma {:induction false} ListedLeasesAgree(t: Tables, at: int)
    requires LeasesAreListed(t)
    ensures NextFree(t, at) == NextHost(t, at)
  {
    NextFreeIsNextHost(t, at);
  }
}
