/** The address tables as the coordinator updates them in one transaction. */
module AddressStore {
  import opened Ipam
  import opened AddressPool
  import AddressRuns
  import opened Options

  datatype Outcome =
    | Assigned(address: nat)
    | HolderActive(address: nat)
    | BeingAssigned(address: nat)
    | Exhausted

  class Store {
    var hosts: seq<nat>
    var nodes: map<NodeId, Node>
    var leases: map<nat, Lease>
    var reservations: map<nat, Reservation>

    ghost function Contents(): Tables
      reads this
    {
      Tables(hosts, nodes, leases, reservations)
    }

    constructor (pool: DevicePool)
      requires IsPool(pool)
      ensures Contents() == Tables(HostsOf(pool), map[], map[], map[])
    {
      hosts, nodes, leases, reservations := HostsOf(pool), map[], map[], map[];
    }

    /** Leases of revoked and deleted devices first, then those of purged ones. */
    method StampReleases(at: int)
      modifies this`leases
      ensures leases == Stamped(nodes, old(leases), at)
    {
      leases := map a | a in leases ::
        var l := leases[a];
        if l.releasedAt.None? && l.node.Some? && l.node.value in nodes && !Active(nodes[l.node.value])
        then l.(releasedAt := Some(LeftAt(nodes[l.node.value]))) else l;
      leases := map a | a in leases ::
        var l := leases[a];
        if l.releasedAt.None? && (l.node.None? || l.node.value !in nodes) then l.(releasedAt := Some(at)) else l;
    }

    /** Collects what the device rows list, the leases hold and the reservations keep. */
    method BlockedHosts(at: int) returns (blocked: set<nat>)
      ensures blocked == Blocked(Contents(), at)
    {
      blocked := {};
      var todo := nodes.Keys;
      while todo != {}
        invariant todo <= nodes.Keys
        invariant blocked == set n, a | n in nodes && n !in todo && a in nodes[n].addresses :: a
      {
        var n :| n in todo;
        blocked := blocked + nodes[n].addresses;
        todo := todo - {n};
      }
      var rows := leases.Keys;
      while rows != {}
        invariant rows <= leases.Keys
        invariant blocked == Listed(nodes) + set a | a in leases && a !in rows && LeaseHeld(leases[a], at)
      {
        var a :| a in rows;
        if LeaseHeld(leases[a], at) {
          blocked := blocked + {a};
        }
        rows := rows - {a};
      }
      blocked := blocked + reservations.Keys;
    }

    /** Leases the address to the device if it never had a lease or the last one is aged. */
    method TakeLease(address: nat, node: NodeId, at: int) returns (inserted: bool)
      modifies this`leases
      ensures inserted == MayTake(old(leases), address, at, false)
      ensures leases == if inserted then old(leases)[address := Lease(Some(node), at, None)] else old(leases)
    {
      inserted := address !in leases
                  || (leases[address].releasedAt.Some? && leases[address].releasedAt.value <= at - GRACE);
      if inserted {
        leases := leases[address := Lease(Some(node), at, None)];
      }
    }

    /** A reservation names the device: it may take a released address inside its grace. */
    method AllocateReserved(a: nat, node: NodeId, at: int) returns (r: Outcome)
      modifies this`leases
      ensures BoundOutcome(nodes, old(leases), leases, a, node, at, r)
    {
      if exists n :: n in nodes && Active(nodes[n]) && a in nodes[n].addresses {
        return HolderActive(a);
      }
      if a in leases && leases[a].releasedAt.None? {
        return BeingAssigned(a);
      }
      leases := leases[a := Lease(Some(node), at, None)];
      return Assigned(a);
    }

    /** Leases the lowest host that nothing blocks. */
    method AllocateLowest(node: NodeId, at: int) returns (r: Outcome)
      modifies this`leases
      ensures LowestOutcome(old(Contents()), leases, node, at, r)
    {
      var blocked := BlockedHosts(at);
      for i := 0 to |hosts|
        invariant leases == old(leases)
        invariant FirstOutside(hosts, blocked) == FirstOutside(hosts[i..], blocked)
      {
        assert hosts[i..][0] == hosts[i] && hosts[i..][1..] == hosts[i + 1..];
        if hosts[i] !in blocked {
          var inserted := TakeLease(hosts[i], node, at);
          if inserted {
            return Assigned(hosts[i]);
          }
        }
      }
      return Exhausted;
    }

    /** Picks and leases the address of a device being enrolled. A reservation that names the
        device wins; otherwise the lowest host that nothing blocks is leased. */
    method Allocate(node: NodeId, name: string, key: string, at: int) returns (r: Outcome)
      modifies this`leases
      ensures var stamped := old(Contents()).(leases := Stamped(nodes, old(leases), at));
              (AddressRuns.BoundTo(stamped, name, key, None) && LowestOutcome(stamped, leases, node, at, r))
              || exists a :: AddressRuns.BoundTo(stamped, name, key, Some(a))
                             && BoundOutcome(nodes, stamped.leases, leases, a, node, at, r)
    {
      StampReleases(at);
      if a :| a in reservations && Binds(reservations[a], name, key) {
        r := AllocateReserved(a, node, at);
      } else {
        r := AllocateLowest(node, at);
      }
    }

    /** The part of the operator view that decides the next free address. */
    method NextFreeAddress(at: int) returns (next: Option<nat>)
      ensures next == NextFree(Contents(), at)
    {
      var used, inGrace, seen := {}, {}, {};
      var todo := nodes.Keys;
      while todo != {}
        invariant todo <= nodes.Keys
        invariant seen == set n, a | n in nodes && n !in todo && a in nodes[n].addresses && a in hosts :: a
        invariant used + inGrace == seen
      {
        var n :| n in todo;
        var own := set a | a in nodes[n].addresses && a in hosts;
        if !Active(nodes[n]) && nodes[n].deletedAt.Some? {
          inGrace := inGrace + own;
        } else {
          used := used + own;
        }
        seen := seen + own;
        todo := todo - {n};
      }
      var rows := leases.Keys;
      while rows != {}
        invariant rows <= leases.Keys
        invariant used + inGrace
                  == seen + set a | a in leases && a !in rows && a in hosts && ShownReleased(Contents(), a, at)
      {
        var a :| a in rows;
        if a !in seen && LeaseHeld(leases[a], at)
           && !(leases[a].releasedAt.None? && leases[a].node.Some? && leases[a].node.value in nodes) {
          if a in hosts {
            inGrace := inGrace + {a};
          }
        }
        rows := rows - {a};
      }
      var reserved := set a | a in reservations && a !in used && a in hosts;
      var taken := used + inGrace + reserved;
      assert taken == Taken(Contents(), at);
      for i := 0 to |hosts|
        invariant FirstOutside(hosts, taken) == FirstOutside(hosts[i..], taken)
      {
        assert hosts[i..][0] == hosts[i] && hosts[i..][1..] == hosts[i + 1..];
        if hosts[i] !in taken {
          return Some(hosts[i]);
        }
      }
      return None;
    }
  }

  /** What an enrolment without a reservation reports and writes. */
  ghost predicate LowestOutcome(before: Tables, after: map<nat, Lease>, node: NodeId, at: int, r: Outcome) {
    var next := FirstOutside(before.hosts, Blocked(before, at));
    if next.None? then r == Exhausted && after == before.leases
    else r == Assigned(next.value) && after == before.leases[next.value := Lease(Some(node), at, None)]
  }

  /** What an enrolment with a reservation for `a` reports and writes. */
  ghost predicate BoundOutcome(nodes: map<NodeId, Node>, before: map<nat, Lease>, after: map<nat, Lease>,
                               a: nat, node: NodeId, at: int, r: Outcome) {
    var inUse := exists n :: n in nodes && Active(nodes[n]) && a in nodes[n].addresses;
    if inUse then r == HolderActive(a) && after == before
    else if MayTake(before, a, at, true) then r == Assigned(a) && after == before[a := Lease(Some(node), at, None)]
    else r == BeingAssigned(a) && after == before
  }
}
