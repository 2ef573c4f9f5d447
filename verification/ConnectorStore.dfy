/** The lease table as the report handler updates it. */
module ConnectorStore {
  import opened Cidr
  import opened Connectors
  import opened Options

  /** The loop over the answers: it stops at the first bad one. */
  method Collect(c: Context, answers: seq<Answer>) returns (accepted: Option<map<Address, nat>>)
    ensures accepted == Accepted(c, answers)
  {
    var m: map<Address, nat> := map[];
    for i := 0 to |answers|
      invariant Accepted(c, answers[..i]) == Some(m)
    {
      assert answers[..i + 1][..i] == answers[..i];
      var ip := HostIp(answers[i].raw);
      if ip.None? || Refused(c, ip.value) {
        BadStays(c, answers, i + 1);
        return None;
      }
      m := m[ip.value := if ip.value in m then Min(m[ip.value], answers[i].ttl) else answers[i].ttl];
    }
    assert answers[..|answers|] == answers;
    return Some(m);
  }

  lemma {:induction false} BadStays(c: Context, answers: seq<Answer>, k: nat)
    requires k <= |answers| && Accepted(c, answers[..k]).None?
    ensures Accepted(c, answers).None?
    decreases |answers|
  {
    var n := |answers| - 1;
    if k <= n {
      assert answers[..n][..k] == answers[..k];
      BadStays(c, answers[..n], k);
    } else {
      assert answers[..k] == answers;
    }
  }

  class Store {
    var leases: map<Row, Lease>
    var revision: nat

    ghost function Contents(): Tables
      reads this
    {
      Tables(leases, revision)
    }

    constructor ()
      ensures Contents() == Tables(map[], 0)
    {
      leases, revision := map[], 0;
    }

    /** Inserts a row per accepted route and finds the earliest expiry. */
    method Install(p: Pair, accepted: map<Address, nat>, at: int) returns (earliest: Option<int>)
      modifies `leases
      ensures leases == Installed(old(leases), p, accepted, at)
      ensures earliest.None? <==> accepted == map[]
      ensures earliest.Some? ==>
                (exists ip :: ip in accepted && earliest.value == at + LeaseSeconds(accepted[ip]))
                && forall ip :: ip in accepted ==> earliest.value <= at + LeaseSeconds(accepted[ip])
    {
      leases := Without(leases, p);
      var rest := accepted.Keys;
      earliest := None;
      while rest != {}
        invariant rest <= accepted.Keys
        invariant forall row: Row :: row.pair != p ==>
                                       (row in leases <==> row in old(leases))
                                       && (row in leases ==> leases[row] == old(leases)[row])
        invariant forall ip :: Row(p, ip) in leases <==> ip in accepted && ip !in rest
        invariant forall ip :: ip in accepted && ip !in rest ==> leases[Row(p, ip)] == LeaseFor(accepted[ip], at)
        invariant earliest.None? <==> rest == accepted.Keys
        invariant earliest.Some? ==> exists ip :: ip in accepted && earliest.value == at + LeaseSeconds(accepted[ip])
        invariant earliest.Some? ==>
                    forall ip :: ip in accepted && ip !in rest ==> earliest.value <= at + LeaseSeconds(accepted[ip])
        decreases rest
      {
        var ip :| ip in rest;
        var lease := LeaseFor(accepted[ip], at);
        if earliest.None? || lease.expiresAt < earliest.value { earliest := Some(lease.expiresAt); }
        leases := leases[Row(p, ip) := lease];
        rest := rest - {ip};
      }
      InstalledRows(old(leases), p, accepted, at);
      SameRows(leases, Installed(old(leases), p, accepted, at), p);
    }

    /** The accepted branch: replaces the pair's rows and bumps when its routes changed. */
    method Accept(p: Pair, accepted: map<Address, nat>, previous: set<Address>, at: int) returns (earliest: Option<int>)
      modifies this
      ensures leases == Installed(old(leases), p, accepted, at)
      ensures revision == Bumped(old(revision), accepted.Keys != previous)
      ensures earliest.Some? <==> accepted.Keys != {}
      ensures earliest.Some? ==> at + 90 <= earliest.value <= at + 300
    {
      earliest := Install(p, accepted, at);
      if accepted.Keys != previous { revision := revision + 1; }
      assert accepted == map[] <==> accepted.Keys == {};
    }

    /** `report_resolution`. */
    method Receive(c: Context, p: Pair, report: Report, at: int) returns (verdict: Verdict, earliest: Option<int>)
      modifies this
      ensures (Contents(), verdict) == Reported(old(Contents()), c, p, report, at)
      ensures earliest.Some? <==> verdict.Resolved? && verdict.routes != {}
      ensures earliest.Some? ==> at + 90 <= earliest.value <= at + 300
    {
      earliest := None;
      if |report.answers| > MAX_ANSWERS { return TooMany, None; }
      leases := Sweep(leases, at);
      var previous := Live(leases, p, at);
      if !report.enabled {
        leases := Without(leases, p);
        if previous != {} { revision := revision + 1; }
        return Disabled, None;
      }
      if report.failed { return Kept(previous), None; }
      var accepted := Collect(c, report.answers);
      if accepted.None? {
        leases := Without(leases, p);
        revision := revision + 1;
        return Blocked, None;
      }
      earliest := Accept(p, accepted.value, previous, at);
      verdict := Resolved(accepted.value.Keys);
    }

    /** `expire_leases`. */
    method Expire(at: int) returns (any: bool)
      modifies this
      ensures Contents() == Expired(old(Contents()), at)
      ensures any <==> old(exists row :: row in leases && leases[row].expiresAt <= at)
    {
      ExpireMeaning(Tables(leases, revision), at);
      var kept := Sweep(leases, at);
      any := kept != leases;
      leases := kept;
      if any { revision := revision + 1; }
    }
  }

  lemma {:induction false} SameRows(a: map<Row, Lease>, b: map<Row, Lease>, p: Pair)
    requires forall row: Row :: row.pair != p ==> (row in a <==> row in b) && (row in a ==> a[row] == b[row])
    requires forall ip :: Row(p, ip) in a <==> Row(p, ip) in b
    requires forall ip :: Row(p, ip) in a ==> a[Row(p, ip)] == b[Row(p, ip)]
    ensures a == b
  {
    forall row: Row ensures (row in a <==> row in b) && (row in a ==> a[row] == b[row]) {
      assert row.pair == p ==> row == Row(p, row.route);
    }
    assert a.Keys == b.Keys;
  }
}
