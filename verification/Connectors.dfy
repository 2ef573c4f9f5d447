/** Route leases that DNS connectors report, over all reports, expiries and clock steps. */
module Connectors {
  import opened Bits
  import opened Cidr
  import opened CidrText
  import opened ConnectorAddress
  import opened Options

  const MIN_LEASE_SECS := 90
  const MAX_LEASE_SECS := 300
  const MAX_ANSWERS := 32

  /** The text of an answer: not an address, an address, or an address with a prefix text. */
  datatype Raw = NotAddress | Bare(ip: Address) | Prefixed(ip: Address, prefix: string)

  datatype Answer = Answer(raw: Raw, ttl: nat)

  /** `host_ip`: a prefix is accepted only when it is the full length of the family. */
  function HostIp(raw: Raw): Option<Address> {
    match raw
    case NotAddress => None
    case Bare(ip) => Some(ip)
    case Prefixed(ip, prefix) => if prefix == (if ip.family.V4? then "32" else "128") then Some(ip) else None
  }

  function HostRoute(ip: Address): Block {
    Block(ip.family, ip.bits, Width(ip.family))
  }

  /** `prefixes` are the texts of the enabled resources and of the approved device routes. */
  datatype Context = Context(org: nat, endpoints: set<Address>, prefixes: seq<Text>)

  predicate Protects(p: Text, ip: Address) {
    !IsDefaultRoute(p) && TextWithin(Canon(HostRoute(ip)), p)
  }

  predicate Refused(c: Context, ip: Address) {
    Forbidden(ip, c.org) || ip in c.endpoints
    || exists i :: 0 <= i < |c.prefixes| && Protects(c.prefixes[i], ip)
  }

  predicate Bad(c: Context, a: Answer) {
    HostIp(a.raw).None? || Refused(c, HostIp(a.raw).value)
  }

  /** A prefix protects exactly the addresses it covers. */
  lemma {:induction false} ProtectsMeaning(p: Text, ip: Address)
    requires IsAddress(ip)
    ensures Protects(p, ip) <==> !IsDefaultRoute(p) && Parse(p).Some? && Has(Parse(p).value, ip)
  {
    HostRouteMeaning(ip);
    if Parse(p).Some? {
      WithinIsSubset(HostRoute(ip), Parse(p).value);
      assert Subset(HostRoute(ip), Parse(p).value) <==> Has(Parse(p).value, ip);
    }
  }

  lemma {:induction false} HostRouteMeaning(ip: Address)
    requires IsAddress(ip)
    ensures Parse(Canon(HostRoute(ip))) == Some(HostRoute(ip))
    ensures forall a: Address :: Has(HostRoute(ip), a) <==> a == ip
  {
    assert Floor(ip.bits, 0) == ip.bits && Pow2(0) == 1;
  }

  // ----- the answers of a report -----

  function Min(a: nat, b: nat): nat {
    if a <= b then a else b
  }

  /** The accepted routes with their TTLs, or `None` when an answer is bad. */
  function Accepted(c: Context, answers: seq<Answer>): Option<map<Address, nat>> {
    if answers == [] then Some(map[])
    else
      var rest, last := Accepted(c, answers[..|answers| - 1]), answers[|answers| - 1];
      if rest.None? || Bad(c, last) then None
      else
        var ip := HostIp(last.raw).value;
        Some(rest.value[ip := if ip in rest.value then Min(rest.value[ip], last.ttl) else last.ttl])
  }

  ghost predicate Names(answers: set<Answer>, ip: Address, ttl: nat) {
    exists a :: a in answers && HostIp(a.raw) == Some(ip) && a.ttl == ttl
  }

  /** The map has exactly the answered addresses, each with the least TTL it was given. */
  ghost predicate LeastTtls(m: map<Address, nat>, answers: set<Answer>) {
    (forall a :: a in answers ==> HostIp(a.raw).Some? && HostIp(a.raw).value in m && m[HostIp(a.raw).value] <= a.ttl)
    && forall ip :: ip in m ==> Names(answers, ip, m[ip])
  }

  function Given(answers: seq<Answer>): set<Answer> {
    set a | a in answers
  }

  lemma {:induction false} AcceptedMeaning(c: Context, answers: seq<Answer>)
    ensures Accepted(c, answers).None? <==> exists a :: a in Given(answers) && Bad(c, a)
    ensures Accepted(c, answers).Some? ==> LeastTtls(Accepted(c, answers).value, Given(answers))
  {
    if answers != [] {
      var n := |answers| - 1;
      AcceptedMeaning(c, answers[..n]);
      assert answers == answers[..n] + [answers[n]];
      assert Given(answers) == Given(answers[..n]) + {answers[n]};
      if Accepted(c, answers).Some? {
        LeastTtlsStep(Accepted(c, answers[..n]).value, Given(answers[..n]), answers[n]);
      }
    }
  }

  lemma {:induction false} LeastTtlsStep(m: map<Address, nat>, s: set<Answer>, a: Answer)
    requires LeastTtls(m, s) && HostIp(a.raw).Some?
    ensures var ip := HostIp(a.raw).value;
            LeastTtls(m[ip := if ip in m then Min(m[ip], a.ttl) else a.ttl], s + {a})
  {
    var ip := HostIp(a.raw).value;
    var r := m[ip := if ip in m then Min(m[ip], a.ttl) else a.ttl];
    forall k | k in r ensures Names(s + {a}, k, r[k]) {
      if k == ip && (ip !in m || a.ttl < m[ip]) {
        assert a in s + {a};
      } else {
        assert Names(s, k, m[k]);
      }
    }
  }

  lemma {:induction false} LeastTtlsUnique(m: map<Address, nat>, n: map<Address, nat>, s: set<Answer>)
    requires LeastTtls(m, s) && LeastTtls(n, s)
    ensures m == n
  {
    LeastTtlsBelow(m, n, s);
    LeastTtlsBelow(n, m, s);
    assert m.Keys == n.Keys;
  }

  lemma {:induction false} LeastTtlsBelow(m: map<Address, nat>, n: map<Address, nat>, s: set<Answer>)
    requires LeastTtls(m, s) && LeastTtls(n, s)
    ensures forall ip :: ip in n ==> ip in m && m[ip] <= n[ip]
  {
    forall ip | ip in n ensures ip in m && m[ip] <= n[ip] { assert Names(s, ip, n[ip]); }
  }

  // ----- the lease table -----

  datatype Pair = Pair(resource: nat, node: nat)

  datatype Row = Row(pair: Pair, route: Address)

  datatype Lease = Lease(ttl: nat, resolvedAt: int, expiresAt: int)

  datatype Tables = Tables(leases: map<Row, Lease>, revision: nat)

  function LeaseSeconds(ttl: nat): int {
    if ttl < MIN_LEASE_SECS then MIN_LEASE_SECS else if ttl > MAX_LEASE_SECS then MAX_LEASE_SECS else ttl
  }

  function Sweep(leases: map<Row, Lease>, at: int): map<Row, Lease> {
    map r | r in leases && leases[r].expiresAt > at :: leases[r]
  }

  function Live(leases: map<Row, Lease>, p: Pair, at: int): set<Address> {
    set r | r in leases && r.pair == p && leases[r].expiresAt > at :: r.route
  }

  function Without(leases: map<Row, Lease>, p: Pair): map<Row, Lease> {
    map r | r in leases && r.pair != p :: leases[r]
  }

  function LeaseFor(ttl: nat, at: int): Lease {
    Lease(ttl, at, at + LeaseSeconds(ttl))
  }

  function Installed(leases: map<Row, Lease>, p: Pair, accepted: map<Address, nat>, at: int): map<Row, Lease> {
    Without(leases, p)
    + map r: Row | r in (set ip | ip in accepted :: Row(p, ip)) :: LeaseFor(accepted[r.route], at)
  }

  datatype Report = Report(enabled: bool, failed: bool, answers: seq<Answer>)

  datatype Verdict = TooMany | Disabled | Kept(routes: set<Address>) | Blocked | Resolved(routes: set<Address>)

  function Bumped(revision: nat, change: bool): nat {
    if change then revision + 1 else revision
  }

  /** `report_resolution` for a connector that serves the resource. */
  function Reported(t: Tables, c: Context, p: Pair, report: Report, at: int): (Tables, Verdict) {
    var swept := Sweep(t.leases, at);
    var previous := Live(swept, p, at);
    var accepted := Accepted(c, report.answers);
    if |report.answers| > MAX_ANSWERS then (t, TooMany)
    else if !report.enabled then (Tables(Without(swept, p), Bumped(t.revision, previous != {})), Disabled)
    else if report.failed then (Tables(swept, t.revision), Kept(previous))
    else if accepted.None? then (Tables(Without(swept, p), t.revision + 1), Blocked)
    else (Tables(Installed(swept, p, accepted.value, at), Bumped(t.revision, accepted.value.Keys != previous)),
          Resolved(accepted.value.Keys))
  }

  /** `expire_leases`. */
  function Expired(t: Tables, at: int): Tables {
    var kept := Sweep(t.leases, at);
    Tables(kept, Bumped(t.revision, kept != t.leases))
  }

  // ----- one report -----

  /** Order and repetition of the answers do not matter. */
  lemma {:induction false} ReportIgnoresOrder(t: Tables, c: Context, p: Pair, x: Report, y: Report, at: int)
    requires x.enabled == y.enabled && x.failed == y.failed && Given(x.answers) == Given(y.answers)
    requires |x.answers| <= MAX_ANSWERS && |y.answers| <= MAX_ANSWERS
    ensures Reported(t, c, p, x, at) == Reported(t, c, p, y, at)
  {
    AcceptedMeaning(c, x.answers);
    AcceptedMeaning(c, y.answers);
    if Accepted(c, x.answers).Some? {
      LeastTtlsUnique(Accepted(c, x.answers).value, Accepted(c, y.answers).value, Given(x.answers));
    }
  }

  lemma {:induction false} InstalledRows(leases: map<Row, Lease>, p: Pair, accepted: map<Address, nat>, at: int)
    ensures var r := Installed(leases, p, accepted, at);
            (forall ip :: Row(p, ip) in r <==> ip in accepted)
            && (forall ip :: ip in accepted ==> r[Row(p, ip)] == LeaseFor(accepted[ip], at))
            && (forall row: Row :: row.pair != p ==>
                                     (row in r <==> row in leases) && (row in r ==> r[row] == leases[row]))
  {
    forall ip ensures Row(p, ip) in (set x | x in accepted :: Row(p, x)) <==> ip in accepted {}
  }

  /** The pair's rows after a report that reached the table: none when the resource is
      disabled or an answer is bad, the unexpired ones after a failure, and otherwise one per
      answered address for 90 to 300 seconds from now by its least TTL. */
  lemma {:induction false} ReportMeaning(t: Tables, c: Context, p: Pair, report: Report, at: int)
    requires |report.answers| <= MAX_ANSWERS
    ensures var (after, verdict) := Reported(t, c, p, report, at);
            match verdict
            case TooMany => false
            case Disabled => !report.enabled && forall row :: row in after.leases ==> row.pair != p
            case Blocked => report.enabled && !report.failed && (exists a :: a in report.answers && Bad(c, a))
                            && forall row :: row in after.leases ==> row.pair != p
            case Kept(routes) => report.enabled && report.failed && routes == Live(t.leases, p, at)
                                 && after == t.(leases := Sweep(t.leases, at))
            case Resolved(routes) =>
              report.enabled && !report.failed
              && (forall a :: a in report.answers ==> !Bad(c, a) && HostIp(a.raw).value in routes)
              && (forall ip :: Row(p, ip) in after.leases <==> ip in routes)
              && (forall ip :: ip in routes ==>
                                 var l := after.leases[Row(p, ip)];
                                 Names(Given(report.answers), ip, l.ttl) && l.resolvedAt == at
                                 && l.expiresAt - at == LeaseSeconds(l.ttl) && 90 <= l.expiresAt - at <= 300
                                 && forall a :: a in report.answers && HostIp(a.raw) == Some(ip) ==> l.ttl <= a.ttl)
  {
    AcceptedMeaning(c, report.answers);
    var accepted := Accepted(c, report.answers);
    var swept := Sweep(t.leases, at);
    assert forall a :: a in report.answers <==> a in Given(report.answers);
    SweepKeepsLive(t.leases, p, at, at);
    if report.enabled && !report.failed && accepted.Some? {
      InstalledRows(swept, p, accepted.value, at);
    }
  }

  lemma {:induction false} SweepKeepsLive(leases: map<Row, Lease>, p: Pair, at: int, later: int)
    requires at <= later
    ensures Live(Sweep(leases, at), p, later) == Live(leases, p, later)
  {
    forall ip ensures ip in Live(Sweep(leases, at), p, later) <==> ip in Live(leases, p, later) {
      LiveHas(Sweep(leases, at), p, later, ip);
      LiveHas(leases, p, later, ip);
    }
  }

  lemma {:induction false} LiveHas(leases: map<Row, Lease>, p: Pair, at: int, ip: Address)
    ensures ip in Live(leases, p, at) <==> Row(p, ip) in leases && leases[Row(p, ip)].expiresAt > at
  {
    if Row(p, ip) in leases && leases[Row(p, ip)].expiresAt > at { assert Row(p, ip).route in Live(leases, p, at); }
  }

  /** A report bumps the revision at most once: exactly when it is blocked or it changes the
      pair's unexpired routes. */
  lemma {:induction false} BumpsExactlyOnChange(t: Tables, c: Context, p: Pair, report: Report, at: int)
    ensures var (after, verdict) := Reported(t, c, p, report, at);
            after.revision == Bumped(t.revision, verdict.Blocked? || Live(after.leases, p, at) != Live(t.leases, p, at))
  {
    var (after, verdict) := Reported(t, c, p, report, at);
    SweepKeepsLive(t.leases, p, at, at);
    LiveAfter(t, c, p, report, at);
  }

  /** The pair's unexpired routes after a report. */
  lemma {:induction false} LiveAfter(t: Tables, c: Context, p: Pair, report: Report, at: int)
    ensures var (after, verdict) := Reported(t, c, p, report, at);
            Live(after.leases, p, at) == match verdict
                                         case TooMany => Live(t.leases, p, at)
                                         case Disabled => {}
                                         case Blocked => {}
                                         case Kept(routes) => routes
                                         case Resolved(routes) => routes
  {
    var (after, verdict) := Reported(t, c, p, report, at);
    var swept := Sweep(t.leases, at);
    SweepKeepsLive(t.leases, p, at, at);
    if verdict.Resolved? {
      var accepted := Accepted(c, report.answers).value;
      InstalledRows(swept, p, accepted, at);
      forall ip ensures ip in Live(after.leases, p, at) <==> ip in accepted { LiveHas(after.leases, p, at, ip); }
    }
  }

  /** Another pair keeps every row that has not expired, and gains none. */
  lemma {:induction false} OthersKeepLive(t: Tables, c: Context, p: Pair, report: Report, at: int, row: Row)
    requires row.pair != p && |report.answers| <= MAX_ANSWERS
    ensures var after := Reported(t, c, p, report, at).0;
            (row in after.leases <==> row in t.leases && t.leases[row].expiresAt > at)
            && (row in after.leases ==> after.leases[row] == t.leases[row])
  {
    var accepted := Accepted(c, report.answers);
    if accepted.Some? { InstalledRows(Sweep(t.leases, at), p, accepted.value, at); }
  }

  /** Expiry removes exactly the expired rows, bumps exactly when there are any, and changes
      no pair's unexpired routes. */
  lemma {:induction false} ExpireMeaning(t: Tables, at: int)
    ensures var after := Expired(t, at);
            (after.revision > t.revision <==> exists row :: row in t.leases && t.leases[row].expiresAt <= at)
            && after.revision <= t.revision + 1
            && (forall row :: row in after.leases <==> row in t.leases && t.leases[row].expiresAt > at)
            && forall p: Pair :: Live(after.leases, p, at) == Live(t.leases, p, at)
  {
    forall p: Pair ensures Live(Sweep(t.leases, at), p, at) == Live(t.leases, p, at) {
      SweepKeepsLive(t.leases, p, at, at);
    }
    if row :| row in t.leases && t.leases[row].expiresAt <= at {
      assert row !in Sweep(t.leases, at);
    } else {
      assert Sweep(t.leases, at) == t.leases;
    }
  }

  // ----- withdrawals that nobody is told about -----

  /** If a report removes a row, it bumps the revision. */
  ghost predicate Announces(t: Tables, c: Context, p: Pair, report: Report, at: int) {
    var after := Reported(t, c, p, report, at).0;
    (exists row :: row in t.leases && row !in after.leases) ==> after.revision > t.revision
  }

  /** The report re-leases the row. */
  predicate Renews(c: Context, p: Pair, report: Report, row: Row) {
    row.pair == p && report.enabled && !report.failed
    && Accepted(c, report.answers).Some? && row.route in Accepted(c, report.answers).value
  }

  /** Told by the tables and the report beforehand, the report bumps the revision. */
  predicate WillBump(t: Tables, c: Context, p: Pair, report: Report, at: int) {
    var live, accepted := Live(t.leases, p, at), Accepted(c, report.answers);
    if !report.enabled then live != {}
    else !report.failed && (accepted.None? || accepted.value.Keys != live)
  }

  /** Whether a report bumps can be told from the tables as they stand: the sweep that comes first
      removes only what is not live, so the branches may be decided on unswept rows. */
  lemma {:induction false} BumpIsForeseen(t: Tables, c: Context, p: Pair, report: Report, at: int)
    requires |report.answers| <= MAX_ANSWERS
    ensures Reported(t, c, p, report, at).0.revision == Bumped(t.revision, WillBump(t, c, p, report, at))
  {
    SweepKeepsLive(t.leases, p, at, at);
  }

  /** The sweep of expired rows at the start of a report is silent: the report announces every
      removal exactly when it bumps anyway or every expired row is one it renews. */
  lemma {:induction false} SweepIsSilent(t: Tables, c: Context, p: Pair, report: Report, at: int)
    requires |report.answers| <= MAX_ANSWERS
    ensures Announces(t, c, p, report, at) <==>
            WillBump(t, c, p, report, at)
            || forall row :: row in t.leases && t.leases[row].expiresAt <= at ==> Renews(c, p, report, row)
  {
    var (after, verdict) := Reported(t, c, p, report, at);
    BumpIsForeseen(t, c, p, report, at);
    BumpsExactlyOnChange(t, c, p, report, at);
    if !WillBump(t, c, p, report, at) {
      forall row | row in t.leases
        ensures row in after.leases <==> t.leases[row].expiresAt > at || Renews(c, p, report, row)
      {
        RowAfter(t, c, p, report, at, row);
      }
    }
  }

  lemma {:induction false} RowAfter(t: Tables, c: Context, p: Pair, report: Report, at: int, row: Row)
    requires |report.answers| <= MAX_ANSWERS && row in t.leases
    requires var (after, verdict) := Reported(t, c, p, report, at);
             !verdict.Blocked? && Live(after.leases, p, at) == Live(t.leases, p, at)
    ensures row in Reported(t, c, p, report, at).0.leases <==>
            t.leases[row].expiresAt > at || Renews(c, p, report, row)
  {
    var (after, verdict) := Reported(t, c, p, report, at);
    if row.pair != p {
      OthersKeepLive(t, c, p, report, at, row);
    } else {
      LiveAfter(t, c, p, report, at);
      LiveHas(t.leases, p, at, row.route);
      LiveHas(after.leases, p, at, row.route);
      assert row == Row(p, row.route);
      if verdict.Resolved? { InstalledRows(Sweep(t.leases, at), p, Accepted(c, report.answers).value, at); }
    }
  }

  /** A failed report of one connector drops another's expired route, and the expiry that
      follows finds nothing to announce. */
  lemma SilentWithdrawal()
    ensures var gone := Row(Pair(1, 1), Address(V4, 0x0A00_0001));
            var t := Tables(map[gone := Lease(90, 0, 90)], 7);
            var c := Context(0, {}, []);
            var after := Reported(t, c, Pair(2, 2), Report(true, true, []), 100).0;
            gone !in after.leases && Expired(after, 100).revision == t.revision
  {
    var gone := Row(Pair(1, 1), Address(V4, 0x0A00_0001));
    var t := Tables(map[gone := Lease(90, 0, 90)], 7);
    assert Sweep(t.leases, 100) == map[];
    assert Sweep(map[], 100) == map[];
  }
}
