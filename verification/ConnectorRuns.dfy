/** Runs of reports by any connectors, expiries and clock steps. */
module ConnectorRuns {
  import opened Cidr
  import opened Connectors

  datatype State = State(tables: Tables, now: int)

  datatype Event =
    | Receive(context: Context, pair: Pair, report: Report)
    | Expire
    | Tick(seconds: nat)

  function Step(s: State, e: Event): State {
    match e
    case Receive(c, p, report) => s.(tables := Reported(s.tables, c, p, report, s.now).0)
    case Expire => s.(tables := Expired(s.tables, s.now))
    case Tick(seconds) => s.(now := s.now + seconds)
  }

  function Final(s: State, events: seq<Event>): State {
    if events == [] then s else Step(Final(s, events[..|events| - 1]), events[|events| - 1])
  }

  /** What a pair was last told to route, and when. */
  datatype Last = Last(routes: map<Address, nat>, at: int)

  /** A report replaces it unless it carries too many answers or reports a failure; a disabled
      resource or a bad answer leaves nothing. */
  function Replace(last: Last, c: Context, report: Report, now: int): Last {
    if |report.answers| > MAX_ANSWERS || (report.enabled && report.failed) then last
    else if !report.enabled || Accepted(c, report.answers).None? then Last(map[], now)
    else Last(Accepted(c, report.answers).value, now)
  }

  /** The last effective report of a pair in a run. */
  function LastReport(s: State, events: seq<Event>, p: Pair): Last {
    if events == [] then Last(map[], s.now)
    else
      var before, e := events[..|events| - 1], events[|events| - 1];
      var last := LastReport(s, before, p);
      if e.Receive? && e.pair == p then Replace(last, e.context, e.report, Final(s, before).now) else last
  }

  /** The pair's rows are the last report's, less some that have expired. */
  ghost predicate Tracks(s: State, p: Pair, last: Last) {
    last.at <= s.now
    && (forall ip :: Row(p, ip) in s.tables.leases ==>
                       ip in last.routes && s.tables.leases[Row(p, ip)] == LeaseFor(last.routes[ip], last.at))
    && (forall ip :: ip in last.routes && last.at + LeaseSeconds(last.routes[ip]) > s.now ==>
                       Row(p, ip) in s.tables.leases)
  }

  lemma {:induction false} OwnReportTracks(s: State, c: Context, p: Pair, report: Report, last: Last)
    requires Tracks(s, p, last)
    ensures Tracks(Step(s, Receive(c, p, report)), p, Replace(last, c, report, s.now))
  {
    var accepted := Accepted(c, report.answers);
    if accepted.Some? { InstalledRows(Sweep(s.tables.leases, s.now), p, accepted.value, s.now); }
  }

  lemma {:induction false} OtherReportTracks(s: State, c: Context, q: Pair, report: Report, p: Pair, last: Last)
    requires Tracks(s, p, last) && p != q
    ensures Tracks(Step(s, Receive(c, q, report)), p, last)
  {
    if |report.answers| <= MAX_ANSWERS {
      forall ip: Address
        ensures var after := Step(s, Receive(c, q, report)).tables.leases;
                var row := Row(p, ip);
                (row in after <==> row in s.tables.leases && s.tables.leases[row].expiresAt > s.now)
                && (row in after ==> after[row] == s.tables.leases[row])
      {
        OthersKeepLive(s.tables, c, q, report, s.now, Row(p, ip));
      }
    }
  }

  lemma {:induction false} RunTracks(s: State, events: seq<Event>, p: Pair)
    requires forall row :: row in s.tables.leases ==> row.pair != p
    ensures Tracks(Final(s, events), p, LastReport(s, events, p))
  {
    if events != [] {
      var before, e := events[..|events| - 1], events[|events| - 1];
      RunTracks(s, before, p);
      var mid, last := Final(s, before), LastReport(s, before, p);
      if e.Receive? && e.pair == p {
        OwnReportTracks(mid, e.context, p, e.report, last);
      } else if e.Receive? {
        OtherReportTracks(mid, e.context, e.pair, e.report, p, last);
      }
    }
  }

  /** In every run a pair's unexpired routes are exactly those of its last effective report
      whose lifetime has not run out, however expiries and other connectors interleave. */
  lemma {:induction false} LiveIsLastReport(s: State, events: seq<Event>, p: Pair, ip: Address)
    requires forall row :: row in s.tables.leases ==> row.pair != p
    ensures var end, last := Final(s, events), LastReport(s, events, p);
            ip in Live(end.tables.leases, p, end.now) <==>
            ip in last.routes && last.at + LeaseSeconds(last.routes[ip]) > end.now
  {
    var end := Final(s, events);
    RunTracks(s, events, p);
    LiveHas(end.tables.leases, p, end.now, ip);
  }

  /** Once the longest lifetime has passed since a pair's last effective report, it has no
      unexpired route. */
  lemma {:induction false} SilenceClearsRoutes(s: State, events: seq<Event>, p: Pair)
    requires forall row :: row in s.tables.leases ==> row.pair != p
    requires LastReport(s, events, p).at + MAX_LEASE_SECS <= Final(s, events).now
    ensures Live(Final(s, events).tables.leases, p, Final(s, events).now) == {}
  {
    var end := Final(s, events);
    forall ip ensures ip !in Live(end.tables.leases, p, end.now) { LiveIsLastReport(s, events, p, ip); }
  }

  /** A report that was blocked fails closed until the pair's next effective report. */
  lemma {:induction false} BlockedStaysClosed(s: State, before: seq<Event>, c: Context, p: Pair, report: Report,
                                              rest: seq<Event>)
    requires forall row :: row in s.tables.leases ==> row.pair != p
    requires |report.answers| <= MAX_ANSWERS && report.enabled && !report.failed && Accepted(c, report.answers).None?
    requires forall i :: 0 <= i < |rest| && rest[i].Receive? && rest[i].pair == p ==>
                           rest[i].report.enabled && rest[i].report.failed
    ensures var end := Final(s, before + [Receive(c, p, report)] + rest);
            Live(end.tables.leases, p, end.now) == {}
  {
    var run := before + [Receive(c, p, report)] + rest;
    LastStays(s, before + [Receive(c, p, report)], rest, p);
    assert (before + [Receive(c, p, report)])[..|before|] == before;
    var end := Final(s, run);
    forall ip ensures ip !in Live(end.tables.leases, p, end.now) { LiveIsLastReport(s, run, p, ip); }
  }

  lemma {:induction false} LastStays(s: State, before: seq<Event>, rest: seq<Event>, p: Pair)
    requires forall i :: 0 <= i < |rest| && rest[i].Receive? && rest[i].pair == p ==>
                           rest[i].report.enabled && rest[i].report.failed
    ensures LastReport(s, before + rest, p) == LastReport(s, before, p)
    decreases |rest|
  {
    if rest == [] {
      assert before + rest == before;
    } else {
      var n := |rest| - 1;
      LastStays(s, before, rest[..n], p);
      assert (before + rest)[..|before + rest| - 1] == before + rest[..n];
    }
  }
}
