/** What the quota protocol guarantees over whole runs. */
module QuotaTheorems {
  import opened Options
  import opened Quota

  /** In every reachable state a key's day counter is the settled usage of its grants plus the
      reservations of its open and abandoned ones, the request counter is their number, the
      usage table is the settled part per model, and no counter is negative. */
  lemma {:induction false} LedgerIsConserved(s: State, events: seq<Event>, k: KeyId, d: Day)
    requires Init(s) && ValidRun(s, events)
    ensures var f := Final(s, events);
            CounterOf(f.t, k, d).tokens == Spent(f.ledger, k, d) >= 0
            && CounterOf(f.t, k, d).requests == GrantsFor(f.ledger, k, d) >= 0
            && forall m :: UsageOf(f.t, k, m, d) == SettledUsage(f.ledger, k, m, d)
  {
    RunKeeps(s, events);
    var f := Final(s, events);
    SpentIsNatural(f.ledger, k, d);
  }

  lemma {:induction false} SpentIsNatural(ledger: seq<Grant>, k: KeyId, d: Day)
    requires forall i :: 0 <= i < |ledger| ==> Cost(ledger[i]) >= 0
    ensures Spent(ledger, k, d) >= 0 && GrantsFor(ledger, k, d) >= 0
  {
    if ledger != [] { SpentIsNatural(ledger[..|ledger| - 1], k, d); }
  }

  // ----- per-model totals -----

  function SettledCost(g: Grant, k: KeyId, d: Day): int {
    if g.fate.Charged? then CostFor(g, k, d) else 0
  }

  /** The settled part of a key's day. */
  function SettledSpent(ledger: seq<Grant>, k: KeyId, d: Day): int {
    if ledger == [] then 0 else SettledSpent(ledger[..|ledger| - 1], k, d) + SettledCost(ledger[|ledger| - 1], k, d)
  }

  /** The reservations of a key's day that were not settled. */
  function Unsettled(ledger: seq<Grant>, k: KeyId, d: Day): int {
    if ledger == [] then 0
    else Unsettled(ledger[..|ledger| - 1], k, d)
         + var g := ledger[|ledger| - 1]; if g.key == k && g.day == d && !g.fate.Charged? then g.reserved else 0
  }

  function TotalOver(t: Tables, k: KeyId, models: seq<string>, d: Day): int {
    if models == [] then 0
    else TotalOver(t, k, models[1..], d) + UsageOf(t, k, models[0], d).prompt + UsageOf(t, k, models[0], d).completion
  }

  function LedgerTotalOver(ledger: seq<Grant>, k: KeyId, models: seq<string>, d: Day): int {
    if models == [] then 0
    else LedgerTotalOver(ledger, k, models[1..], d)
         + SettledUsage(ledger, k, models[0], d).prompt + SettledUsage(ledger, k, models[0], d).completion
  }

  function OneOver(g: Grant, k: KeyId, models: seq<string>, d: Day): int {
    if models == [] then 0
    else OneOver(g, k, models[1..], d) + UsedBy(g, k, models[0], d).prompt + UsedBy(g, k, models[0], d).completion
  }

  ghost predicate Distinct(models: seq<string>) {
    forall i, j :: 0 <= i < j < |models| ==> models[i] != models[j]
  }

  lemma {:induction false} SpentSplits(ledger: seq<Grant>, k: KeyId, d: Day)
    ensures Spent(ledger, k, d) == SettledSpent(ledger, k, d) + Unsettled(ledger, k, d)
  {
    if ledger != [] { SpentSplits(ledger[..|ledger| - 1], k, d); }
  }

  lemma {:induction false} OneOverMeaning(g: Grant, k: KeyId, models: seq<string>, d: Day)
    requires Distinct(models)
    ensures OneOver(g, k, models, d) == if g.model in models then SettledCost(g, k, d) else 0
  {
    if models != [] {
      assert forall i, j :: 0 <= i < j < |models[1..]| ==>
                              models[1..][i] == models[i + 1] && models[1..][j] == models[j + 1];
      assert models[0] !in models[1..];
      OneOverMeaning(g, k, models[1..], d);
    }
  }

  lemma {:induction false} LedgerTotalStep(ledger: seq<Grant>, k: KeyId, models: seq<string>, d: Day)
    requires ledger != []
    ensures LedgerTotalOver(ledger, k, models, d)
            == LedgerTotalOver(ledger[..|ledger| - 1], k, models, d) + OneOver(ledger[|ledger| - 1], k, models, d)
  {
    if models != [] { LedgerTotalStep(ledger, k, models[1..], d); }
  }

  lemma {:induction false} EmptyLedgerTotal(k: KeyId, models: seq<string>, d: Day)
    ensures LedgerTotalOver([], k, models, d) == 0
  {
    if models != [] { EmptyLedgerTotal(k, models[1..], d); }
  }

  lemma {:induction false} ModelsCoverSettled(ledger: seq<Grant>, k: KeyId, models: seq<string>, d: Day)
    requires Distinct(models)
    requires forall i :: 0 <= i < |ledger| && ledger[i].fate.Charged? ==> ledger[i].model in models
    ensures LedgerTotalOver(ledger, k, models, d) == SettledSpent(ledger, k, d)
  {
    if ledger == [] {
      EmptyLedgerTotal(k, models, d);
    } else {
      ModelsCoverSettled(ledger[..|ledger| - 1], k, models, d);
      LedgerTotalStep(ledger, k, models, d);
      OneOverMeaning(ledger[|ledger| - 1], k, models, d);
    }
  }

  lemma {:induction false} TotalsAgree(s: State, k: KeyId, models: seq<string>, d: Day)
    requires Conserved(s)
    ensures TotalOver(s.t, k, models, d) == LedgerTotalOver(s.ledger, k, models, d)
  {
    if models != [] { TotalsAgree(s, k, models[1..], d); }
  }

  /** The per-model totals of a key's day, over all models ever settled, plus the reservations
      not settled, are exactly the tokens its counter holds. */
  lemma {:induction false} ModelTotalsAreCounter(s: State, events: seq<Event>, k: KeyId, models: seq<string>, d: Day)
    requires Init(s) && ValidRun(s, events) && Distinct(models)
    requires forall i :: 0 <= i < |Final(s, events).ledger| && Final(s, events).ledger[i].fate.Charged? ==>
                           Final(s, events).ledger[i].model in models
    ensures var f := Final(s, events);
            CounterOf(f.t, k, d).tokens == TotalOver(f.t, k, models, d) + Unsettled(f.ledger, k, d)
  {
    RunKeeps(s, events);
    var f := Final(s, events);
    assert CounterOf(f.t, k, d).tokens == Spent(f.ledger, k, d);
    SpentSplits(f.ledger, k, d);
    ModelsCoverSettled(f.ledger, k, models, d);
    TotalsAgree(f, k, models, d);
  }

  // ----- quotas -----

  /** The day is within the quotas the key has now. */
  predicate WithinQuotasInForce(s: State, k: KeyId, d: Day) {
    k in s.t.keys && CounterOf(s.t, k, d).requests <= s.t.keys[k].requestQuota
    && CounterOf(s.t, k, d).tokens <= s.t.keys[k].tokenQuota
  }

  /** No policy change in the run lowers a quota of the key. */
  ghost predicate NeverLowered(s: State, events: seq<Event>, k: KeyId)
    requires ValidRun(s, events)
    decreases |events|
  {
    events == []
    || ((events[0].SetPolicy? && events[0].key == k && k in s.t.keys ==>
           s.t.keys[k].requestQuota <= events[0].policy.requestQuota
           && s.t.keys[k].tokenQuota <= events[0].policy.tokenQuota)
        && NeverLowered(Apply(s, events[0]), events[1..], k))
  }

  /** What the authorisation read is no more than the key's quotas now. */
  predicate ReadIsCovered(s: State, tx: nat, k: KeyId) {
    tx in s.pending && s.pending[tx].key == k ==>
      k in s.t.keys && s.pending[tx].policy.requestQuota <= s.t.keys[k].requestQuota
      && s.pending[tx].policy.tokenQuota <= s.t.keys[k].tokenQuota
  }

  lemma {:induction false} RunKeepsCovered(s: State, events: seq<Event>, tx: nat, k: KeyId)
    requires ReadIsCovered(s, tx, k) && ValidRun(s, events) && NeverLowered(s, events, k)
    ensures ReadIsCovered(Final(s, events), tx, k)
    decreases |events|
  {
    if events != [] { RunKeepsCovered(Apply(s, events[0]), events[1..], tx, k); }
  }

  /** Right after a grant the day is within the quotas in force, whatever came between the read
      and the increment, as long as nothing lowered the key's quotas there. */
  lemma {:induction false} GrantIsWithinQuotasInForce(s: State, read: Event, events: seq<Event>)
    requires read.Read? && Enabled(s, read) && ValidRun(Apply(s, read), events)
    requires NeverLowered(Apply(s, read), events, read.key)
    requires Enabled(Final(Apply(s, read), events), Increment(read.tx))
    requires Final(Apply(s, read), events).pending[read.tx].key == read.key
    ensures var f := Final(Apply(s, read), events);
            WithinQuotasInForce(Apply(f, Increment(read.tx)), read.key, f.pending[read.tx].day)
  {
    RunKeepsCovered(Apply(s, read), events, read.tx, read.key);
  }

  /** A policy written between the read and the increment does not stop the grant: the day is
      then within the new quotas exactly when they cover the counter with the reservation. */
  lemma {:induction false} GrantAfterPolicyChange(s: State, tx: nat, policy: Policy)
    requires Enabled(s, Increment(tx))
    ensures var a := s.pending[tx];
            var s1 := Apply(s, SetPolicy(a.key, policy));
            var c := CounterOf(s.t, a.key, a.day);
            Enabled(s1, Increment(tx))
            && (WithinQuotasInForce(Apply(s1, Increment(tx)), a.key, a.day) <==>
                c.requests + 1 <= policy.requestQuota && c.tokens + Reserve(a) <= policy.tokenQuota)
  {
  }

  const TWO_REQUESTS := Policy(2, 10_000, 100, Metadata, false)
  const ONE_REQUEST := Policy(1, 10_000, 100, Metadata, false)
  const EMPTY := State(Tables(map[], map[], map[], map[]), 0, map[], [])

  /** A small request with key 1, as transaction `tx`. */
  function SmallRead(tx: nat): Event {
    Read(tx, 1, 4, Some(10), 1, "m")
  }

  ghost predicate OneGranted(s: State) {
    s.t.keys == map[1 := TWO_REQUESTS] && s.clock == 0 && s.pending == map[] && CounterOf(s.t, 1, 0) == Counter(1, 11)
  }

  lemma {:induction false} FirstGrant() returns (s1: State, s2: State, s3: State)
    ensures Enabled(EMPTY, SetPolicy(1, TWO_REQUESTS)) && s1 == Apply(EMPTY, SetPolicy(1, TWO_REQUESTS))
    ensures Enabled(s1, SmallRead(1)) && s2 == Apply(s1, SmallRead(1))
    ensures Enabled(s2, Increment(1)) && s3 == Apply(s2, Increment(1)) && OneGranted(s3)
  {
    s1 := Apply(EMPTY, SetPolicy(1, TWO_REQUESTS));
    s2 := Apply(s1, SmallRead(1));
    s3 := Apply(s2, Increment(1));
  }

  lemma {:induction false} SecondGrant(s3: State) returns (s4: State, s5: State, s6: State)
    requires OneGranted(s3)
    ensures Enabled(s3, SmallRead(2)) && s4 == Apply(s3, SmallRead(2))
    ensures Enabled(s4, SetPolicy(1, ONE_REQUEST)) && s5 == Apply(s4, SetPolicy(1, ONE_REQUEST))
    ensures Enabled(s5, Increment(2)) && s6 == Apply(s5, Increment(2)) && !WithinQuotasInForce(s6, 1, 0)
  {
    s4 := Apply(s3, SmallRead(2));
    s5 := Apply(s4, SetPolicy(1, ONE_REQUEST));
    s6 := Apply(s5, Increment(2));
  }

  /** A run from empty tables that ends over the quotas in force: the quota is lowered to one
      request while a second one, read under a quota of two, is on its way. */
  lemma {:induction false} LoweredQuotaIsOverrun()
    ensures var events := [SetPolicy(1, TWO_REQUESTS), SmallRead(1), Increment(1),
                           SmallRead(2), SetPolicy(1, ONE_REQUEST), Increment(2)];
            Init(EMPTY) && ValidRun(EMPTY, events) && !WithinQuotasInForce(Final(EMPTY, events), 1, 0)
  {
    var events := [SetPolicy(1, TWO_REQUESTS), SmallRead(1), Increment(1),
                   SmallRead(2), SetPolicy(1, ONE_REQUEST), Increment(2)];
    var s1, s2, s3 := FirstGrant();
    var s4, s5, s6 := SecondGrant(s3);
    RunOfSix(EMPTY, events, s1, s2, s3, s4, s5, s6);
  }

  lemma {:induction false} RunOfSix(s: State, e: seq<Event>, s1: State, s2: State, s3: State, s4: State, s5: State,
                                    s6: State)
    requires |e| == 6
    requires Enabled(s, e[0]) && s1 == Apply(s, e[0]) && Enabled(s1, e[1]) && s2 == Apply(s1, e[1])
    requires Enabled(s2, e[2]) && s3 == Apply(s2, e[2]) && Enabled(s3, e[3]) && s4 == Apply(s3, e[3])
    requires Enabled(s4, e[4]) && s5 == Apply(s4, e[4]) && Enabled(s5, e[5]) && s6 == Apply(s5, e[5])
    ensures ValidRun(s, e) && Final(s, e) == s6
  {
    LastStep(s5, e[5..]);
    ConsRun(s4, e[4..]);
    ConsRun(s3, e[3..]);
    ConsRun(s2, e[2..]);
    ConsRun(s1, e[1..]);
    ConsRun(s, e);
  }

  lemma {:induction false} LastStep(s: State, e: seq<Event>)
    requires |e| == 1 && Enabled(s, e[0])
    ensures ValidRun(s, e) && Final(s, e) == Apply(s, e[0])
  {
    assert e[1..] == [];
  }

  lemma {:induction false} ConsRun(s: State, e: seq<Event>)
    requires e != [] && Enabled(s, e[0]) && ValidRun(Apply(s, e[0]), e[1..])
    ensures ValidRun(s, e) && Final(s, e) == Final(Apply(s, e[0]), e[1..])
  {
  }

  /** Settlements report no more than was reserved, and the key's quotas do not change. */
  ghost predicate Modest(s: State, events: seq<Event>, k: KeyId, requests: int, tokens: int)
    requires ValidRun(s, events)
    decreases |events|
  {
    events == []
    || ((events[0].Settle? && events[0].id < |s.ledger| ==>
           events[0].prompt + events[0].completion <= s.ledger[events[0].id].reserved)
        && (events[0].SetPolicy? && events[0].key == k ==>
              events[0].policy.requestQuota == requests && events[0].policy.tokenQuota == tokens)
        && Modest(Apply(s, events[0]), events[1..], k, requests, tokens))
  }

  ghost predicate WithinQuota(s: State, k: KeyId, requests: int, tokens: int) {
    (forall d :: CounterOf(s.t, k, d).requests <= requests && CounterOf(s.t, k, d).tokens <= tokens)
    && (forall tx :: tx in s.pending && s.pending[tx].key == k ==>
          s.pending[tx].policy.requestQuota == requests && s.pending[tx].policy.tokenQuota == tokens)
    && (k in s.t.keys ==> s.t.keys[k].requestQuota == requests && s.t.keys[k].tokenQuota == tokens)
  }

  lemma SettleStaysWithin(s: State, e: Event, k: KeyId, requests: int, tokens: int)
    requires Inv(s) && WithinQuota(s, k, requests, tokens) && e.Settle? && Enabled(s, e)
    requires e.prompt + e.completion <= s.ledger[e.id].reserved
    ensures WithinQuota(Apply(s, e), k, requests, tokens)
  {
    assert RowMatches(s.t.requests[e.id], s.ledger[e.id]);
    var s' := Apply(s, e);
    forall d ensures CounterOf(s'.t, k, d).requests <= requests && CounterOf(s'.t, k, d).tokens <= tokens {
      assert CounterOf(s.t, k, d).requests <= requests && CounterOf(s.t, k, d).tokens <= tokens;
    }
  }

  lemma StepStaysWithin(s: State, e: Event, k: KeyId, requests: int, tokens: int)
    requires Inv(s) && WithinQuota(s, k, requests, tokens) && Enabled(s, e)
    requires e.Settle? ==> e.prompt + e.completion <= s.ledger[e.id].reserved
    requires e.SetPolicy? && e.key == k ==> e.policy.requestQuota == requests && e.policy.tokenQuota == tokens
    ensures WithinQuota(Apply(s, e), k, requests, tokens)
  {
    if e.Settle? {
      SettleStaysWithin(s, e, k, requests, tokens);
    } else {
      var s' := Apply(s, e);
      forall d ensures CounterOf(s'.t, k, d).requests <= requests && CounterOf(s'.t, k, d).tokens <= tokens {
        assert CounterOf(s.t, k, d).requests <= requests && CounterOf(s.t, k, d).tokens <= tokens;
      }
    }
  }

  /** With fixed quotas and settlements within their reservations, no day of the key is over
      its quotas in any reachable state. */
  lemma {:induction false} NeverOverQuota(s: State, events: seq<Event>, k: KeyId, requests: int, tokens: int)
    requires Inv(s) && WithinQuota(s, k, requests, tokens)
    requires ValidRun(s, events) && Modest(s, events, k, requests, tokens)
    ensures WithinQuota(Final(s, events), k, requests, tokens)
    decreases |events|
  {
    if events != [] {
      StepStaysWithin(s, events[0], k, requests, tokens);
      StepKeeps(s, events[0]);
      NeverOverQuota(Apply(s, events[0]), events[1..], k, requests, tokens);
    }
  }

  /** From empty tables, with the key's quotas fixed throughout, the same holds. */
  lemma {:induction false} NeverOverQuotaFromStart(s: State, events: seq<Event>, k: KeyId, requests: int, tokens: int)
    requires Init(s) && 0 <= requests && 0 <= tokens
    requires k in s.t.keys ==> s.t.keys[k].requestQuota == requests && s.t.keys[k].tokenQuota == tokens
    requires ValidRun(s, events) && Modest(s, events, k, requests, tokens)
    ensures forall d :: CounterOf(Final(s, events).t, k, d).requests <= requests
                        && CounterOf(Final(s, events).t, k, d).tokens <= tokens
  {
    NeverOverQuota(s, events, k, requests, tokens);
  }

  // ----- settling once -----

  /** A grant that was settled or abandoned never changes again, so its usage cannot be
      recorded a second time, whoever retries. */
  lemma {:induction false} ClosedStaysClosed(s: State, events: seq<Event>, id: nat)
    requires Inv(s) && ValidRun(s, events) && id < |s.ledger| && !s.ledger[id].fate.Open?
    ensures id < |Final(s, events).ledger| && Final(s, events).ledger[id] == s.ledger[id]
    ensures forall gateway, prompt, completion, failed ::
              !Enabled(Final(s, events), Settle(id, gateway, prompt, completion, failed))
    decreases |events|
  {
    if events == [] {
      if id in s.t.requests { assert RowMatches(s.t.requests[id], s.ledger[id]); }
    } else {
      var e := events[0];
      StepKeeps(s, e);
      if e.Settle? { assert RowMatches(s.t.requests[e.id], s.ledger[e.id]); }
      if id in s.t.requests { assert RowMatches(s.t.requests[id], s.ledger[id]); }
      ClosedStaysClosed(Apply(s, e), events[1..], id);
    }
  }

  /** The number of settlements of one grant in a run. */
  ghost function Settlements(events: seq<Event>, id: nat): nat {
    if events == [] then 0
    else (if events[0].Settle? && events[0].id == id then 1 else 0) + Settlements(events[1..], id)
  }

  lemma {:induction false} SettledAtMostOnce(s: State, events: seq<Event>, id: nat)
    requires Inv(s) && ValidRun(s, events)
    ensures Settlements(events, id) <= 1
    ensures id < |s.ledger| && !s.ledger[id].fate.Open? ==> Settlements(events, id) == 0
    decreases |events|
  {
    if events != [] {
      var e := events[0];
      var s' := Apply(s, e);
      StepKeeps(s, e);
      SettledAtMostOnce(s', events[1..], id);
      if e.Settle? { assert RowMatches(s.t.requests[e.id], s.ledger[e.id]); }
      if id < |s.ledger| && !s.ledger[id].fate.Open? {
        ClosedStaysClosed(s, [], id);
        OneStepKeepsClosed(s, e, id);
      }
    }
  }

  lemma OneStepKeepsClosed(s: State, e: Event, id: nat)
    requires Inv(s) && Enabled(s, e) && id < |s.ledger| && !s.ledger[id].fate.Open?
    ensures id < |Apply(s, e).ledger| && Apply(s, e).ledger[id] == s.ledger[id]
  {
    if id in s.t.requests { assert RowMatches(s.t.requests[id], s.ledger[id]); }
    if e.Settle? { assert RowMatches(s.t.requests[e.id], s.ledger[e.id]); }
  }

  /** Settlement charges the day of the reservation, whatever the clock says, and no other. */
  lemma SettleChargesItsDay(s: State, e: Event, k: KeyId, d: Day)
    requires Inv(s) && e.Settle? && Enabled(s, e)
    ensures e.id < |s.ledger|
    ensures var g := s.ledger[e.id];
            CounterOf(Apply(s, e).t, k, d).tokens - CounterOf(s.t, k, d).tokens
            == if k == g.key && d == g.day then e.prompt + e.completion - g.reserved else 0
  {
    assert RowMatches(s.t.requests[e.id], s.ledger[e.id]);
  }
}
