/** The agent quota protocol: any number of gateways reserve tokens, settle usage and abandon
    requests against the coordinator's tables. An authorisation is two steps, the read of the
    tokens used and the conditional increment, and other steps may come between them. */
module Quota {
  import opened Options

  type KeyId = nat
  type Day = int

  const DAY_SECS: int := 86_400
  const DEFAULT_OUTPUT_TOKENS: int := 4096
  const PENDING_TIMEOUT_SECS: int := 15 * 60
  const METADATA_RETENTION_SECS: int := 90 * 86_400
  const MAX_REPORTED_TOKENS: int := 100_000_000

  function DayOf(at: int): Day {
    at / DAY_SECS
  }

  // ----- tables -----

  datatype Mode = Off | Metadata | Full

  datatype Policy = Policy(requestQuota: int, tokenQuota: int, maxRequestBytes: int, mode: Mode, revoked: bool)

  datatype Counter = Counter(requests: int, tokens: int)

  datatype Status = Pending | Finished | Abandoned

  datatype Request = Request(key: KeyId, model: string, day: Day, gateway: nat, status: Status,
                             reserved: int, startedAt: int, expiresAt: Option<int>)

  datatype Usage = Usage(requests: int, errors: int, prompt: int, completion: int)

  /** The quota and usage tables. Request ids are drawn in order. */
  datatype Tables = Tables(keys: map<KeyId, Policy>, quota: map<(KeyId, Day), Counter>,
                           requests: map<nat, Request>, usage: map<(KeyId, string, Day), Usage>)

  /** What an authorisation knows after it read the tokens used. */
  datatype Authorisation = Authorisation(
    key: KeyId, policy: Policy, day: Day, at: int, used: int, bytes: int, wanted: Option<int>,
    gateway: nat, model: string)

  function CounterOf(t: Tables, k: KeyId, d: Day): Counter {
    if (k, d) in t.quota then t.quota[(k, d)] else Counter(0, 0)
  }

  function UsageOf(t: Tables, k: KeyId, m: string, d: Day): Usage {
    if (k, m, d) in t.usage then t.usage[(k, m, d)] else Usage(0, 0, 0, 0)
  }

  // ----- deciding -----

  function PromptEstimate(bytes: int): int {
    (bytes + 3) / 4
  }

  /** Output tokens offered: what was asked for, or the default, within what is left. */
  function Output(a: Authorisation): int {
    var asked := if a.wanted.Some? && a.wanted.value > 0 then a.wanted.value else DEFAULT_OUTPUT_TOKENS;
    var left := a.policy.tokenQuota - a.used - PromptEstimate(a.bytes);
    if asked <= left then asked else left
  }

  function Reserve(a: Authorisation): int {
    PromptEstimate(a.bytes) + Output(a)
  }

  predicate MayAuthorise(t: Tables, k: KeyId, bytes: int) {
    k in t.keys && !t.keys[k].revoked && 0 <= bytes <= t.keys[k].maxRequestBytes
  }

  function ReadUsed(t: Tables, k: KeyId, at: int, bytes: int, wanted: Option<int>, gateway: nat, model: string)
    : Authorisation
    requires k in t.keys
  {
    Authorisation(k, t.keys[k], DayOf(at), at, CounterOf(t, k, DayOf(at)).tokens, bytes, wanted, gateway, model)
  }

  /** The guard of the conditional increment. */
  predicate Fits(t: Tables, a: Authorisation) {
    var c := CounterOf(t, a.key, a.day);
    Output(a) >= 1 && c.requests < a.policy.requestQuota && c.tokens + Reserve(a) <= a.policy.tokenQuota
  }

  function Granted(t: Tables, a: Authorisation, id: nat): Tables {
    var c := CounterOf(t, a.key, a.day);
    t.(quota := t.quota[(a.key, a.day) := Counter(c.requests + 1, c.tokens + Reserve(a))],
       requests := t.requests[id := Request(a.key, a.model, a.day, a.gateway, Pending, Reserve(a), a.at, None)])
  }

  // ----- settling -----

  predicate MaySettle(t: Tables, id: nat, gateway: nat, prompt: int, completion: int) {
    id in t.requests && t.requests[id].gateway == gateway && t.requests[id].key in t.keys
    && t.requests[id].status == Pending
    && 0 <= prompt <= MAX_REPORTED_TOKENS && 0 <= completion <= MAX_REPORTED_TOKENS
  }

  function QuotaSettled(quota: map<(KeyId, Day), Counter>, r: Request, tokens: int): map<(KeyId, Day), Counter> {
    if (r.key, r.day) in quota
    then quota[(r.key, r.day) := quota[(r.key, r.day)].(tokens := quota[(r.key, r.day)].tokens + (tokens - r.reserved))]
    else quota
  }

  function UsageSettled(usage: map<(KeyId, string, Day), Usage>, r: Request, prompt: int, completion: int, failed: bool)
    : map<(KeyId, string, Day), Usage>
  {
    var u := if (r.key, r.model, r.day) in usage then usage[(r.key, r.model, r.day)] else Usage(0, 0, 0, 0);
    usage[(r.key, r.model, r.day) :=
          Usage(u.requests + 1, u.errors + (if failed then 1 else 0), u.prompt + prompt, u.completion + completion)]
  }

  function RequestsSettled(requests: map<nat, Request>, id: nat, mode: Mode, at: int): map<nat, Request>
    requires id in requests
  {
    if mode == Off then requests - {id}
    else requests[id := requests[id].(status := Finished, expiresAt := Some(at + METADATA_RETENTION_SECS))]
  }

  function Settled(t: Tables, id: nat, prompt: int, completion: int, failed: bool, at: int): Tables
    requires id in t.requests && t.requests[id].key in t.keys
  {
    var r := t.requests[id];
    t.(quota := QuotaSettled(t.quota, r, prompt + completion),
       usage := UsageSettled(t.usage, r, prompt, completion, failed),
       requests := RequestsSettled(t.requests, id, t.keys[r.key].mode, at))
  }

  // ----- purging -----

  predicate Expired(r: Request, at: int) {
    r.expiresAt.Some? && r.expiresAt.value <= at
  }

  predicate TimedOut(r: Request, at: int) {
    r.status == Pending && r.startedAt <= at - PENDING_TIMEOUT_SECS
  }

  function Purged(t: Tables, at: int): Tables {
    t.(requests := map id | id in t.requests && !Expired(t.requests[id], at) ::
         if TimedOut(t.requests[id], at)
         then t.requests[id].(status := Abandoned, expiresAt := Some(at + METADATA_RETENTION_SECS))
         else t.requests[id])
  }

  // ----- runs -----

  datatype Fate = Open | Charged(prompt: int, completion: int, failed: bool) | Dropped

  /** One grant ever made. */
  datatype Grant = Grant(key: KeyId, model: string, day: Day, reserved: int, fate: Fate)

  /** `ledger` records every grant in order; no step reads it except to number the next one. */
  datatype State = State(t: Tables, clock: int, pending: map<nat, Authorisation>, ledger: seq<Grant>)

  datatype Event =
    | Tick(now: int)
    | SetPolicy(key: KeyId, policy: Policy)
    | Read(tx: nat, key: KeyId, bytes: int, wanted: Option<int>, gateway: nat, model: string)
    | Increment(tx: nat)
    | Refuse(tx: nat)
    | Settle(id: nat, gateway: nat, prompt: int, completion: int, failed: bool)
    | Purge

  predicate Enabled(s: State, e: Event) {
    match e
    case Tick(now) => s.clock <= now
    case SetPolicy(_, _) => true
    case Read(tx, k, bytes, _, _, _) => tx !in s.pending && MayAuthorise(s.t, k, bytes)
    case Increment(tx) => tx in s.pending && Fits(s.t, s.pending[tx])
    case Refuse(tx) => tx in s.pending
    case Settle(id, gateway, prompt, completion, _) => MaySettle(s.t, id, gateway, prompt, completion)
    case Purge => true
  }

  function Abandon(ledger: seq<Grant>, t: Tables, at: int): (r: seq<Grant>)
    ensures |r| == |ledger|
    ensures forall i :: 0 <= i < |ledger| ==>
              r[i] == if i in t.requests && TimedOut(t.requests[i], at) then ledger[i].(fate := Dropped) else ledger[i]
  {
    seq(|ledger|, i requires 0 <= i < |ledger| =>
      if i in t.requests && TimedOut(t.requests[i], at) then ledger[i].(fate := Dropped) else ledger[i])
  }

  function Apply(s: State, e: Event): State
    requires Enabled(s, e)
  {
    match e
    case Tick(now) => s.(clock := now)
    case SetPolicy(k, policy) => s.(t := s.t.(keys := s.t.keys[k := policy]))
    case Read(tx, k, bytes, wanted, gateway, model) =>
      s.(pending := s.pending[tx := ReadUsed(s.t, k, s.clock, bytes, wanted, gateway, model)])
    case Increment(tx) =>
      var a := s.pending[tx];
      s.(t := Granted(s.t, a, |s.ledger|), pending := s.pending - {tx},
         ledger := s.ledger + [Grant(a.key, a.model, a.day, Reserve(a), Open)])
    case Refuse(tx) => s.(pending := s.pending - {tx})
    case Settle(id, _, prompt, completion, failed) =>
      s.(t := Settled(s.t, id, prompt, completion, failed, s.clock),
         ledger := if id < |s.ledger| then s.ledger[id := s.ledger[id].(fate := Charged(prompt, completion, failed))]
                   else s.ledger)
    case Purge => s.(t := Purged(s.t, s.clock), ledger := Abandon(s.ledger, s.t, s.clock))
  }

  ghost predicate Init(s: State) {
    s.t.quota == map[] && s.t.requests == map[] && s.t.usage == map[] && s.pending == map[] && s.ledger == []
  }

  ghost predicate ValidRun(s: State, events: seq<Event>)
    decreases |events|
  {
    events == [] || (Enabled(s, events[0]) && ValidRun(Apply(s, events[0]), events[1..]))
  }

  ghost function Final(s: State, events: seq<Event>): State
    requires ValidRun(s, events)
    decreases |events|
  {
    if events == [] then s else Final(Apply(s, events[0]), events[1..])
  }

  // ----- the ledger -----

  /** What a grant costs its key's day: the usage reported, or the reservation until then. */
  function Cost(g: Grant): int {
    match g.fate
    case Charged(p, c, _) => p + c
    case _ => g.reserved
  }

  function CostFor(g: Grant, k: KeyId, d: Day): int {
    if g.key == k && g.day == d then Cost(g) else 0
  }

  /** The tokens the grants of one key and day cost. */
  function Spent(ledger: seq<Grant>, k: KeyId, d: Day): int {
    if ledger == [] then 0 else Spent(ledger[..|ledger| - 1], k, d) + CostFor(ledger[|ledger| - 1], k, d)
  }

  function GrantsFor(ledger: seq<Grant>, k: KeyId, d: Day): int {
    if ledger == [] then 0
    else GrantsFor(ledger[..|ledger| - 1], k, d)
         + if ledger[|ledger| - 1].key == k && ledger[|ledger| - 1].day == d then 1 else 0
  }

  function UsedBy(g: Grant, k: KeyId, m: string, d: Day): Usage {
    if g.key == k && g.model == m && g.day == d && g.fate.Charged?
    then Usage(1, if g.fate.failed then 1 else 0, g.fate.prompt, g.fate.completion)
    else Usage(0, 0, 0, 0)
  }

  function AddUsage(x: Usage, y: Usage): Usage {
    Usage(x.requests + y.requests, x.errors + y.errors, x.prompt + y.prompt, x.completion + y.completion)
  }

  /** The settled usage of one key, model and day. */
  function SettledUsage(ledger: seq<Grant>, k: KeyId, m: string, d: Day): Usage {
    if ledger == [] then Usage(0, 0, 0, 0)
    else AddUsage(SettledUsage(ledger[..|ledger| - 1], k, m, d), UsedBy(ledger[|ledger| - 1], k, m, d))
  }

  lemma {:induction false} SpentUpdate(ledger: seq<Grant>, i: nat, g: Grant, k: KeyId, d: Day)
    requires i < |ledger|
    ensures Spent(ledger[i := g], k, d) == Spent(ledger, k, d) - CostFor(ledger[i], k, d) + CostFor(g, k, d)
  {
    var last := |ledger| - 1;
    if i < last {
      SpentUpdate(ledger[..last], i, g, k, d);
      assert ledger[i := g][..last] == ledger[..last][i := g];
    } else {
      assert ledger[i := g][..last] == ledger[..last];
    }
  }

  lemma {:induction false} GrantsUpdate(ledger: seq<Grant>, i: nat, g: Grant, k: KeyId, d: Day)
    requires i < |ledger| && g.key == ledger[i].key && g.day == ledger[i].day
    ensures GrantsFor(ledger[i := g], k, d) == GrantsFor(ledger, k, d)
  {
    var last := |ledger| - 1;
    if i < last {
      GrantsUpdate(ledger[..last], i, g, k, d);
      assert ledger[i := g][..last] == ledger[..last][i := g];
    } else {
      assert ledger[i := g][..last] == ledger[..last];
    }
  }

  lemma {:induction false} UsageUpdate(ledger: seq<Grant>, i: nat, g: Grant, k: KeyId, m: string, d: Day)
    requires i < |ledger| && ledger[i].fate.Open?
    ensures SettledUsage(ledger[i := g], k, m, d) == AddUsage(SettledUsage(ledger, k, m, d), UsedBy(g, k, m, d))
  {
    var last := |ledger| - 1;
    if i < last {
      UsageUpdate(ledger[..last], i, g, k, m, d);
      assert ledger[i := g][..last] == ledger[..last][i := g];
    } else {
      assert ledger[i := g][..last] == ledger[..last];
    }
  }

  /** Dropping open grants changes no sum: the reservation stays charged. */
  lemma {:induction false} DroppedKeepSums(x: seq<Grant>, y: seq<Grant>, k: KeyId, m: string, d: Day)
    requires OnlyDrops(x, y)
    ensures Spent(x, k, d) == Spent(y, k, d) && GrantsFor(x, k, d) == GrantsFor(y, k, d)
    ensures SettledUsage(x, k, m, d) == SettledUsage(y, k, m, d)
  {
    if x != [] { DroppedKeepSums(x[..|x| - 1], y[..|y| - 1], k, m, d); }
  }

  // ----- what every step keeps -----

  /** A day's counter is the cost of its grants, and the usage table is the settled part. */
  ghost predicate Conserved(s: State) {
    (forall k, d :: CounterOf(s.t, k, d) == Counter(GrantsFor(s.ledger, k, d), Spent(s.ledger, k, d)))
    && (forall k, m, d :: UsageOf(s.t, k, m, d) == SettledUsage(s.ledger, k, m, d))
  }

  /** A request row is its grant. */
  ghost predicate RowMatches(r: Request, g: Grant) {
    g.key == r.key && g.model == r.model && g.day == r.day && g.reserved == r.reserved
    && (r.status == Pending <==> g.fate.Open?) && (r.status == Abandoned <==> g.fate.Dropped?)
    && (r.expiresAt.None? <==> r.status == Pending)
  }

  /** Every row is a grant's, and an open grant still has its row and its day's counter. */
  ghost predicate RowsOk(s: State) {
    (forall id :: id in s.t.requests ==> id < |s.ledger| && RowMatches(s.t.requests[id], s.ledger[id]))
    && (forall id :: 0 <= id < |s.ledger| && s.ledger[id].fate.Open? ==> id in s.t.requests)
    && (forall id :: 0 <= id < |s.ledger| ==> (s.ledger[id].key, s.ledger[id].day) in s.t.quota)
    && (forall tx :: tx in s.pending ==> s.pending[tx].bytes >= 0)
    && (forall id :: 0 <= id < |s.ledger| ==> s.ledger[id].reserved >= 1 && Cost(s.ledger[id]) >= 0)
  }

  ghost predicate Inv(s: State) {
    Conserved(s) && RowsOk(s)
  }

  lemma GrantKeepsConserved(s: State, tx: nat)
    requires Conserved(s) && tx in s.pending && Fits(s.t, s.pending[tx])
    ensures Conserved(Apply(s, Increment(tx)))
  {
    var s', a := Apply(s, Increment(tx)), s.pending[tx];
    assert s'.ledger[..|s'.ledger| - 1] == s.ledger;
    forall k, d ensures CounterOf(s'.t, k, d) == Counter(GrantsFor(s'.ledger, k, d), Spent(s'.ledger, k, d)) {
      assert CounterOf(s.t, k, d) == Counter(GrantsFor(s.ledger, k, d), Spent(s.ledger, k, d));
    }
    forall k, m, d ensures UsageOf(s'.t, k, m, d) == SettledUsage(s'.ledger, k, m, d) {
      assert UsageOf(s.t, k, m, d) == SettledUsage(s.ledger, k, m, d);
    }
  }

  lemma GrantKeepsRows(s: State, tx: nat)
    requires RowsOk(s) && tx in s.pending && Fits(s.t, s.pending[tx])
    ensures RowsOk(Apply(s, Increment(tx)))
  {
    var s', a := Apply(s, Increment(tx)), s.pending[tx];
    assert Reserve(a) >= 1;
    forall id | id in s'.t.requests ensures id < |s'.ledger| && RowMatches(s'.t.requests[id], s'.ledger[id]) {
      if id != |s.ledger| { assert RowMatches(s.t.requests[id], s.ledger[id]); }
    }
  }

  /** One settlement moves one counter from the reservation to the usage reported. */
  lemma SettleKeepsCounters(t: Tables, ledger: seq<Grant>, id: nat, prompt: int, completion: int, failed: bool, at: int,
                            k: KeyId, d: Day)
    requires id in t.requests && id < |ledger| && t.requests[id].key in t.keys && RowMatches(t.requests[id], ledger[id])
    requires (ledger[id].key, ledger[id].day) in t.quota && ledger[id].fate.Open?
    requires CounterOf(t, k, d) == Counter(GrantsFor(ledger, k, d), Spent(ledger, k, d))
    ensures var ledger' := ledger[id := ledger[id].(fate := Charged(prompt, completion, failed))];
            CounterOf(Settled(t, id, prompt, completion, failed, at), k, d)
            == Counter(GrantsFor(ledger', k, d), Spent(ledger', k, d))
  {
    var g := ledger[id].(fate := Charged(prompt, completion, failed));
    SpentUpdate(ledger, id, g, k, d);
    GrantsUpdate(ledger, id, g, k, d);
  }

  lemma SettleKeepsUsage(t: Tables, ledger: seq<Grant>, id: nat, prompt: int, completion: int, failed: bool, at: int,
                         k: KeyId, m: string, d: Day)
    requires id in t.requests && id < |ledger| && t.requests[id].key in t.keys && RowMatches(t.requests[id], ledger[id])
    requires ledger[id].fate.Open?
    requires UsageOf(t, k, m, d) == SettledUsage(ledger, k, m, d)
    ensures var ledger' := ledger[id := ledger[id].(fate := Charged(prompt, completion, failed))];
            UsageOf(Settled(t, id, prompt, completion, failed, at), k, m, d) == SettledUsage(ledger', k, m, d)
  {
    UsageUpdate(ledger, id, ledger[id].(fate := Charged(prompt, completion, failed)), k, m, d);
  }

  lemma SettleKeepsConserved(s: State, e: Event)
    requires Inv(s) && e.Settle? && Enabled(s, e)
    ensures Conserved(Apply(s, e))
  {
    var s' := Apply(s, e);
    assert RowMatches(s.t.requests[e.id], s.ledger[e.id]);
    forall k, d ensures CounterOf(s'.t, k, d) == Counter(GrantsFor(s'.ledger, k, d), Spent(s'.ledger, k, d)) {
      SettleKeepsCounters(s.t, s.ledger, e.id, e.prompt, e.completion, e.failed, s.clock, k, d);
    }
    forall k, m, d ensures UsageOf(s'.t, k, m, d) == SettledUsage(s'.ledger, k, m, d) {
      SettleKeepsUsage(s.t, s.ledger, e.id, e.prompt, e.completion, e.failed, s.clock, k, m, d);
    }
  }

  lemma SettleKeepsRows(s: State, e: Event)
    requires RowsOk(s) && e.Settle? && Enabled(s, e)
    ensures RowsOk(Apply(s, e))
  {
    var s' := Apply(s, e);
    assert RowMatches(s.t.requests[e.id], s.ledger[e.id]);
    forall id | id in s'.t.requests ensures id < |s'.ledger| && RowMatches(s'.t.requests[id], s'.ledger[id]) {
      assert RowMatches(s.t.requests[id], s.ledger[id]);
    }
    forall id | 0 <= id < |s'.ledger|
      ensures (s'.ledger[id].key, s'.ledger[id].day) in s'.t.quota && (s'.ledger[id].fate.Open? ==> id in s'.t.requests)
    {
      assert (s.ledger[id].key, s.ledger[id].day) in s.t.quota;
    }
  }

  ghost predicate OnlyDrops(x: seq<Grant>, y: seq<Grant>) {
    |x| == |y|
    && forall i :: 0 <= i < |x| ==> y[i] == x[i] || (x[i].fate.Open? && y[i] == x[i].(fate := Dropped))
  }

  lemma PurgeOnlyDrops(s: State)
    requires RowsOk(s)
    ensures OnlyDrops(s.ledger, Abandon(s.ledger, s.t, s.clock))
  {
    forall i | 0 <= i < |s.ledger| && i in s.t.requests ensures RowMatches(s.t.requests[i], s.ledger[i]) {
    }
  }

  lemma DropsKeepConserved(s: State, s': State)
    requires Conserved(s) && s'.t.quota == s.t.quota && s'.t.usage == s.t.usage && OnlyDrops(s.ledger, s'.ledger)
    ensures Conserved(s')
  {
    forall k, d ensures CounterOf(s'.t, k, d) == Counter(GrantsFor(s'.ledger, k, d), Spent(s'.ledger, k, d)) {
      DroppedKeepSums(s.ledger, s'.ledger, k, "", d);
      assert CounterOf(s'.t, k, d) == CounterOf(s.t, k, d);
    }
    forall k, m, d ensures UsageOf(s'.t, k, m, d) == SettledUsage(s'.ledger, k, m, d) {
      DroppedKeepSums(s.ledger, s'.ledger, k, m, d);
      assert UsageOf(s'.t, k, m, d) == UsageOf(s.t, k, m, d);
    }
  }

  lemma PurgeKeepsRows(s: State)
    requires RowsOk(s)
    ensures RowsOk(Apply(s, Purge))
  {
    var s' := Apply(s, Purge);
    PurgeOnlyDrops(s);
    forall id | id in s'.t.requests ensures id < |s'.ledger| && RowMatches(s'.t.requests[id], s'.ledger[id]) {
      assert RowMatches(s.t.requests[id], s.ledger[id]);
    }
    forall id | 0 <= id < |s'.ledger| && s'.ledger[id].fate.Open? ensures id in s'.t.requests {
      assert RowMatches(s.t.requests[id], s.ledger[id]);
    }
  }

  lemma QuietStepKeeps(s: State, e: Event)
    requires Inv(s) && Enabled(s, e) && (e.Tick? || e.SetPolicy? || e.Read? || e.Refuse?)
    ensures Inv(Apply(s, e))
  {
    var s' := Apply(s, e);
    assert s'.ledger == s.ledger && s'.t.quota == s.t.quota && s'.t.usage == s.t.usage && s'.t.requests == s.t.requests;
    forall k, d ensures CounterOf(s'.t, k, d) == CounterOf(s.t, k, d) {}
    forall k, m, d ensures UsageOf(s'.t, k, m, d) == UsageOf(s.t, k, m, d) {}
  }

  lemma StepKeeps(s: State, e: Event)
    requires Inv(s) && Enabled(s, e)
    ensures Inv(Apply(s, e))
  {
    match e
    case Increment(tx) => GrantKeepsConserved(s, tx); GrantKeepsRows(s, tx);
    case Settle(_, _, _, _, _) => SettleKeepsConserved(s, e); SettleKeepsRows(s, e);
    case Purge => PurgeOnlyDrops(s); DropsKeepConserved(s, Apply(s, e)); PurgeKeepsRows(s);
    case _ => QuietStepKeeps(s, e);
  }

  lemma {:induction false} RunKeeps(s: State, events: seq<Event>)
    requires Inv(s) && ValidRun(s, events)
    ensures Inv(Final(s, events))
    decreases |events|
  {
    if events != [] {
      StepKeeps(s, events[0]);
      RunKeeps(Apply(s, events[0]), events[1..]);
    }
  }
}
