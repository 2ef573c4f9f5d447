/** The agent tables as one request to the coordinator updates them. */
module QuotaStore {
  import opened Quota
  import opened Options
  import Providers

  /** The calling device, if its address is an active device's. */
  datatype Caller = Caller(node: nat, suspended: bool)

  /** A request to use a model. `modelIsValid` is the verdict on the model text. */
  datatype Ask = Ask(caller: Option<Caller>, bytes: int, model: string, modelIsValid: bool, wanted: Option<int>,
                     gateway: nat)

  /** What a key's policy restricts besides its quotas. */
  datatype Limits = Limits(boundTo: Option<nat>, allowed: Providers.KeyPolicy)

  datatype Decision =
    | Allowed(output: int, provider: Providers.Provider)
    | InvalidKey
    | CallerSuspended
    | BoundElsewhere
    | TooLarge
    | InvalidModel
    | NoProvider(denial: Providers.Denial)
    | QuotaExceeded

  datatype Recorded = Done | BadReport | UnknownRequest | AlreadyRecorded

  function DeniedOn(denied: map<(KeyId, Day), nat>, k: KeyId, d: Day): nat {
    if (k, d) in denied then denied[(k, d)] else 0
  }

  /** The tables after the day's counter row was created if it was missing. */
  function WithRow(t: Tables, k: KeyId, d: Day): Tables {
    if (k, d) in t.quota then t else t.(quota := t.quota[(k, d) := Counter(0, 0)])
  }

  /** The refusal that a request meets before a provider is looked for. */
  function EarlyRefusal(policy: Policy, limits: Limits, ask: Ask): Option<Decision> {
    if ask.caller.Some? && ask.caller.value.suspended then Some(CallerSuspended)
    else if limits.boundTo.Some? && !(ask.caller.Some? && ask.caller.value.node == limits.boundTo.value)
    then Some(BoundElsewhere)
    else if ask.bytes < 0 || ask.bytes > policy.maxRequestBytes then Some(TooLarge)
    else if !ask.modelIsValid then Some(InvalidModel)
    else None
  }

  class Store {
    var keys: map<KeyId, Policy>
    var quota: map<(KeyId, Day), Counter>
    var requests: map<nat, Request>
    var usage: map<(KeyId, string, Day), Usage>

    var limits: map<KeyId, Limits>
    var providers: seq<Providers.Provider>
    var allowOffshore: bool
    var denied: map<(KeyId, Day), nat>

    ghost function Contents(): Tables
      reads this
    {
      Tables(keys, quota, requests, usage)
    }

    /** A key row has its quotas and its limits together. */
    ghost predicate Valid()
      reads this
    {
      keys.Keys == limits.Keys
    }

    constructor ()
      ensures Valid() && Contents() == Tables(map[], map[], map[], map[]) && denied == map[]
    {
      keys, quota, requests, usage := map[], map[], map[], map[];
      limits, providers, allowOffshore, denied := map[], [], false, map[];
    }

    /** The day's counter row exists afterwards, and one more denial is counted in it. */
    method CountDenial(k: KeyId, d: Day)
      modifies this`quota, this`denied
      ensures Contents() == WithRow(old(Contents()), k, d)
      ensures denied == old(denied)[(k, d) := DeniedOn(old(denied), k, d) + 1]
    {
      if (k, d) !in quota {
        quota := quota[(k, d) := Counter(0, 0)];
      }
      denied := denied[(k, d) := DeniedOn(denied, k, d) + 1];
    }

    /** `authorize`: an unknown key changes nothing. Otherwise retention is applied first, and
        the request is granted, or refused and counted. */
    method Authorize(k: KeyId, ask: Ask, id: nat, at: int) returns (r: Decision)
      requires Valid() && id !in requests
      modifies this`quota, this`requests, this`denied
      ensures Valid()
      ensures k !in keys || keys[k].revoked ==>
                r == InvalidKey && Contents() == old(Contents()) && denied == old(denied)
      ensures k in keys && !keys[k].revoked ==>
                Decided(Purged(old(Contents()), at), Contents(), k, ask, id, at, r)
                && denied == if r.Allowed? then old(denied)
                             else old(denied)[(k, DayOf(at)) := DeniedOn(old(denied), k, DayOf(at)) + 1]
    {
      if k !in keys || keys[k].revoked {
        return InvalidKey;
      }
      Purge(at);
      r := Decide(k, ask, id, at);
      if !r.Allowed? {
        CountDenial(k, DayOf(at));
      }
    }

    /** What a decision on a known key leaves in the tables: refusals in order, then the provider
        choice, then the grant exactly when it fits. */
    ghost predicate Decided(before: Tables, after: Tables, k: KeyId, ask: Ask, id: nat, at: int, r: Decision)
      requires k in keys && k in limits && k in before.keys
      reads this`keys, this`limits, this`providers, this`allowOffshore
    {
      var refused := WithRow(before, k, DayOf(at));
      var early := EarlyRefusal(keys[k], limits[k], ask);
      if early.Some? then r == early.value && after == refused
      else exists c ::
             Providers.RightChoice(Providers.Ranked(providers), limits[k].allowed, ask.model, allowOffshore, c)
             && match c
                case Denied(denial) => r == NoProvider(denial) && after == refused
                case Chosen(provider) =>
                  var a := ReadUsed(before, k, at, ask.bytes, ask.wanted, ask.gateway, ask.model);
                  if Fits(before, a) then r == Allowed(Output(a), provider) && after == Granted(before, a, id)
                  else r == QuotaExceeded && after == refused
    }

    /** `decide`: the refusals in order, then the reservation of the prompt estimate and the
        output allowance. */
    method Decide(k: KeyId, ask: Ask, id: nat, at: int) returns (r: Decision)
      requires Valid() && k in keys
      modifies this`quota, this`requests
      ensures var after := if r.Allowed? then Contents() else WithRow(Contents(), k, DayOf(at));
              Decided(old(Contents()), after, k, ask, id, at, r)
      ensures !r.Allowed? ==> Contents() == old(Contents()) || Contents() == WithRow(old(Contents()), k, DayOf(at))
    {
      var early := EarlyRefusal(keys[k], limits[k], ask);
      if early.Some? {
        return early.value;
      }
      var c := Providers.ChooseProvider(providers, limits[k].allowed, ask.model, allowOffshore);
      if c.Denied? {
        return NoProvider(c.denial);
      }
      var output := ReserveTokens(k, ask, id, at);
      return if output.Some? then Allowed(output.value, c.provider) else QuotaExceeded;
    }

    /** Reads the tokens used, then reserves the prompt estimate and the output allowance if
        they fit. */
    method ReserveTokens(k: KeyId, ask: Ask, id: nat, at: int) returns (output: Option<int>)
      requires k in keys
      modifies this`quota, this`requests
      ensures var a := ReadUsed(old(Contents()), k, at, ask.bytes, ask.wanted, ask.gateway, ask.model);
              if Fits(old(Contents()), a) then output == Some(Output(a))
                  && Contents() == Granted(old(Contents()), a, id)
              else output == None && Contents() == WithRow(old(Contents()), k, DayOf(at))
    {
      var day := DayOf(at);
      if (k, day) !in quota {
        quota := quota[(k, day) := Counter(0, 0)];
      }
      var a := Authorisation(k, keys[k], day, at, quota[(k, day)].tokens, ask.bytes, ask.wanted,
                             ask.gateway, ask.model);
      var fits := Increment(a, id);
      return if fits then Some(Output(a)) else None;
    }

    /** The conditional increment and the request row it pays for. */
    method Increment(a: Authorisation, id: nat) returns (fits: bool)
      requires (a.key, a.day) in quota
      modifies this`quota, this`requests
      ensures fits == Fits(old(Contents()), a)
      ensures Contents() == if fits then Granted(old(Contents()), a, id) else old(Contents())
    {
      var output := Output(a);
      var reserve := PromptEstimate(a.bytes) + output;
      var c := quota[(a.key, a.day)];
      fits := output >= 1 && c.requests < a.policy.requestQuota && c.tokens + reserve <= a.policy.tokenQuota;
      if fits {
        quota := quota[(a.key, a.day) := Counter(c.requests + 1, c.tokens + reserve)];
        requests := requests[id := Request(a.key, a.model, a.day, a.gateway, Pending, reserve, a.at, None)];
      }
    }

    /** The counter of the request's own day trades its reservation for the reported tokens. */
    method Adjust(row: Request, tokens: int)
      modifies this`quota
      ensures quota == QuotaSettled(old(quota), row, tokens)
    {
      if (row.key, row.day) in quota {
        var c := quota[(row.key, row.day)];
        quota := quota[(row.key, row.day) := c.(tokens := c.tokens + (tokens - row.reserved))];
      }
    }

    method Count(row: Request, prompt: int, completion: int, failed: bool)
      modifies this`usage
      ensures usage == UsageSettled(old(usage), row, prompt, completion, failed)
    {
      if (row.key, row.model, row.day) !in usage {
        usage := usage[(row.key, row.model, row.day) := Usage(0, 0, 0, 0)];
      }
      var u := usage[(row.key, row.model, row.day)];
      usage := usage[(row.key, row.model, row.day) :=
                     Usage(u.requests + 1, u.errors + (if failed then 1 else 0),
                           u.prompt + prompt, u.completion + completion)];
    }

    /** Settles a pending request of this gateway; any other report leaves the tables alone. */
    method IngestUsage(id: nat, gateway: nat, status: string, prompt: int, completion: int, at: int)
      returns (r: Recorded)
      modifies this`quota, this`requests, this`usage
      ensures r == Done <==>
              (status == "ok" || status == "error") && MaySettle(old(Contents()), id, gateway, prompt, completion)
      ensures r == Done ==> Contents() == Settled(old(Contents()), id, prompt, completion, status == "error", at)
      ensures r != Done ==> Contents() == old(Contents())
      ensures r == AlreadyRecorded ==> id in requests && requests[id].status != Pending
    {
      if status != "ok" && status != "error" {
        return BadReport;
      }
      if !(0 <= prompt <= MAX_REPORTED_TOKENS) || !(0 <= completion <= MAX_REPORTED_TOKENS) {
        return BadReport;
      }
      if id !in requests || requests[id].gateway != gateway || requests[id].key !in keys {
        return UnknownRequest;
      }
      var row := requests[id];
      if row.status != Pending {
        return AlreadyRecorded;
      }
      Adjust(row, prompt + completion);
      Count(row, prompt, completion, status == "error");
      requests := RequestsSettled(requests, id, keys[row.key].mode, at);
      return Done;
    }

    /** Rows past their retention go; then requests pending for too long are abandoned. */
    method Purge(at: int)
      modifies this`requests
      ensures Contents() == Purged(old(Contents()), at)
    {
      requests := map id | id in requests && !Expired(requests[id], at) :: requests[id];
      requests := map id | id in requests ::
        if TimedOut(requests[id], at)
        then requests[id].(status := Abandoned, expiresAt := Some(at + METADATA_RETENTION_SECS)) else requests[id];
    }
  }
}
