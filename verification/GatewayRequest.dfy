/** The output limit of a forwarded chat request: what the client asked for, what the
    coordinator reserved, and what the provider is finally told. */
module GatewayRequest {
  import opened Quota
  import opened Options

  /** A JSON member: missing, `null`, a 64-bit integer, or anything else. */
  datatype Field = Missing | Null | Int(value: int) | Other

  datatype Limits = Limits(maxCompletionTokens: Field, maxTokens: Field)

  /** The integer limit in the body; the newer of the two members has priority. */
  function Requested(l: Limits): Option<int> {
    if l.maxCompletionTokens.Int? then Some(l.maxCompletionTokens.value)
    else if l.maxTokens.Int? then Some(l.maxTokens.value)
    else None
  }

  predicate Present(f: Field) {
    !f.Missing? && !f.Null?
  }

  function ClampField(f: Field, limit: int): Field {
    if !Present(f) then f
    else if f.Int? && 0 < f.value <= limit then f
    else Int(limit)
  }

  function Clamp(l: Limits, limit: int): Limits {
    var clamped := Limits(ClampField(l.maxCompletionTokens, limit), ClampField(l.maxTokens, limit));
    if Present(l.maxCompletionTokens) || Present(l.maxTokens) then clamped else clamped.(maxTokens := Int(limit))
  }

  class ChatRequest {
    var maxCompletionTokens: Field
    var maxTokens: Field

    ghost function Contents(): Limits
      reads this
    {
      Limits(maxCompletionTokens, maxTokens)
    }

    constructor (completion: Field, tokens: Field)
      ensures Contents() == Limits(completion, tokens)
    {
      maxCompletionTokens, maxTokens := completion, tokens;
    }

    /** Cuts every output limit in the body down to `limit`, and adds one if there is none. */
    method ClampMaxTokens(limit: int)
      modifies this
      ensures Contents() == Clamp(old(Contents()), limit)
    {
      var present := false;
      if Present(maxCompletionTokens) {
        present := true;
        maxCompletionTokens := Int(ClampValue(maxCompletionTokens, limit));
      }
      if Present(maxTokens) {
        present := true;
        maxTokens := Int(ClampValue(maxTokens, limit));
      }
      if !present {
        maxTokens := Int(limit);
      }
    }
  }

  function ClampValue(f: Field, limit: int): int {
    if f.Int? && f.value > 0 then (if f.value <= limit then f.value else limit) else limit
  }

  /** Every limit forwarded after the clamp, with the prompt estimate, is within the tokens
      reserved, and at least one is forwarded. */
  lemma ForwardedWithinReservation(a: Authorisation, body: Limits)
    requires Output(a) >= 1
    ensures var sent := Clamp(body, Output(a));
            (sent.maxCompletionTokens.Int? || sent.maxTokens.Int?)
            && !sent.maxCompletionTokens.Other? && !sent.maxTokens.Other?
            && (sent.maxCompletionTokens.Int? ==>
                  1 <= sent.maxCompletionTokens.value
                  && PromptEstimate(a.bytes) + sent.maxCompletionTokens.value <= Reserve(a))
            && (sent.maxTokens.Int? ==>
                  1 <= sent.maxTokens.value && PromptEstimate(a.bytes) + sent.maxTokens.value <= Reserve(a))
  {
  }

  /** When the authorisation carried the client's own limit, the limit that governs the
      forwarded request is exactly the output reserved. */
  lemma GoverningLimitIsReserved(a: Authorisation, body: Limits)
    requires a.wanted == Requested(body) && Output(a) >= 1
    ensures Requested(Clamp(body, Output(a))) == Some(Output(a))
    ensures PromptEstimate(a.bytes) + Requested(Clamp(body, Output(a))).value == Reserve(a)
  {
  }

  /** Clamping again changes nothing, and a tighter clamp wins. */
  lemma ClampComposes(body: Limits, x: int, y: int)
    requires 1 <= x && 1 <= y
    ensures Clamp(Clamp(body, x), y) == Clamp(body, if x <= y then x else y)
  {
  }
}
