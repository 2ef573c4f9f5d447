/** Choosing a provider for a model, and listing the models a key may use. */
module Providers {
  import opened Options

  datatype Provider = Provider(id: nat, name: string, models: seq<string>, enabled: bool, offshore: bool)

  datatype KeyPolicy = KeyPolicy(allowedProviders: set<nat>, allowedModels: seq<string>)

  datatype Denial = ModelNotAllowed | ProviderNotAllowed | OffshoreForbidden | ModelNotFound

  datatype Choice = Chosen(provider: Provider) | Denied(denial: Denial)

  datatype ModelEntry = ModelEntry(model: string, provider: Provider)

  predicate ModelAllowed(policy: KeyPolicy, model: string) {
    policy.allowedModels == [] || model in policy.allowedModels
  }

  predicate Blocked(p: Provider, allowOffshore: bool) {
    p.offshore && !allowOffshore
  }

  /** The provider serves the model for this key under the organisation's offshore setting. */
  predicate Usable(p: Provider, policy: KeyPolicy, model: string, allowOffshore: bool) {
    p.enabled && model in p.models && p.id in policy.allowedProviders && !Blocked(p, allowOffshore)
  }

  /** The enabled providers in the order `choose_provider` reads them: onshore first, then by
      name, where `byName` is the table ordered by name. */
  function Ranked(byName: seq<Provider>): seq<Provider> {
    Enabled(byName, false) + Enabled(byName, true)
  }

  function Enabled(byName: seq<Provider>, offshore: bool): (r: seq<Provider>)
    ensures forall p :: p in r <==> p in byName && p.enabled && p.offshore == offshore
  {
    if byName == [] then []
    else
      (if byName[0].enabled && byName[0].offshore == offshore then [byName[0]] else [])
      + Enabled(byName[1..], offshore)
  }

  /** The first row usable for the model. */
  function First(rows: seq<Provider>, policy: KeyPolicy, model: string, allowOffshore: bool): (r: Option<Provider>)
    ensures r.None? <==> forall p :: p in rows ==> !Usable(p, policy, model, allowOffshore)
    ensures r.Some? ==> r.value in rows && Usable(r.value, policy, model, allowOffshore)
  {
    if rows == [] then None
    else if Usable(rows[0], policy, model, allowOffshore) then Some(rows[0])
    else First(rows[1..], policy, model, allowOffshore)
  }

  /** What the choice must be: the first usable row, or the denial that explains why none is. */
  ghost predicate RightChoice(rows: seq<Provider>, policy: KeyPolicy, model: string, allowOffshore: bool, c: Choice) {
    match c
    case Chosen(p) => ModelAllowed(policy, model) && First(rows, policy, model, allowOffshore) == Some(p)
    case Denied(ModelNotAllowed) => !ModelAllowed(policy, model)
    case Denied(d) =>
      ModelAllowed(policy, model) && First(rows, policy, model, allowOffshore) == None
      && (d == OffshoreForbidden <==> OffshoreServes(rows, policy, model, allowOffshore))
      && (d == ModelNotFound <==> forall p :: p in rows ==> model !in p.models)
  }

  /** A provider the key may use serves the model, but the organisation forbids it. */
  predicate OffshoreServes(rows: seq<Provider>, policy: KeyPolicy, model: string, allowOffshore: bool) {
    exists p :: p in rows && model in p.models && p.id in policy.allowedProviders && Blocked(p, allowOffshore)
  }

  predicate ElsewhereServes(rows: seq<Provider>, policy: KeyPolicy, model: string) {
    exists p :: p in rows && model in p.models && p.id !in policy.allowedProviders
  }

  method ChooseProvider(byName: seq<Provider>, policy: KeyPolicy, model: string, allowOffshore: bool)
    returns (c: Choice)
    ensures RightChoice(Ranked(byName), policy, model, allowOffshore, c)
  {
    if policy.allowedModels != [] && model !in policy.allowedModels {
      return Denied(ModelNotAllowed);
    }
    c := FirstOrReason(Ranked(byName), policy, model, allowOffshore);
  }

  method FirstOrReason(rows: seq<Provider>, policy: KeyPolicy, model: string, allowOffshore: bool) returns (c: Choice)
    requires ModelAllowed(policy, model) && forall p :: p in rows ==> p.enabled
    ensures c != Denied(ModelNotAllowed) && RightChoice(rows, policy, model, allowOffshore, c)
  {
    var servedElsewhere, offshoreBlocked := false, false;
    for i := 0 to |rows|
      invariant First(rows, policy, model, allowOffshore) == First(rows[i..], policy, model, allowOffshore)
      invariant servedElsewhere <==> ElsewhereServes(rows[..i], policy, model)
      invariant offshoreBlocked <==> OffshoreServes(rows[..i], policy, model, allowOffshore)
    {
      var row := rows[i];
      assert rows[i..][0] == row && rows[i..][1..] == rows[i + 1..] && rows[..i + 1] == rows[..i] + [row];
      if model !in row.models {
        continue;
      }
      if row.id !in policy.allowedProviders {
        servedElsewhere := true;
        continue;
      }
      if Blocked(row, allowOffshore) {
        offshoreBlocked := true;
        continue;
      }
      return Chosen(row);
    }
    assert rows[..|rows|] == rows;
    c := Denied(if offshoreBlocked then OffshoreForbidden
                else if servedElsewhere then ProviderNotAllowed
                else ModelNotFound);
  }

  predicate Lists(entries: seq<ModelEntry>, model: string) {
    exists e :: e in entries && e.model == model
  }

  /** Each model the key may use, once, with the first usable provider by name. */
  ghost predicate RightList(byName: seq<Provider>, policy: KeyPolicy, allowOffshore: bool, entries: seq<ModelEntry>) {
    (forall e :: e in entries ==>
       ModelAllowed(policy, e.model) && First(byName, policy, e.model, allowOffshore) == Some(e.provider))
    && (forall m :: ModelAllowed(policy, m) && (exists p :: p in byName && Usable(p, policy, m, allowOffshore)) ==>
          Lists(entries, m))
    && forall i, j :: 0 <= i < j < |entries| ==> entries[i].model != entries[j].model
  }

  method ListModels(byName: seq<Provider>, policy: KeyPolicy, allowOffshore: bool) returns (entries: seq<ModelEntry>)
    ensures RightList(byName, policy, allowOffshore, entries)
  {
    entries := [];
    for i := 0 to |byName|
      invariant RightList(byName[..i], policy, allowOffshore, entries)
    {
      var p := byName[i];
      ghost var before := entries;
      assert byName[..i + 1] == byName[..i] + [p];
      if p.enabled && !Blocked(p, allowOffshore) && p.id in policy.allowedProviders {
        entries := AddModels(p, policy, entries);
      }
      NextProvider(byName[..i], p, policy, allowOffshore, before, entries);
    }
    assert byName[..|byName|] == byName;
  }

  /** `p`'s allowed models that are not listed yet are appended with `p`. */
  ghost predicate Extends(p: Provider, policy: KeyPolicy, before: seq<ModelEntry>, after: seq<ModelEntry>) {
    before <= after
    && (forall e :: e in after[|before|..] ==>
          e.provider == p && e.model in p.models && ModelAllowed(policy, e.model) && !Lists(before, e.model))
    && (forall m :: m in p.models && ModelAllowed(policy, m) ==> Lists(after, m))
    && forall i, j :: |before| <= i < j < |after| ==> after[i].model != after[j].model
  }

  method AddModels(p: Provider, policy: KeyPolicy, before: seq<ModelEntry>) returns (after: seq<ModelEntry>)
    ensures Extends(p, policy, before, after)
  {
    after := before;
    for k := 0 to |p.models|
      invariant before <= after
      invariant forall e :: e in after[|before|..] ==>
                  e.provider == p && e.model in p.models && ModelAllowed(policy, e.model) && !Lists(before, e.model)
      invariant forall j :: 0 <= j < k && ModelAllowed(policy, p.models[j]) ==> Lists(after, p.models[j])
      invariant forall i, j :: |before| <= i < j < |after| ==> after[i].model != after[j].model
    {
      var model := p.models[k];
      if ModelAllowed(policy, model) && !exists e :: e in after && e.model == model {
        ghost var a0 := after;
        after := after + [ModelEntry(model, p)];
        assert after[|before|..] == a0[|before|..] + [ModelEntry(model, p)];
        assert forall e :: e in before ==> e in a0;
        assert forall i :: |before| <= i < |a0| ==> a0[i] in a0;
        assert forall m :: Lists(a0, m) ==> Lists(after, m);
        assert after[|a0|] == ModelEntry(model, p);
      }
    }
  }

  lemma {:induction false} FirstOfConcat(x: seq<Provider>, y: seq<Provider>, policy: KeyPolicy, model: string,
                                         allowOffshore: bool)
    ensures First(x + y, policy, model, allowOffshore)
            == if First(x, policy, model, allowOffshore).Some? then First(x, policy, model, allowOffshore)
               else First(y, policy, model, allowOffshore)
  {
    if x == [] {
      assert x + y == y;
    } else {
      assert (x + y)[1..] == x[1..] + y;
      FirstOfConcat(x[1..], y, policy, model, allowOffshore);
    }
  }

  lemma NextProvider(done: seq<Provider>, p: Provider, policy: KeyPolicy, allowOffshore: bool,
                     before: seq<ModelEntry>, after: seq<ModelEntry>)
    requires RightList(done, policy, allowOffshore, before)
    requires if p.enabled && !Blocked(p, allowOffshore) && p.id in policy.allowedProviders
             then Extends(p, policy, before, after) else after == before
    ensures RightList(done + [p], policy, allowOffshore, after)
  {
    forall m ensures First(done + [p], policy, m, allowOffshore)
                     == if First(done, policy, m, allowOffshore).Some? then First(done, policy, m, allowOffshore)
                        else First([p], policy, m, allowOffshore)
    {
      FirstOfConcat(done, [p], policy, m, allowOffshore);
    }
    if p.enabled && !Blocked(p, allowOffshore) && p.id in policy.allowedProviders {
      assert after == before + after[|before|..];
      forall m | Lists(before, m) ensures Lists(after, m) {
        var e :| e in before && e.model == m;
        assert e in after;
      }
      forall i, j | 0 <= i < j < |after| ensures after[i].model != after[j].model {
        if i < |before| <= j {
          assert after[j] in after[|before|..] && after[i] in before;
        }
      }
    }
  }

  // ----- the two agree -----

  /** The first usable provider is also the first of its residency group. */
  lemma {:induction false} FirstOfGroup(byName: seq<Provider>, policy: KeyPolicy, model: string, allowOffshore: bool)
    requires First(byName, policy, model, allowOffshore).Some?
    ensures var p := First(byName, policy, model, allowOffshore).value;
            First(Enabled(byName, p.offshore), policy, model, allowOffshore) == Some(p)
  {
    if !Usable(byName[0], policy, model, allowOffshore) {
      FirstOfGroup(byName[1..], policy, model, allowOffshore);
      var p := First(byName, policy, model, allowOffshore).value;
      var rest := Enabled(byName[1..], p.offshore);
      if byName[0].enabled && byName[0].offshore == p.offshore {
        assert Enabled(byName, p.offshore)[1..] == rest;
      } else {
        assert Enabled(byName, p.offshore) == rest;
      }
    }
  }

  /** The choice: the first usable onshore provider by name, else the first usable one. */
  lemma FirstByRank(byName: seq<Provider>, policy: KeyPolicy, model: string, allowOffshore: bool)
    ensures First(Ranked(byName), policy, model, allowOffshore)
            == if First(Enabled(byName, false), policy, model, allowOffshore).Some?
               then First(Enabled(byName, false), policy, model, allowOffshore)
               else First(byName, policy, model, allowOffshore)
  {
    FirstOfConcat(Enabled(byName, false), Enabled(byName, true), policy, model, allowOffshore);
    if First(Enabled(byName, false), policy, model, allowOffshore).None?
       && First(byName, policy, model, allowOffshore).Some? {
      FirstOfGroup(byName, policy, model, allowOffshore);
    }
  }

  /** A model is listed for a key exactly when a request for it would find a provider. */
  lemma ListedIffChosen(byName: seq<Provider>, policy: KeyPolicy, allowOffshore: bool,
                        entries: seq<ModelEntry>, model: string, c: Choice)
    requires RightList(byName, policy, allowOffshore, entries)
    requires RightChoice(Ranked(byName), policy, model, allowOffshore, c)
    ensures Lists(entries, model) <==> c.Chosen?
  {
    FirstByRank(byName, policy, model, allowOffshore);
  }

  /** The listed provider is the chosen one exactly when it is onshore or no onshore provider
      could serve the model: the list is by name, the choice prefers onshore. */
  lemma ListedProviderIsChosen(byName: seq<Provider>, policy: KeyPolicy, allowOffshore: bool,
                               entries: seq<ModelEntry>, e: ModelEntry, c: Choice)
    requires RightList(byName, policy, allowOffshore, entries) && e in entries
    requires RightChoice(Ranked(byName), policy, e.model, allowOffshore, c)
    ensures c.Chosen?
    ensures c.provider == e.provider <==>
            !e.provider.offshore || forall p :: p in byName && Usable(p, policy, e.model, allowOffshore) ==> p.offshore
  {
    ListedIffChosen(byName, policy, allowOffshore, entries, e.model, c);
    FirstByRank(byName, policy, e.model, allowOffshore);
    FirstOfGroup(byName, policy, e.model, allowOffshore);
  }

  /** An offshore provider that comes first by name is listed, and an onshore one is chosen. */
  lemma {:induction false} OnshoreIsChosenInstead()
    ensures var listed, chosen := Provider(1, "a", ["m"], true, true), Provider(2, "b", ["m"], true, false);
            var policy := KeyPolicy({1, 2}, ["m"]);
            RightList([listed, chosen], policy, true, [ModelEntry("m", listed)])
            && RightChoice(Ranked([listed, chosen]), policy, "m", true, Chosen(chosen))
  {
    var listed, chosen := Provider(1, "a", ["m"], true, true), Provider(2, "b", ["m"], true, false);
    var rows, policy := [listed, chosen], KeyPolicy({1, 2}, ["m"]);
    assert rows[1..] == [chosen] && [chosen][1..] == [];
    assert Enabled([chosen], false) == [chosen];
    assert Enabled(rows, false) == [chosen];
    assert Ranked(rows)[0] == chosen;
    assert ModelEntry("m", listed) in [ModelEntry("m", listed)];
  }
}
