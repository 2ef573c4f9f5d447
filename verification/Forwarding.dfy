/** The routing peer's forward filter: how grants, the exit route, carried prefixes and
    named-host rules become an ordered deny/allow list, and what that list permits. */
module Forwarding {
  import opened Cidr
  import opened CidrText
  import opened Complement
  import opened ForwardService
  import opened Options

  // ----- inputs -----

  datatype Router = Router(id: string, name: string, dnsName: string, approved: seq<Text>, advertised: seq<Text>)

  datatype Client = Client(id: string, overlay: seq<Text>, exitRequest: Option<string>)

  /** A distributed resource route. `accessible` is the access list's verdict on the client. */
  datatype ResourceRoute = ResourceRoute(
    router: string, cidr: Text, service: Service, routingPeers: set<string>, accessible: bool)

  datatype Reserved = Reserved(cidr: Text, peers: set<string>)

  datatype Distribution = Distribution(routes: seq<ResourceRoute>, reserved: seq<Reserved>)

  datatype Action = Allow | Deny

  /** A policy rule as seen by one client: `matches` holds the names of the hosts for which
      the rule matcher accepts this client, `namesHosts` whether the rule lists hosts. */
  datatype Rule = Rule(action: Action, namesHosts: bool, service: Service, matches: set<string>)

  datatype HostValue = HostAddress(address: Address) | HostText(text: Text)

  datatype Acl = Acl(reachable: bool, hosts: map<string, HostValue>, rules: seq<Rule>)

  datatype Context = Context(acl: Acl, distribution: Distribution, router: Router, client: Client)

  // ----- the filter -----

  datatype ForwardRule = ForwardRule(client: string, sources: seq<Text>, destination: Text, service: Service)

  datatype Filter = Filter(deny: seq<ForwardRule>, allow: seq<ForwardRule>)

  predicate Applies(r: ForwardRule, host: Text, protocol: Option<Protocol>, port: Option<nat>) {
    TextWithin(host, r.destination) && Admits(r.service, protocol, port)
  }

  predicate SomeApplies(rules: seq<ForwardRule>, host: Text, protocol: Option<Protocol>, port: Option<nat>) {
    exists r :: r in rules && Applies(r, host, protocol, port)
  }

  predicate Permits(filter: Filter, host: Text, protocol: Option<Protocol>, port: Option<nat>) {
    !SomeApplies(filter.deny, host, protocol, port) && SomeApplies(filter.allow, host, protocol, port)
  }

  // ----- grants -----

  predicate SelectedBy(r: Router, requested: Option<string>) {
    requested.Some? && (requested.value == r.id || requested.value == r.name || requested.value == r.dnsName)
  }

  predicate Exit(ctx: Context) {
    SelectedBy(ctx.router, ctx.client.exitRequest)
  }

  /** Whether a distributed route reaches this client through this router. */
  predicate Given(ctx: Context, r: ResourceRoute) {
    r.router == ctx.router.id && ctx.client.id !in r.routingPeers
    && (!IsDefaultRoute(r.cidr) || Exit(ctx)) && r.accessible
  }

  /** The approved routes among the first `n`; default routes only for an exit client. */
  function InsertApproved(approved: seq<Text>, exit: bool, n: nat): map<Text, Service>
    requires n <= |approved|
  {
    if n == 0 then map[]
    else
      Approve(InsertApproved(approved, exit, n - 1), approved[n - 1], exit)
  }

  function Approve(m: map<Text, Service>, route: Text, exit: bool): map<Text, Service> {
    if !IsDefaultRoute(route) || exit then m[route := EVERYTHING] else m
  }

  function MergeEntry(m: map<Text, Service>, cidr: Text, service: Service): map<Text, Service> {
    m[cidr := Merge(if cidr in m then m[cidr] else NOTHING, service)]
  }

  function MergeGiven(ctx: Context, n: nat): map<Text, Service>
    requires n <= |ctx.distribution.routes|
  {
    if n == 0 then InsertApproved(ctx.router.approved, Exit(ctx), |ctx.router.approved|)
    else
      var m, r := MergeGiven(ctx, n - 1), ctx.distribution.routes[n - 1];
      if Given(ctx, r) then MergeEntry(m, r.cidr, r.service) else m
  }

  function GrantMap(ctx: Context): map<Text, Service> {
    MergeGiven(ctx, |ctx.distribution.routes|)
  }

  method Approved(approved: seq<Text>, exit: bool) returns (grants: map<Text, Service>)
    ensures grants == InsertApproved(approved, exit, |approved|)
  {
    grants := map[];
    for i := 0 to |approved|
      invariant grants == InsertApproved(approved, exit, i)
    {
      grants := Approve(grants, approved[i], exit);
    }
  }

  method Grants(ctx: Context) returns (grants: map<Text, Service>)
    ensures grants == GrantMap(ctx)
  {
    grants := Approved(ctx.router.approved, Exit(ctx));
    for i := 0 to |ctx.distribution.routes|
      invariant grants == MergeGiven(ctx, i)
    {
      var r := ctx.distribution.routes[i];
      if Given(ctx, r) {
        grants := MergeEntry(grants, r.cidr, r.service);
      }
    }
  }

  // ----- what a client was granted, without the map -----

  ghost predicate ApprovedFor(ctx: Context, t: Text) {
    t in ctx.router.approved && (!IsDefaultRoute(t) || Exit(ctx))
  }

  ghost predicate Granted(ctx: Context, t: Text) {
    ApprovedFor(ctx, t) || exists r :: r in ctx.distribution.routes && Given(ctx, r) && r.cidr == t
  }

  ghost predicate GrantAdmits(ctx: Context, t: Text, protocol: Option<Protocol>, port: Option<nat>) {
    ApprovedFor(ctx, t)
    || exists r :: r in ctx.distribution.routes && Given(ctx, r) && r.cidr == t && Admits(r.service, protocol, port)
  }

  ghost predicate Before(approved: seq<Text>, n: nat, t: Text)
    requires n <= |approved|
  {
    exists i :: 0 <= i < n && approved[i] == t
  }

  lemma {:induction false} BeforeStep(approved: seq<Text>, n: nat, t: Text)
    requires 0 < n <= |approved|
    ensures Before(approved, n, t) <==> Before(approved, n - 1, t) || approved[n - 1] == t
  {
  }

  lemma {:induction false} ApproveMeaning(m: map<Text, Service>, route: Text, exit: bool, t: Text)
    ensures t in Approve(m, route, exit) <==> t in m || (route == t && (!IsDefaultRoute(t) || exit))
    ensures t in Approve(m, route, exit) ==>
              Approve(m, route, exit)[t] == EVERYTHING || (t in m && Approve(m, route, exit)[t] == m[t])
  {
  }

  lemma {:induction false} ApprovedMeaning(approved: seq<Text>, exit: bool, n: nat, t: Text)
    requires n <= |approved|
    ensures t in InsertApproved(approved, exit, n) <==> Before(approved, n, t) && (!IsDefaultRoute(t) || exit)
    ensures t in InsertApproved(approved, exit, n) ==> InsertApproved(approved, exit, n)[t] == EVERYTHING
  {
    if n > 0 {
      ApprovedMeaning(approved, exit, n - 1, t);
      ApproveMeaning(InsertApproved(approved, exit, n - 1), approved[n - 1], exit, t);
      BeforeStep(approved, n, t);
    }
  }

  lemma {:induction false} ApprovedGrants(ctx: Context, t: Text)
    ensures t in MergeGiven(ctx, 0) <==> ApprovedFor(ctx, t)
    ensures t in MergeGiven(ctx, 0) ==> MergeGiven(ctx, 0)[t] == EVERYTHING
  {
    ApprovedMeaning(ctx.router.approved, Exit(ctx), |ctx.router.approved|, t);
  }

  ghost predicate GivenBefore(ctx: Context, n: nat, t: Text)
    requires n <= |ctx.distribution.routes|
  {
    exists i :: 0 <= i < n && Given(ctx, ctx.distribution.routes[i]) && ctx.distribution.routes[i].cidr == t
  }

  ghost predicate GivenBeforeAdmits(ctx: Context, n: nat, t: Text, protocol: Option<Protocol>, port: Option<nat>)
    requires n <= |ctx.distribution.routes|
  {
    exists i :: 0 <= i < n && Given(ctx, ctx.distribution.routes[i]) && ctx.distribution.routes[i].cidr == t
                && Admits(ctx.distribution.routes[i].service, protocol, port)
  }

  lemma {:induction false} MergeKeys(ctx: Context, n: nat, t: Text)
    requires n <= |ctx.distribution.routes|
    ensures t in MergeGiven(ctx, n) <==> ApprovedFor(ctx, t) || GivenBefore(ctx, n, t)
  {
    if n == 0 {
      ApprovedGrants(ctx, t);
    } else {
      MergeKeys(ctx, n - 1, t);
    }
  }

  lemma {:induction false} GivenStep(ctx: Context, n: nat, t: Text, protocol: Option<Protocol>, port: Option<nat>)
    requires 0 < n <= |ctx.distribution.routes|
    ensures var r := ctx.distribution.routes[n - 1];
            GivenBeforeAdmits(ctx, n, t, protocol, port) <==>
            GivenBeforeAdmits(ctx, n - 1, t, protocol, port)
            || (Given(ctx, r) && r.cidr == t && Admits(r.service, protocol, port))
  {
  }

  lemma {:induction false} MergedEntry(m: map<Text, Service>, cidr: Text, service: Service, t: Text,
                                       protocol: Option<Protocol>, port: Option<nat>)
    requires t in MergeEntry(m, cidr, service)
    ensures Admits(MergeEntry(m, cidr, service)[t], protocol, port) <==>
            (t in m && Admits(m[t], protocol, port)) || (cidr == t && Admits(service, protocol, port))
  {
    if cidr == t {
      MergeAdmitsEither(if cidr in m then m[cidr] else NOTHING, service, protocol, port);
      EmptyAdmitsNothing(NOTHING);
    }
  }

  lemma {:induction false} MergeServices(ctx: Context, n: nat, t: Text, protocol: Option<Protocol>, port: Option<nat>)
    requires n <= |ctx.distribution.routes|
    ensures t in MergeGiven(ctx, n) && Admits(MergeGiven(ctx, n)[t], protocol, port) <==>
            ApprovedFor(ctx, t) || GivenBeforeAdmits(ctx, n, t, protocol, port)
  {
    if n == 0 {
      ApprovedGrants(ctx, t);
    } else {
      var m, r := MergeGiven(ctx, n - 1), ctx.distribution.routes[n - 1];
      MergeServices(ctx, n - 1, t, protocol, port);
      GivenStep(ctx, n, t, protocol, port);
      if Given(ctx, r) && t in MergeEntry(m, r.cidr, r.service) {
        MergedEntry(m, r.cidr, r.service, t, protocol, port);
      }
    }
  }

  /** The grant map holds exactly the granted prefixes, each with the union of its services. */
  lemma GrantMapMeaning(ctx: Context, t: Text, protocol: Option<Protocol>, port: Option<nat>)
    ensures t in GrantMap(ctx) <==> Granted(ctx, t)
    ensures t in GrantMap(ctx) ==>
              (Admits(GrantMap(ctx)[t], protocol, port) <==> GrantAdmits(ctx, t, protocol, port))
  {
    MergeKeys(ctx, |ctx.distribution.routes|, t);
    MergeServices(ctx, |ctx.distribution.routes|, t, protocol, port);
  }

  // ----- named hosts -----

  /** A policy host value as a CIDR text. */
  function HostCidr(v: HostValue): Option<Text> {
    match v
    case HostAddress(a) => Some(Canon(Block(a.family, a.bits, Width(a.family))))
    case HostText(t) => if Parse(t).Some? then Some(t) else None
  }

  function FoldRules(rules: seq<Rule>, n: nat, name: string, action: Action): Service
    requires n <= |rules|
  {
    if n == 0 then NOTHING
    else
      var s, rule := FoldRules(rules, n - 1, name, action), rules[n - 1];
      if name in rule.matches && rule.action == action && (action.Deny? || rule.namesHosts)
      then Merge(s, rule.service) else s
  }

  ghost predicate RuleAdmits(rules: seq<Rule>, n: nat, name: string, action: Action,
                             protocol: Option<Protocol>, port: Option<nat>)
    requires n <= |rules|
  {
    exists i :: 0 <= i < n && name in rules[i].matches && rules[i].action == action
                && (action.Deny? || rules[i].namesHosts) && Admits(rules[i].service, protocol, port)
  }

  lemma {:induction false} FoldMeaning(rules: seq<Rule>, n: nat, name: string, action: Action,
                                       protocol: Option<Protocol>, port: Option<nat>)
    requires n <= |rules|
    ensures Admits(FoldRules(rules, n, name, action), protocol, port) <==>
            RuleAdmits(rules, n, name, action, protocol, port)
  {
    if n > 0 {
      FoldMeaning(rules, n - 1, name, action, protocol, port);
      MergeAdmitsEither(FoldRules(rules, n - 1, name, action), rules[n - 1].service, protocol, port);
    }
  }

  /** The services that deny and allow rules give one named host. */
  method HostServices(rules: seq<Rule>, name: string) returns (denied: Service, allowed: Service)
    ensures denied == FoldRules(rules, |rules|, name, Deny)
    ensures allowed == FoldRules(rules, |rules|, name, Allow)
  {
    denied, allowed := NOTHING, NOTHING;
    for i := 0 to |rules|
      invariant denied == FoldRules(rules, i, name, Deny)
      invariant allowed == FoldRules(rules, i, name, Allow)
    {
      var rule := rules[i];
      if name in rule.matches {
        match rule.action
        case Deny => denied := Merge(denied, rule.service);
        case Allow =>
          if rule.namesHosts { allowed := Merge(allowed, rule.service); }
      }
    }
  }

  // ----- compiling -----

  predicate IsHostRoute(t: Text) {
    Parse(t).Some? && Parse(t).value.len == Width(Parse(t).value.family)
  }

  function HostAddresses(overlay: seq<Text>): seq<Text> {
    if overlay == [] then []
    else (if IsHostRoute(overlay[0]) then [overlay[0]] else []) + HostAddresses(overlay[1..])
  }

  function Entry(ctx: Context, destination: Text, service: Service): ForwardRule {
    ForwardRule(ctx.client.id, HostAddresses(ctx.client.overlay), destination, service)
  }

  /** Every prefix approved for, advertised by, or distributed or reserved through the router that
      is not a default route. */
  function Carried(ctx: Context): set<Text> {
    (set t | t in ctx.router.approved && !IsDefaultRoute(t))
    + (set t | t in ctx.router.advertised && !IsDefaultRoute(t))
    + (set r | r in ctx.distribution.routes && r.router == ctx.router.id && !IsDefaultRoute(r.cidr) :: r.cidr)
    + (set r | r in ctx.distribution.reserved && ctx.router.id in r.peers && !IsDefaultRoute(r.cidr) :: r.cidr)
  }

  function CarriedBlocks(ctx: Context): (r: set<Block>)
    ensures forall b :: b in r ==> IsBlock(b)
  {
    set t | t in Carried(ctx) && Parse(t).Some? :: Parse(t).value
  }

  predicate Exits(grants: map<Text, Service>) {
    exists t :: t in grants && IsDefaultRoute(t)
  }

  /** The client gets rules: it is another device that may reach the router, it has a host
      address, and something is granted to it. */
  predicate Eligible(ctx: Context) {
    ctx.client.id != ctx.router.id && ctx.acl.reachable
    && HostAddresses(ctx.client.overlay) != [] && GrantMap(ctx) != map[]
  }

  predicate Routed(grants: map<Text, Service>, host: Text) {
    exists t :: t in grants && TextWithin(host, t)
  }

  predicate RoutedPrivately(grants: map<Text, Service>, host: Text) {
    exists t :: t in grants && !IsDefaultRoute(t) && TextWithin(host, t)
  }

  predicate UngrantedDeny(ctx: Context, r: ForwardRule) {
    Exits(GrantMap(ctx)) && r.destination in Carried(ctx) && r.destination !in GrantMap(ctx)
    && r == Entry(ctx, r.destination, EVERYTHING)
  }

  predicate HostRule(ctx: Context, name: string, action: Action, r: ForwardRule)
    requires name in ctx.acl.hosts
  {
    var host := HostCidr(ctx.acl.hosts[name]);
    var service := FoldRules(ctx.acl.rules, |ctx.acl.rules|, name, action);
    host.Some? && !IsEmpty(service) && Routed(GrantMap(ctx), host.value)
    && (action.Deny? || RoutedPrivately(GrantMap(ctx), host.value))
    && r == Entry(ctx, host.value, service)
  }

  predicate NamedHostRule(ctx: Context, action: Action, r: ForwardRule) {
    exists name :: name in ctx.acl.hosts && HostRule(ctx, name, action, r)
  }

  predicate PrefixAllow(ctx: Context, grants: map<Text, Service>, r: ForwardRule) {
    exists t :: t in grants && GrantRule(ctx, t, grants[t], r)
  }

  /** The rules one grant turns into: itself, or for a default route the complement of the
      carried prefixes. */
  predicate GrantRule(ctx: Context, t: Text, service: Service, r: ForwardRule) {
    if IsDefaultRoute(t) then
      r.destination.Canon? && r.destination.block in ComplementBlocks(t.block.family, CarriedBlocks(ctx))
      && r == Entry(ctx, r.destination, service)
    else r == Entry(ctx, t, service)
  }

  predicate IsDeny(ctx: Context, r: ForwardRule) {
    Eligible(ctx) && (UngrantedDeny(ctx, r) || NamedHostRule(ctx, Deny, r))
  }

  predicate IsAllow(ctx: Context, r: ForwardRule) {
    Eligible(ctx) && (NamedHostRule(ctx, Allow, r) || PrefixAllow(ctx, GrantMap(ctx), r))
  }

  ghost predicate Adds(before: seq<ForwardRule>, after: seq<ForwardRule>, added: ForwardRule -> bool) {
    before <= after && forall r :: r in after[|before|..] <==> added(r)
  }

  /** `compile_client`: appends the client's entries to both lists. */
  method CompileClient(ctx: Context, filter: Filter) returns (out: Filter)
    ensures Adds(filter.deny, out.deny, r => IsDeny(ctx, r))
    ensures Adds(filter.allow, out.allow, r => IsAllow(ctx, r))
  {
    var grants := Grants(ctx);
    if ctx.client.id == ctx.router.id || !ctx.acl.reachable
       || HostAddresses(ctx.client.overlay) == [] || grants == map[] {
      return filter;
    }
    var ungranted := DenyUngranted(ctx, grants);
    var hostDeny, hostAllow := CompileHosts(ctx, grants);
    var prefixes := AllowGrants(ctx, grants);
    out := Filter(filter.deny + (ungranted + hostDeny), filter.allow + (hostAllow + prefixes));
    assert out.deny[|filter.deny|..] == ungranted + hostDeny;
    assert out.allow[|filter.allow|..] == hostAllow + prefixes;
  }

  method DenyUngranted(ctx: Context, grants: map<Text, Service>) returns (deny: seq<ForwardRule>)
    requires grants == GrantMap(ctx)
    ensures forall r :: r in deny <==> UngrantedDeny(ctx, r)
  {
    deny := [];
    if exists t :: t in grants && IsDefaultRoute(t) {
      var todo := Carried(ctx);
      while todo != {}
        invariant todo <= Carried(ctx)
        invariant forall r :: r in deny <==> r.destination !in todo && UngrantedDeny(ctx, r)
      {
        var t :| t in todo;
        if t !in grants {
          deny := deny + [Entry(ctx, t, EVERYTHING)];
        }
        todo := todo - {t};
      }
    }
  }

  /** The deny and allow rules of one named host. */
  method HostRules(ctx: Context, grants: map<Text, Service>, name: string)
    returns (deny: seq<ForwardRule>, allow: seq<ForwardRule>)
    requires grants == GrantMap(ctx) && name in ctx.acl.hosts
    ensures forall r :: r in deny <==> HostRule(ctx, name, Deny, r)
    ensures forall r :: r in allow <==> HostRule(ctx, name, Allow, r)
  {
    deny, allow := [], [];
    var host := HostCidr(ctx.acl.hosts[name]);
    if host.Some? && Routed(grants, host.value) {
      var denied, allowed := HostServices(ctx.acl.rules, name);
      if !IsEmpty(denied) {
        deny := [Entry(ctx, host.value, denied)];
      }
      if !IsEmpty(allowed) && RoutedPrivately(grants, host.value) {
        allow := [Entry(ctx, host.value, allowed)];
      }
    }
  }

  method CompileHosts(ctx: Context, grants: map<Text, Service>)
    returns (deny: seq<ForwardRule>, allow: seq<ForwardRule>)
    requires grants == GrantMap(ctx)
    ensures forall r :: r in deny <==> NamedHostRule(ctx, Deny, r)
    ensures forall r :: r in allow <==> NamedHostRule(ctx, Allow, r)
  {
    deny, allow := [], [];
    var todo := ctx.acl.hosts.Keys;
    ghost var done: set<string> := {};
    while todo != {}
      invariant todo + done == ctx.acl.hosts.Keys && todo !! done
      invariant forall r :: r in deny <==> exists name :: name in done && HostRule(ctx, name, Deny, r)
      invariant forall r :: r in allow <==> exists name :: name in done && HostRule(ctx, name, Allow, r)
      decreases todo
    {
      var name :| name in todo;
      var denied, allowed := HostRules(ctx, grants, name);
      todo, done := todo - {name}, done + {name};
      deny, allow := deny + denied, allow + allowed;
    }
  }

  /** One rule for each block of a complement. */
  method PartRules(client: string, sources: seq<Text>, parts: seq<Block>, service: Service)
    returns (rules: seq<ForwardRule>)
    ensures forall r :: r in rules <==> r.destination.Canon? && r.destination.block in parts
                                        && r == ForwardRule(client, sources, r.destination, service)
  {
    rules := [];
    for i := 0 to |parts|
      invariant forall r :: r in rules <==> r.destination.Canon? && r.destination.block in parts[..i]
                                            && r == ForwardRule(client, sources, r.destination, service)
    {
      rules := rules + [ForwardRule(client, sources, Canon(parts[i]), service)];
      assert parts[..i + 1] == parts[..i] + [parts[i]];
    }
    assert parts[..|parts|] == parts;
  }

  method GrantRules(ctx: Context, t: Text, service: Service) returns (rules: seq<ForwardRule>)
    ensures forall r :: r in rules <==> GrantRule(ctx, t, service, r)
  {
    if !IsDefaultRoute(t) {
      return [Entry(ctx, t, service)];
    }
    var parts := ComplementOf(t.block.family, CarriedBlocks(ctx));
    rules := PartRules(ctx.client.id, HostAddresses(ctx.client.overlay), parts, service);
  }

  method AllowGrants(ctx: Context, grants: map<Text, Service>) returns (allow: seq<ForwardRule>)
    requires grants == GrantMap(ctx)
    ensures forall r :: r in allow <==> PrefixAllow(ctx, grants, r)
  {
    allow := [];
    var todo := grants.Keys;
    ghost var done: set<Text> := {};
    while todo != {}
      invariant todo + done == grants.Keys && todo !! done
      invariant forall r :: r in allow <==> exists t :: t in done && GrantRule(ctx, t, grants[t], r)
      decreases todo
    {
      var t :| t in todo;
      ghost var allow0 := allow;
      todo, done := todo - {t}, done + {t};
      var rules := GrantRules(ctx, t, grants[t]);
      allow := allow + rules;
      assert forall r :: r in allow <==> r in allow0 || GrantRule(ctx, t, grants[t], r);
    }
  }
}
