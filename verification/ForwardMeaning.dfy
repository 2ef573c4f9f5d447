/** What a compiled forward filter means, stated on the inputs alone, and the promises that
    follow from it for clients that use the router as their exit node. */
module ForwardMeaning {
  import opened Cidr
  import opened CidrText
  import opened Complement
  import opened ForwardService
  import opened Forwarding
  import opened Options

  /** `filter` is what `CompileClient` yields for this client on an empty filter. */
  ghost predicate Compiled(ctx: Context, filter: Filter) {
    Adds([], filter.deny, r => IsDeny(ctx, r)) && Adds([], filter.allow, r => IsAllow(ctx, r))
  }

  // ----- the meaning, without lists or maps -----

  /** Another device that the policy admits to the router and that has an overlay host address. */
  ghost predicate Reaches(ctx: Context) {
    ctx.client.id != ctx.router.id && ctx.acl.reachable
    && exists t :: t in ctx.client.overlay && IsHostRoute(t)
  }

  /** Some grant carries the host; with `privately`, one that is not a default route. */
  ghost predicate GrantCarries(ctx: Context, host: Text, privately: bool) {
    exists t :: Granted(ctx, t) && (privately ==> !IsDefaultRoute(t)) && TextWithin(host, t)
  }

  ghost predicate NamedRule(ctx: Context, action: Action, name: string, host: Text,
                            protocol: Option<Protocol>, port: Option<nat>)
    requires name in ctx.acl.hosts
  {
    var h := HostCidr(ctx.acl.hosts[name]);
    h.Some? && TextWithin(host, h.value) && GrantCarries(ctx, h.value, action.Allow?)
    && RuleAdmits(ctx.acl.rules, |ctx.acl.rules|, name, action, protocol, port)
  }

  /** A policy rule for a named host that has `host` decides this service. */
  ghost predicate ByName(ctx: Context, action: Action, host: Text, protocol: Option<Protocol>, port: Option<nat>) {
    exists name :: name in ctx.acl.hosts && NamedRule(ctx, action, name, host, protocol, port)
  }

  /** The client uses this router as its exit, and `host` is in a carried prefix it was not given. */
  ghost predicate InUngranted(ctx: Context, host: Text) {
    (exists d :: Granted(ctx, d) && IsDefaultRoute(d))
    && exists t :: t in Carried(ctx) && !Granted(ctx, t) && TextWithin(host, t)
  }

  ghost predicate ByPrivateGrant(ctx: Context, host: Text, protocol: Option<Protocol>, port: Option<nat>) {
    exists t :: Granted(ctx, t) && !IsDefaultRoute(t) && TextWithin(host, t) && GrantAdmits(ctx, t, protocol, port)
  }

  /** The exit route admits the service, and `host` shares no address with a carried prefix. */
  ghost predicate ByExit(ctx: Context, host: Text, protocol: Option<Protocol>, port: Option<nat>) {
    Parse(host).Some?
    && var exit := Canon(DefaultRoute(Parse(host).value.family));
    Granted(ctx, exit) && GrantAdmits(ctx, exit, protocol, port)
    && forall t :: t in Carried(ctx) ==> !TextsMeet(host, t)
  }

  ghost predicate MayForward(ctx: Context, host: Text, protocol: Option<Protocol>, port: Option<nat>) {
    Reaches(ctx)
    && !InUngranted(ctx, host) && !ByName(ctx, Deny, host, protocol, port)
    && (ByPrivateGrant(ctx, host, protocol, port) || ByName(ctx, Allow, host, protocol, port)
        || ByExit(ctx, host, protocol, port))
  }

  // ----- compiled lists against the meaning -----

  lemma {:induction false} HostAddressesMeaning(overlay: seq<Text>)
    ensures HostAddresses(overlay) != [] <==> exists t :: t in overlay && IsHostRoute(t)
  {
    if overlay != [] {
      HostAddressesMeaning(overlay[1..]);
      assert forall t :: t in overlay <==> t == overlay[0] || t in overlay[1..];
    }
  }

  lemma EligibleMeaning(ctx: Context)
    ensures Eligible(ctx) <==> Reaches(ctx) && exists t :: Granted(ctx, t)
  {
    HostAddressesMeaning(ctx.client.overlay);
    forall t ensures t in GrantMap(ctx) <==> Granted(ctx, t) { GrantMapMeaning(ctx, t, None, None); }
    if GrantMap(ctx) != map[] {
      var t :| t in GrantMap(ctx);
    }
  }

  lemma GrantKeys(ctx: Context)
    ensures forall t :: t in GrantMap(ctx) <==> Granted(ctx, t)
  {
    forall t ensures t in GrantMap(ctx) <==> Granted(ctx, t) { GrantMapMeaning(ctx, t, None, None); }
  }

  lemma {:induction false} CarriesMeaning(ctx: Context, h: Text, action: Action)
    ensures Routed(GrantMap(ctx), h) && (action.Deny? || RoutedPrivately(GrantMap(ctx), h))
            <==> GrantCarries(ctx, h, action.Allow?)
  {
    GrantKeys(ctx);
  }

  lemma {:induction false} OneHostMeaning(ctx: Context, action: Action, name: string, r: ForwardRule,
                                          host: Text, protocol: Option<Protocol>, port: Option<nat>)
    requires name in ctx.acl.hosts && HostRule(ctx, name, action, r)
    ensures TextWithin(host, r.destination) && Admits(r.service, protocol, port)
            <==> NamedRule(ctx, action, name, host, protocol, port)
  {
    CarriesMeaning(ctx, r.destination, action);
    FoldMeaning(ctx.acl.rules, |ctx.acl.rules|, name, action, protocol, port);
  }

  lemma {:induction false} OneHostRule(ctx: Context, action: Action, name: string,
                                       host: Text, protocol: Option<Protocol>, port: Option<nat>)
    requires name in ctx.acl.hosts && NamedRule(ctx, action, name, host, protocol, port)
    ensures var service := FoldRules(ctx.acl.rules, |ctx.acl.rules|, name, action);
            var r := Entry(ctx, HostCidr(ctx.acl.hosts[name]).value, service);
            HostRule(ctx, name, action, r)
  {
    var service := FoldRules(ctx.acl.rules, |ctx.acl.rules|, name, action);
    CarriesMeaning(ctx, HostCidr(ctx.acl.hosts[name]).value, action);
    FoldMeaning(ctx.acl.rules, |ctx.acl.rules|, name, action, protocol, port);
    EmptyAdmitsNothing(service);
  }

  /** The compiled rule of a named host applies exactly when a policy rule decides it by name. */
  lemma {:induction false} NamedRuleDecides(ctx: Context, action: Action, r: ForwardRule,
                                            host: Text, protocol: Option<Protocol>, port: Option<nat>)
    requires NamedHostRule(ctx, action, r) && Applies(r, host, protocol, port)
    ensures ByName(ctx, action, host, protocol, port)
  {
    var name :| name in ctx.acl.hosts && HostRule(ctx, name, action, r);
    OneHostMeaning(ctx, action, name, r, host, protocol, port);
  }

  lemma {:induction false} NameHasRule(ctx: Context, action: Action, host: Text, protocol: Option<Protocol>,
                                       port: Option<nat>)
    returns (r: ForwardRule)
    requires ByName(ctx, action, host, protocol, port)
    ensures NamedHostRule(ctx, action, r) && Applies(r, host, protocol, port)
  {
    var name :| name in ctx.acl.hosts && NamedRule(ctx, action, name, host, protocol, port);
    r := Entry(ctx, HostCidr(ctx.acl.hosts[name]).value, FoldRules(ctx.acl.rules, |ctx.acl.rules|, name, action));
    OneHostRule(ctx, action, name, host, protocol, port);
    OneHostMeaning(ctx, action, name, r, host, protocol, port);
  }

  lemma {:induction false} DenyDecides(ctx: Context, r: ForwardRule, host: Text, protocol: Option<Protocol>,
                                       port: Option<nat>)
    requires IsDeny(ctx, r) && Applies(r, host, protocol, port)
    ensures InUngranted(ctx, host) || ByName(ctx, Deny, host, protocol, port)
  {
    GrantKeys(ctx);
    if NamedHostRule(ctx, Deny, r) { NamedRuleDecides(ctx, Deny, r, host, protocol, port); }
  }

  lemma {:induction false} DenyIsCompiled(ctx: Context, host: Text, protocol: Option<Protocol>, port: Option<nat>)
    returns (r: ForwardRule)
    requires Eligible(ctx) && (InUngranted(ctx, host) || ByName(ctx, Deny, host, protocol, port))
    ensures IsDeny(ctx, r) && Applies(r, host, protocol, port)
  {
    if InUngranted(ctx, host) {
      GrantKeys(ctx);
      var t :| t in Carried(ctx) && !Granted(ctx, t) && TextWithin(host, t);
      r := Entry(ctx, t, EVERYTHING);
      assert UngrantedDeny(ctx, r);
    } else {
      r := NameHasRule(ctx, Deny, host, protocol, port);
    }
  }

  lemma {:induction false} DenyMeaning(ctx: Context, filter: Filter, host: Text, protocol: Option<Protocol>,
                                       port: Option<nat>)
    requires Compiled(ctx, filter) && Eligible(ctx)
    ensures SomeApplies(filter.deny, host, protocol, port) <==>
            InUngranted(ctx, host) || ByName(ctx, Deny, host, protocol, port)
  {
    assert filter.deny[0..] == filter.deny;
    assert forall r :: r in filter.deny <==> IsDeny(ctx, r);
    if r :| r in filter.deny && Applies(r, host, protocol, port) {
      DenyDecides(ctx, r, host, protocol, port);
    } else if InUngranted(ctx, host) || ByName(ctx, Deny, host, protocol, port) {
      var r := DenyIsCompiled(ctx, host, protocol, port);
    }
  }

  /** The complement entries of a default-route grant apply exactly to hosts of its family
      that share no address with a carried prefix. */
  lemma {:induction false} ExitRulesMeaning(ctx: Context, t: Text, host: Text)
    requires IsDefaultRoute(t)
    ensures (exists p :: p in ComplementBlocks(t.block.family, CarriedBlocks(ctx)) && TextWithin(host, Canon(p))) <==>
            Parse(host).Some? && t == Canon(DefaultRoute(Parse(host).value.family))
            && forall c :: c in Carried(ctx) ==> !TextsMeet(host, c)
  {
    if Parse(host).Some? {
      AvoidsCarried(ctx, host);
      ExitBlocksMeaning(t.block.family, CarriedBlocks(ctx), host);
    }
  }

  lemma {:induction false} CanonWithin(host: Text, p: Block)
    requires Parse(host).Some? && IsNetwork(p)
    ensures TextWithin(host, Canon(p)) <==> Within(Parse(host).value, p)
  {
  }

  lemma {:induction false} ExitBlocksMeaning(f: Family, excluded: set<Block>, host: Text)
    requires Parse(host).Some? && forall b :: b in excluded ==> IsBlock(b)
    ensures (exists p :: p in ComplementBlocks(f, excluded) && TextWithin(host, Canon(p)))
            <==> Parse(host).value.family == f && Avoids(Parse(host).value, excluded)
  {
    var h := Parse(host).value;
    ComplementWithin(f, excluded, h);
    if p :| p in ComplementBlocks(f, excluded) && TextWithin(host, Canon(p)) {
      CanonWithin(host, p);
    } else if h.family == f && Avoids(h, excluded) {
      var p :| p in ComplementBlocks(f, excluded) && IsBlock(p) && Within(h, p);
      CanonWithin(host, p);
    }
  }

  lemma AvoidsCarried(ctx: Context, host: Text)
    requires Parse(host).Some?
    ensures Avoids(Parse(host).value, CarriedBlocks(ctx)) <==> forall c :: c in Carried(ctx) ==> !TextsMeet(host, c)
  {
    if Avoids(Parse(host).value, CarriedBlocks(ctx)) {
      forall c | c in Carried(ctx) ensures !TextsMeet(host, c) {
        if Parse(c).Some? { assert Parse(c).value in CarriedBlocks(ctx); }
      }
    }
  }

  /** The grant reaches the host: by containment, or for a default route by family and by
      sharing no address with a carried prefix. */
  ghost predicate GrantReaches(ctx: Context, t: Text, host: Text) {
    if IsDefaultRoute(t) then
      Parse(host).Some? && t == Canon(DefaultRoute(Parse(host).value.family))
      && forall c :: c in Carried(ctx) ==> !TextsMeet(host, c)
    else TextWithin(host, t)
  }

  /** The rules of one grant apply exactly when the grant reaches the host. */
  lemma GrantRuleMeaning(ctx: Context, t: Text, service: Service, host: Text)
    ensures (exists r :: GrantRule(ctx, t, service, r) && TextWithin(host, r.destination)) <==>
            GrantReaches(ctx, t, host)
  {
    if IsDefaultRoute(t) {
      ExitRulesMeaning(ctx, t, host);
      if p :| p in ComplementBlocks(t.block.family, CarriedBlocks(ctx)) && TextWithin(host, Canon(p)) {
        assert GrantRule(ctx, t, service, Entry(ctx, Canon(p), service));
      }
    } else {
      assert GrantRule(ctx, t, service, Entry(ctx, t, service));
    }
  }

  lemma {:induction false} AllowIsReach(ctx: Context, r: ForwardRule, host: Text, protocol: Option<Protocol>,
                                        port: Option<nat>)
    returns (t: Text)
    requires PrefixAllow(ctx, GrantMap(ctx), r) && Applies(r, host, protocol, port)
    ensures Granted(ctx, t) && GrantAdmits(ctx, t, protocol, port) && GrantReaches(ctx, t, host)
  {
    t :| t in GrantMap(ctx) && GrantRule(ctx, t, GrantMap(ctx)[t], r);
    GrantMapMeaning(ctx, t, protocol, port);
    GrantRuleMeaning(ctx, t, GrantMap(ctx)[t], host);
  }

  lemma {:induction false} ReachIsAllow(ctx: Context, t: Text, host: Text, protocol: Option<Protocol>,
                                        port: Option<nat>)
    returns (r: ForwardRule)
    requires Granted(ctx, t) && GrantAdmits(ctx, t, protocol, port) && GrantReaches(ctx, t, host)
    ensures PrefixAllow(ctx, GrantMap(ctx), r) && Applies(r, host, protocol, port)
  {
    GrantMapMeaning(ctx, t, protocol, port);
    GrantRuleMeaning(ctx, t, GrantMap(ctx)[t], host);
    r :| GrantRule(ctx, t, GrantMap(ctx)[t], r) && TextWithin(host, r.destination);
  }

  lemma {:induction false} ReachedIsPrivateOrExit(ctx: Context, t: Text, host: Text, protocol: Option<Protocol>,
                                                  port: Option<nat>)
    requires Granted(ctx, t) && GrantAdmits(ctx, t, protocol, port) && GrantReaches(ctx, t, host)
    ensures ByPrivateGrant(ctx, host, protocol, port) || ByExit(ctx, host, protocol, port)
  {
  }

  lemma {:induction false} PrivateReaches(ctx: Context, host: Text, protocol: Option<Protocol>, port: Option<nat>)
    returns (t: Text)
    requires ByPrivateGrant(ctx, host, protocol, port) || ByExit(ctx, host, protocol, port)
    ensures Granted(ctx, t) && GrantAdmits(ctx, t, protocol, port) && GrantReaches(ctx, t, host)
  {
    if ByPrivateGrant(ctx, host, protocol, port) {
      t :| Granted(ctx, t) && !IsDefaultRoute(t) && TextWithin(host, t) && GrantAdmits(ctx, t, protocol, port);
    } else {
      t := Canon(DefaultRoute(Parse(host).value.family));
    }
  }

  lemma {:induction false} AllowDecides(ctx: Context, r: ForwardRule, host: Text, protocol: Option<Protocol>,
                                        port: Option<nat>)
    requires IsAllow(ctx, r) && Applies(r, host, protocol, port)
    ensures ByPrivateGrant(ctx, host, protocol, port) || ByName(ctx, Allow, host, protocol, port)
            || ByExit(ctx, host, protocol, port)
  {
    if NamedHostRule(ctx, Allow, r) {
      NamedRuleDecides(ctx, Allow, r, host, protocol, port);
    } else {
      var t := AllowIsReach(ctx, r, host, protocol, port);
      ReachedIsPrivateOrExit(ctx, t, host, protocol, port);
    }
  }

  lemma {:induction false} AllowIsCompiled(ctx: Context, host: Text, protocol: Option<Protocol>, port: Option<nat>)
    returns (r: ForwardRule)
    requires Eligible(ctx)
    requires ByPrivateGrant(ctx, host, protocol, port) || ByName(ctx, Allow, host, protocol, port)
             || ByExit(ctx, host, protocol, port)
    ensures IsAllow(ctx, r) && Applies(r, host, protocol, port)
  {
    if ByName(ctx, Allow, host, protocol, port) {
      r := NameHasRule(ctx, Allow, host, protocol, port);
    } else {
      var t := PrivateReaches(ctx, host, protocol, port);
      r := ReachIsAllow(ctx, t, host, protocol, port);
    }
  }

  lemma {:induction false} AllowMeaning(ctx: Context, filter: Filter, host: Text, protocol: Option<Protocol>,
                                        port: Option<nat>)
    requires Compiled(ctx, filter) && Eligible(ctx)
    ensures SomeApplies(filter.allow, host, protocol, port) <==>
            ByPrivateGrant(ctx, host, protocol, port) || ByName(ctx, Allow, host, protocol, port)
            || ByExit(ctx, host, protocol, port)
  {
    assert filter.allow[0..] == filter.allow;
    assert forall r :: r in filter.allow <==> IsAllow(ctx, r);
    if r :| r in filter.allow && Applies(r, host, protocol, port) {
      AllowDecides(ctx, r, host, protocol, port);
    } else if ByPrivateGrant(ctx, host, protocol, port) || ByName(ctx, Allow, host, protocol, port)
              || ByExit(ctx, host, protocol, port) {
      var r := AllowIsCompiled(ctx, host, protocol, port);
    }
  }

  /** A compiled filter permits exactly what the inputs say the client may reach. */
  lemma PermitsIsMayForward(ctx: Context, filter: Filter, host: Text, protocol: Option<Protocol>, port: Option<nat>)
    requires Compiled(ctx, filter)
    ensures Permits(filter, host, protocol, port) <==> MayForward(ctx, host, protocol, port)
  {
    EligibleMeaning(ctx);
    if Eligible(ctx) {
      DenyMeaning(ctx, filter, host, protocol, port);
      AllowMeaning(ctx, filter, host, protocol, port);
    } else {
      assert filter.allow[0..] == filter.allow;
      assert forall r :: r in filter.allow <==> IsAllow(ctx, r);
      assert !SomeApplies(filter.allow, host, protocol, port);
      assert Reaches(ctx) ==> !ByPrivateGrant(ctx, host, protocol, port) && !ByExit(ctx, host, protocol, port)
                              && !ByName(ctx, Allow, host, protocol, port);
    }
  }

  /** A device row as the filter of one client is compiled from it. */
  datatype DeviceRow = DeviceRow(id: string, name: string, dnsName: string,
                                 approved: seq<Text>, advertised: seq<Text>, overlay: seq<Text>)

  function RowOf(rows: seq<DeviceRow>, id: string): Option<DeviceRow> {
    if rows == [] then None
    else if rows[|rows| - 1].id == id then Some(rows[|rows| - 1])
    else RowOf(rows[..|rows| - 1], id)
  }

  function RouterOf(row: DeviceRow): Router {
    Router(row.id, row.name, row.dnsName, row.approved, row.advertised)
  }

  /** The client as its row shows it. One without an active row, or that is the router itself,
      has no overlay address. */
  function ClientOf(rows: seq<DeviceRow>, routerId: string, clientId: string, exitRequest: Option<string>): Client {
    var row := RowOf(rows, clientId);
    Client(clientId, if row.Some? && clientId != routerId then row.value.overlay else [], exitRequest)
  }

  /** The loop over the active rows of the router and the client. */
  method FindRows(rows: seq<DeviceRow>, routerId: string, clientId: string)
    returns (router: Option<DeviceRow>, overlay: seq<Text>)
    requires forall i :: 0 <= i < |rows| ==> rows[i].id == routerId || rows[i].id == clientId
    ensures router == RowOf(rows, routerId)
    ensures overlay == ClientOf(rows, routerId, clientId, None).overlay
  {
    router, overlay := None, [];
    for i := 0 to |rows|
      invariant router == RowOf(rows[..i], routerId)
      invariant overlay == ClientOf(rows[..i], routerId, clientId, None).overlay
    {
      assert rows[..i + 1][..i] == rows[..i];
      if rows[i].id == routerId {
        router := Some(rows[i]);
      } else {
        overlay := rows[i].overlay;
      }
    }
    assert rows[..|rows|] == rows;
  }

  /** `client_filter`: what the router would let this one client reach. Without an active row of
      the router that is nothing. */
  method ClientFilter(acl: Acl, distribution: Distribution, rows: seq<DeviceRow>,
                      routerId: string, clientId: string, exitRequest: Option<string>)
    returns (filter: Filter)
    requires forall i :: 0 <= i < |rows| ==> rows[i].id == routerId || rows[i].id == clientId
    ensures RowOf(rows, routerId).None? ==> filter == Filter([], [])
    ensures RowOf(rows, routerId).Some? ==>
              var ctx := Context(acl, distribution, RouterOf(RowOf(rows, routerId).value),
                                 ClientOf(rows, routerId, clientId, exitRequest));
              Compiled(ctx, filter)
              && forall host, protocol, port ::
                   Permits(filter, host, protocol, port) <==> MayForward(ctx, host, protocol, port)
  {
    var router, overlay := FindRows(rows, routerId, clientId);
    if router.None? {
      return Filter([], []);
    }
    var ctx := Context(acl, distribution, RouterOf(router.value), Client(clientId, overlay, exitRequest));
    filter := CompileClient(ctx, Filter([], []));
    forall host, protocol, port
      ensures Permits(filter, host, protocol, port) <==> MayForward(ctx, host, protocol, port)
    {
      PermitsIsMayForward(ctx, filter, host, protocol, port);
    }
  }

  // ----- promises to exit clients -----

  /** The exit route never widens a carried prefix: what is permitted to a host that shares an
      address with one is admitted by a private grant around the host, or by a rule that names
      a host inside a private grant. */
  lemma ExitNeverWidens(ctx: Context, filter: Filter, host: Text, carried: Text,
                        protocol: Option<Protocol>, port: Option<nat>)
    requires Compiled(ctx, filter)
    requires carried in Carried(ctx) && TextsMeet(host, carried)
    requires Permits(filter, host, protocol, port)
    ensures ByPrivateGrant(ctx, host, protocol, port) || ByName(ctx, Allow, host, protocol, port)
  {
    PermitsIsMayForward(ctx, filter, host, protocol, port);
  }

  /** A client whose exit is a router that carries `host` for it. */
  function ExitContext(host: Text, exit: Text): Context {
    Context(Acl(true, map[], []), Distribution([], []), Router("r", "", "", [host, exit], []),
            Client("c", [host], Some("r")))
  }

  lemma {:induction false} CarriedByApproval(ctx: Context, t: Text)
    requires ctx.router.advertised == [] && ctx.distribution == Distribution([], [])
    ensures t in Carried(ctx) <==> t in ctx.router.approved && !IsDefaultRoute(t)
  {
    assert t !in ctx.router.advertised;
    assert forall r :: r !in ctx.distribution.routes;
    assert forall r :: r !in ctx.distribution.reserved;
  }

  lemma {:induction false} ExitClientReaches(host: Text, exit: Text)
    requires IsHostRoute(host) && !IsDefaultRoute(host) && IsDefaultRoute(exit) && TextWithin(host, host)
    ensures var ctx := ExitContext(host, exit);
            Exit(ctx) && Granted(ctx, exit) && host in Carried(ctx) && MayForward(ctx, host, None, None)
  {
    var ctx := ExitContext(host, exit);
    assert host in ctx.router.approved && exit in ctx.router.approved && host in ctx.client.overlay;
    assert ApprovedFor(ctx, host) && ApprovedFor(ctx, exit);
    forall t ensures t in Carried(ctx) <==> t in ctx.router.approved && !IsDefaultRoute(t) {
      CarriedByApproval(ctx, t);
    }
    assert Reaches(ctx);
    assert !InUngranted(ctx, host);
    assert ByPrivateGrant(ctx, host, None, None);
  }

  /** A compiled filter of an exit client that is permitted a carried prefix. */
  method ExitClient() returns (ctx: Context, filter: Filter, host: Text)
    ensures Compiled(ctx, filter) && Exit(ctx) && host in Carried(ctx) && TextsMeet(host, host)
    ensures Permits(filter, host, None, None)
  {
    host := Canon(Block(V4, 0, 32));
    ctx := ExitContext(host, Canon(DefaultRoute(V4)));
    filter := CompileClient(ctx, Filter([], []));
    HostBlock();
    ExitClientReaches(host, Canon(DefaultRoute(V4)));
    PermitsIsMayForward(ctx, filter, host, None, None);
  }

  lemma {:induction false} HostBlock()
    ensures var t := Canon(Block(V4, 0, 32));
            IsHostRoute(t) && !IsDefaultRoute(t) && TextWithin(t, t) && TextsMeet(t, t)
  {
    MembersAreAddresses(Block(V4, 0, 32));
  }

  /** An exit client is refused everything in a carried prefix it has no grant for. */
  lemma UngrantedIsRefused(ctx: Context, filter: Filter, host: Text, carried: Text, exit: Text,
                           protocol: Option<Protocol>, port: Option<nat>)
    requires Compiled(ctx, filter)
    requires IsDefaultRoute(exit) && Granted(ctx, exit)
    requires carried in Carried(ctx) && !Granted(ctx, carried) && TextWithin(host, carried)
    ensures !Permits(filter, host, protocol, port)
  {
    PermitsIsMayForward(ctx, filter, host, protocol, port);
  }

  /** A client that did not select this router as its exit reaches only private grants
      through it, whatever default routes the router carries. */
  lemma NoExitWithoutSelection(ctx: Context, filter: Filter, host: Text, protocol: Option<Protocol>, port: Option<nat>)
    requires Compiled(ctx, filter) && !Exit(ctx)
    requires Permits(filter, host, protocol, port)
    ensures ByPrivateGrant(ctx, host, protocol, port) || ByName(ctx, Allow, host, protocol, port)
    ensures GrantCarries(ctx, host, true)
  {
    PermitsIsMayForward(ctx, filter, host, protocol, port);
    NoDefaultGrant(ctx);
    if !ByPrivateGrant(ctx, host, protocol, port) { NameIsCarried(ctx, host, protocol, port); }
  }

  lemma {:induction false} NoDefaultGrant(ctx: Context)
    requires !Exit(ctx)
    ensures forall t :: Granted(ctx, t) ==> !IsDefaultRoute(t)
  {
  }

  lemma {:induction false} NameIsCarried(ctx: Context, host: Text, protocol: Option<Protocol>, port: Option<nat>)
    requires ByName(ctx, Allow, host, protocol, port)
    ensures GrantCarries(ctx, host, true)
  {
    var name :| name in ctx.acl.hosts && NamedRule(ctx, Allow, name, host, protocol, port);
    var h := HostCidr(ctx.acl.hosts[name]).value;
    var t :| Granted(ctx, t) && !IsDefaultRoute(t) && TextWithin(h, t);
    WithinTransitive(host, h, t);
  }

  lemma WithinTransitive(x: Text, y: Text, z: Text)
    requires TextWithin(x, y) && TextWithin(y, z)
    ensures TextWithin(x, z)
  {
    WithinIsSubset(Parse(x).value, Parse(y).value);
    WithinIsSubset(Parse(y).value, Parse(z).value);
    WithinIsSubset(Parse(x).value, Parse(z).value);
  }
}
