/** The memoised evaluation of a batch of flow events against the policy. */
module FlowEvaluator {
  import opened Cidr
  import opened FlowDirectory
  import opened ForwardService
  import opened Options

  datatype EventProtocol = TcpEvent | UdpEvent | IcmpEvent | Icmpv6Event | OtherEvent

  function AclProtocol(p: EventProtocol): Option<Protocol> {
    match p
    case TcpEvent => Some(Tcp)
    case UdpEvent => Some(Udp)
    case IcmpEvent => Some(Icmp)
    case Icmpv6Event => Some(Icmp)
    case OtherEvent => None
  }

  predicate HasPorts(p: EventProtocol) {
    p.TcpEvent? || p.UdpEvent?
  }

  datatype Event = Event(protocol: EventProtocol, dstPort: nat, src: Address, dst: Address)

  // ----- the policy -----

  /** A policy subject: its tags, and the roles, groups and posture that rules select by. */
  datatype Subject = Subject(tags: set<string>, traits: set<string>)

  /** The unprivileged subject that stands for a named host. */
  const MEMBER := Subject({}, {"role:member"})

  datatype Query = Query(source: Subject, target: Subject, port: Option<nat>, protocol: Option<Protocol>,
                         host: Option<string>)

  datatype Rule = Rule(deny: bool, matches: Query -> bool)

  /** `sshClosed` is the SSH policy's refusal of an ungranted SSH flow. */
  datatype Acl = Acl(rules: seq<Rule>, sameTag: bool, sshClosed: Query -> bool, hosts: seq<(string, Block)>)

  predicate SomeRule(acl: Acl, q: Query, deny: bool) {
    exists i :: 0 <= i < |acl.rules| && acl.rules[i].deny == deny && acl.rules[i].matches(q)
  }

  predicate Default(acl: Acl, q: Query) {
    q.host.None? && acl.sameTag
    && ((q.source.tags == {} && q.target.tags == {}) || exists t :: t in q.source.tags && t in q.target.tags)
  }

  /** `allows_flow`: what the peer maps are compiled from. */
  predicate AllowsFlow(acl: Acl, q: Query) {
    !SomeRule(acl, q, true) && !(q.host.None? && acl.sshClosed(q)) && (SomeRule(acl, q, false) || Default(acl, q))
  }

  datatype Outcome =
    | DenyRule(index: nat)
    | AllowRule(index: nat)
    | SameTag
    | DefaultDeny
    | ResourceGranted(name: string)
    | ResourceRefused(name: string)
    | ByRoute(name: string)
    | SourceInactive
    | TargetInactive
    | Outside
    | PolicyUnread

  /** The first matching rule of one action. */
  function FirstRule(rules: seq<Rule>, q: Query, deny: bool): Option<nat> {
    if rules == [] then None
    else
      var rest := FirstRule(rules[..|rules| - 1], q, deny);
      var last := rules[|rules| - 1];
      if rest.None? && last.deny == deny && last.matches(q) then Some(|rules| - 1) else rest
  }

  function Evaluate(acl: Acl, q: Query): Outcome {
    var deny, allow := FirstRule(acl.rules, q, true), FirstRule(acl.rules, q, false);
    if deny.Some? then DenyRule(deny.value)
    else if !AllowsFlow(acl, q) then DefaultDeny
    else if allow.Some? then AllowRule(allow.value)
    else SameTag
  }

  lemma {:induction false} FirstRuleMeaning(rules: seq<Rule>, q: Query, deny: bool)
    ensures FirstRule(rules, q, deny).Some? ==>
              var k := FirstRule(rules, q, deny).value;
              k < |rules| && rules[k].deny == deny && rules[k].matches(q)
              && forall i :: 0 <= i < k ==> !(rules[i].deny == deny && rules[i].matches(q))
    ensures FirstRule(rules, q, deny).None? ==>
              forall i :: 0 <= i < |rules| ==> !(rules[i].deny == deny && rules[i].matches(q))
  {
    if rules != [] { FirstRuleMeaning(rules[..|rules| - 1], q, deny); }
  }

  /** The loop over the rules that keeps the first allow and the first deny. */
  method FindRules(acl: Acl, q: Query) returns (outcome: Outcome)
    ensures outcome == Evaluate(acl, q)
  {
    var allow: Option<nat>, deny: Option<nat> := None, None;
    for i := 0 to |acl.rules|
      invariant deny == FirstRule(acl.rules[..i], q, true)
      invariant allow == FirstRule(acl.rules[..i], q, false)
    {
      assert acl.rules[..i + 1][..i] == acl.rules[..i];
      if acl.rules[i].matches(q) {
        if acl.rules[i].deny {
          if deny.None? { deny := Some(i); }
        } else {
          if allow.None? { allow := Some(i); }
        }
      }
    }
    assert acl.rules[..|acl.rules|] == acl.rules;
    if deny.Some? { return DenyRule(deny.value); }
    if !AllowsFlow(acl, q) { return DefaultDeny; }
    return if allow.Some? then AllowRule(allow.value) else SameTag;
  }

  /** The named outcome agrees with the decision: an allowing basis exactly when the flow is
      allowed, and each basis names the rule that decided. */
  lemma {:induction false} EvaluateAgrees(acl: Acl, q: Query)
    ensures AllowsFlow(acl, q) <==> Evaluate(acl, q).AllowRule? || Evaluate(acl, q).SameTag?
    ensures SomeRule(acl, q, true) <==> Evaluate(acl, q).DenyRule?
    ensures Evaluate(acl, q).AllowRule? <==> AllowsFlow(acl, q) && SomeRule(acl, q, false)
    ensures Evaluate(acl, q).SameTag? ==> Default(acl, q) && q.host.None?
    ensures Evaluate(acl, q).AllowRule? || Evaluate(acl, q).DenyRule? ==>
              var k := Evaluate(acl, q).index;
              k < |acl.rules| && acl.rules[k].matches(q) && acl.rules[k].deny == Evaluate(acl, q).DenyRule?
              && forall i :: 0 <= i < k && acl.rules[i].matches(q) ==> acl.rules[i].deny != acl.rules[k].deny
  {
    FirstRuleMeaning(acl.rules, q, true);
    FirstRuleMeaning(acl.rules, q, false);
  }

  // ----- the outcome of one event -----

  datatype Env = Env(acl: Option<Acl>, directory: Directory, facts: map<string, Subject>)

  /** `ResourceEntry::grants`. */
  predicate Grants(ranges: set<(nat, nat)>, protocols: set<Protocol>, p: EventProtocol, port: nat) {
    var everything := ranges == {} && protocols == {};
    match AclProtocol(p)
    case None => everything
    case Some(Icmp) => everything || Icmp in protocols
    case Some(name) =>
      (protocols == {} || name in protocols)
      && (ranges == {} || exists r :: r in ranges && r.0 <= port <= r.1)
  }

  /** The port that policy sees: TCP and UDP only, and not zero. */
  function PolicyPort(e: Event): Option<nat> {
    if HasPorts(e.protocol) && e.dstPort != 0 then Some(e.dstPort) else None
  }

  /** The most specific host name that covers the address; later names win ties. */
  function HostFor(hosts: seq<(string, Block)>, a: Address): Option<(string, Block)> {
    if hosts == [] then None
    else
      var rest, last := HostFor(hosts[..|hosts| - 1], a), hosts[|hosts| - 1];
      if IsBlock(last.1) && CidrContains(last.1, a) && (rest.None? || last.1.len >= rest.value.1.len)
      then Some(last) else rest
  }

  function ResourceById(resources: seq<Keyed<Resource>>, id: string): Option<Resource> {
    if resources == [] then None
    else if resources[0].item.id == id then Some(resources[0].item)
    else ResourceById(resources[1..], id)
  }

  function FactsOf(env: Env, i: Identity): Option<Subject> {
    if IdOf(i).Some? then Get(env.facts, IdOf(i).value) else None
  }

  function ToElsewhere(env: Env, acl: Acl, e: Event, source: Subject, target: Identity): Outcome {
    var host := HostFor(acl.hosts, e.dst);
    var byHost := if host.None? then DefaultDeny
                  else Evaluate(acl, Query(source, MEMBER, PolicyPort(e), AclProtocol(e.protocol), Some(host.value.0)));
    if !byHost.DefaultDeny? then byHost
    else match target
      case InResource(id, name, _) =>
        var r := ResourceById(env.directory.resources, id);
        if r.None? || Grants(r.value.ranges, r.value.protocols, e.protocol, e.dstPort) then ResourceGranted(name)
        else ResourceRefused(name)
      case OnRoute(cidr) => ByRoute(cidr)
      case _ => Outside
  }

  /** The outcome of an event for given identities, computed without the cache. */
  function OutcomeFor(env: Env, e: Event, source: Identity, target: Identity): Outcome {
    if env.acl.None? then PolicyUnread
    else if !source.Device? || FactsOf(env, source).None? then SourceInactive
    else if !target.Device? then ToElsewhere(env, env.acl.value, e, FactsOf(env, source).value, target)
    else if FactsOf(env, target).None? then TargetInactive
    else Evaluate(env.acl.value, Query(FactsOf(env, source).value, FactsOf(env, target).value,
                                       PolicyPort(e), AclProtocol(e.protocol), None))
  }

  function Direct(env: Env, e: Event): Outcome {
    OutcomeFor(env, e, Resolve(env.directory, e.src), Resolve(env.directory, e.dst))
  }

  // ----- the cache -----

  datatype Kind = DeviceKind | ResourceKind | RouteKind | UnknownKind

  function KindOf(i: Identity): Kind {
    match i
    case Device(_, _, _) => DeviceKind
    case InResource(_, _, _) => ResourceKind
    case OnRoute(_) => RouteKind
    case Unknown => UnknownKind
  }

  datatype Key = Key(source: Option<string>, target: Option<string>, dst: Address,
                     protocol: EventProtocol, port: Option<nat>, kind: Kind)

  function KeyOf(env: Env, e: Event): Key {
    var target := Resolve(env.directory, e.dst);
    Key(IdOf(Resolve(env.directory, e.src)), IdOf(target), e.dst, e.protocol, PolicyPort(e), KindOf(target))
  }

  /** The cache after a batch, from an empty one: the first event of a key decides it. */
  function CacheAfter(env: Env, events: seq<Event>): map<Key, Outcome> {
    if events == [] then map[]
    else
      var cache, e := CacheAfter(env, events[..|events| - 1]), events[|events| - 1];
      if KeyOf(env, e) in cache || env.acl.None? then cache else cache[KeyOf(env, e) := Direct(env, e)]
  }

  /** What the evaluator answers for an event after a batch. */
  function Answer(env: Env, events: seq<Event>, e: Event): Outcome {
    var cache := CacheAfter(env, events);
    if env.acl.Some? && KeyOf(env, e) in cache then cache[KeyOf(env, e)] else Direct(env, e)
  }

  class Evaluator {
    const env: Env
    var cache: map<Key, Outcome>
    ghost var seen: seq<Event>

    ghost predicate Valid()
      reads this
    {
      cache == CacheAfter(env, seen)
    }

    constructor (env: Env)
      ensures this.env == env && seen == [] && Valid()
    {
      this.env, cache, seen := env, map[], [];
    }

    method Outcome(e: Event) returns (outcome: Outcome)
      requires Valid()
      modifies this
      ensures Valid() && seen == old(seen) + [e]
      ensures outcome == Answer(env, old(seen), e)
    {
      assert (seen + [e])[..|seen|] == seen;
      seen := seen + [e];
      if env.acl.None? { return PolicyUnread; }
      var key := KeyOf(env, e);
      if key in cache { return cache[key]; }
      outcome := Direct(env, e);
      cache := cache[key := outcome];
    }

    /** A batch, in order. */
    method Batch(events: seq<Event>) returns (outcomes: seq<Outcome>)
      requires Valid() && seen == []
      modifies this
      ensures Valid() && |outcomes| == |events|
      ensures forall i :: 0 <= i < |events| ==> outcomes[i] == Answer(env, events[..i], events[i])
      ensures Transparent(env) && AllReal(events) ==>
                forall i :: 0 <= i < |events| ==> outcomes[i] == Direct(env, events[i])
    {
      outcomes := [];
      for i := 0 to |events|
        invariant Valid() && seen == events[..i] && Memoised(env, events[..i], outcomes)
      {
        var outcome := Outcome(events[i]);
        MemoisedStep(env, events[..i], outcomes, events[i], outcome);
        outcomes := outcomes + [outcome];
        assert events[..i + 1] == events[..i] + [events[i]];
      }
      assert events[..|events|] == events;
      SoundBatch(env, events, outcomes);
    }
  }

  /** The answers to a batch, each from the cache of the events before it. */
  ghost predicate Memoised(env: Env, events: seq<Event>, outcomes: seq<Outcome>) {
    |outcomes| == |events| && forall i :: 0 <= i < |events| ==> outcomes[i] == Answer(env, events[..i], events[i])
  }

  lemma {:induction false} MemoisedStep(env: Env, events: seq<Event>, outcomes: seq<Outcome>, e: Event, o: Outcome)
    requires Memoised(env, events, outcomes) && o == Answer(env, events, e)
    ensures Memoised(env, events + [e], outcomes + [o])
  {
    forall i | 0 <= i < |events| + 1
      ensures (outcomes + [o])[i] == Answer(env, (events + [e])[..i], (events + [e])[i])
    {
      assert (events + [e])[..i] == events[..i];
      assert events[..|events|] == events;
    }
  }

  // ----- when the cache is sound -----

  lemma {:induction false} SoundBatch(env: Env, events: seq<Event>, outcomes: seq<Outcome>)
    requires Memoised(env, events, outcomes)
    ensures Transparent(env) && AllReal(events) ==>
              forall i :: 0 <= i < |events| ==> outcomes[i] == Direct(env, events[i])
  {
    if Transparent(env) && AllReal(events) {
      forall i | 0 <= i < |events| ensures outcomes[i] == Direct(env, events[i]) {
        assert AllReal(events[..i]) && Real(events[i]);
      }
    }
  }

  /** The address resolves to a device the policy knows. */
  predicate FromKnownDevice(env: Env, a: Address) {
    Resolve(env.directory, a).Device? && Resolve(env.directory, a).id in env.facts
  }

  /** No address of something else shares its identifier with a known device's. */
  ghost predicate Unambiguous(env: Env) {
    forall a: Address, b: Address ::
      IsAddress(a) && IsAddress(b) && FromKnownDevice(env, a)
      && IdOf(Resolve(env.directory, b)) == IdOf(Resolve(env.directory, a))
      ==> Resolve(env.directory, b).Device?
  }

  /** The event is between two addresses. */
  predicate Real(e: Event) {
    IsAddress(e.src) && IsAddress(e.dst)
  }

  predicate AllReal(events: seq<Event>) {
    forall i :: 0 <= i < |events| ==> Real(events[i])
  }

  /** Every answer in every batch is the uncached one. */
  ghost predicate Transparent(env: Env) {
    forall events: seq<Event>, e: Event :: AllReal(events) && Real(e) ==> Answer(env, events, e) == Direct(env, e)
  }

  /** The port the resource check reads is settled by the protocol and the policy port. */
  lemma GrantsByPolicyPort(ranges: set<(nat, nat)>, protocols: set<Protocol>, e: Event, f: Event)
    requires e.protocol == f.protocol && PolicyPort(e) == PolicyPort(f)
    ensures Grants(ranges, protocols, e.protocol, e.dstPort) == Grants(ranges, protocols, f.protocol, f.dstPort)
  {
  }

  lemma {:induction false} ElsewhereByKey(env: Env, acl: Acl, e: Event, f: Event, source: Subject, target: Identity)
    requires e.protocol == f.protocol && PolicyPort(e) == PolicyPort(f) && e.dst == f.dst
    ensures ToElsewhere(env, acl, e, source, target) == ToElsewhere(env, acl, f, source, target)
  {
    if target.InResource? {
      var r := ResourceById(env.directory.resources, target.id);
      if r.Some? { GrantsByPolicyPort(r.value.ranges, r.value.protocols, e, f); }
    }
  }

  /** Events with one key have one outcome. */
  lemma {:induction false} KeyDecides(env: Env, e: Event, f: Event)
    requires Unambiguous(env) && Real(e) && Real(f) && KeyOf(env, e) == KeyOf(env, f)
    ensures Direct(env, e) == Direct(env, f)
  {
    var s, t := Resolve(env.directory, e.src), Resolve(env.directory, f.src);
    assert FromKnownDevice(env, e.src) == FromKnownDevice(env, f.src);
    if env.acl.Some? && FromKnownDevice(env, e.src) {
      assert FactsOf(env, s) == FactsOf(env, t);
      ElsewhereByKey(env, env.acl.value, e, f, FactsOf(env, s).value, Resolve(env.directory, e.dst));
    }
  }

  lemma {:induction false} CachedIsDirect(env: Env, events: seq<Event>, e: Event)
    requires Unambiguous(env) && AllReal(events) && Real(e) && KeyOf(env, e) in CacheAfter(env, events)
    ensures CacheAfter(env, events)[KeyOf(env, e)] == Direct(env, e)
  {
    var n := |events| - 1;
    if KeyOf(env, e) in CacheAfter(env, events[..n]) {
      CachedIsDirect(env, events[..n], e);
    } else {
      KeyDecides(env, e, events[n]);
    }
  }

  lemma {:induction false} ConfusedAnswer(env: Env, a: Address, b: Address)
    requires env.acl.Some? && FromKnownDevice(env, a) && !Resolve(env.directory, b).Device?
    requires IdOf(Resolve(env.directory, b)) == IdOf(Resolve(env.directory, a))
    ensures var first, second := Event(TcpEvent, 1, a, a), Event(TcpEvent, 1, b, a);
            Answer(env, [first], second) != Direct(env, second)
  {
    var first, second := Event(TcpEvent, 1, a, a), Event(TcpEvent, 1, b, a);
    assert [first][..0] == [];
    assert CacheAfter(env, [first]) == map[KeyOf(env, first) := Direct(env, first)];
    assert KeyOf(env, first) == KeyOf(env, second);
    assert Direct(env, second) == SourceInactive;
  }

  /** In every batch and every order the cache changes no answer, exactly when no resource or
      route that some address resolves to carries a known device's identifier. */
  lemma {:induction false} MemoIsTransparent(env: Env)
    requires env.acl.Some?
    ensures Transparent(env) <==> Unambiguous(env)
  {
    if Unambiguous(env) {
      forall events: seq<Event>, e: Event | AllReal(events) && Real(e)
        ensures Answer(env, events, e) == Direct(env, e) {
        if KeyOf(env, e) in CacheAfter(env, events) { CachedIsDirect(env, events, e); }
      }
    }
    if Transparent(env) {
      forall a: Address, b: Address |
        IsAddress(a) && IsAddress(b) && FromKnownDevice(env, a)
        && IdOf(Resolve(env.directory, b)) == IdOf(Resolve(env.directory, a))
        ensures Resolve(env.directory, b).Device?
      {
        if !Resolve(env.directory, b).Device? {
          ConfusedAnswer(env, a, b);
          assert AllReal([Event(TcpEvent, 1, a, a)]) && Real(Event(TcpEvent, 1, b, a));
        }
      }
    }
  }

  /** A known device owns `a`, and `b` is something else filed under that device's identifier. */
  ghost predicate SharesId(env: Env, rows: seq<NodeRow>, i: nat, a: Address, b: Address) {
    IsAddress(a) && IsAddress(b) && IsOwner(rows, i, a) && rows[i].id in env.facts
    && !Resolve(env.directory, b).Device? && IdOf(Resolve(env.directory, b)) == Some(rows[i].id)
  }

  lemma {:induction false} OwnerIsUnique(rows: seq<NodeRow>, i: nat, j: nat, a: Address)
    requires IsOwner(rows, i, a) && IsOwner(rows, j, a)
    ensures i == j
  {
  }

  /** On a loaded directory a known device's address is one that a known row owns. */
  lemma {:induction false} KnownOwner(env: Env, rows: seq<NodeRow>, resources: seq<ResourceRow>, a: Address)
    requires Loaded(env.directory, rows, resources) && DistinctIds(rows)
    ensures FromKnownDevice(env, a) <==> exists i: nat :: IsOwner(rows, i, a) && rows[i].id in env.facts
    ensures forall i: nat :: IsOwner(rows, i, a) ==> IdOf(Resolve(env.directory, a)) == Some(rows[i].id)
  {
    DeviceMeaning(env.directory, rows, resources, a);
    forall i: nat | IsOwner(rows, i, a)
      ensures Resolve(env.directory, a) == DeviceOf(rows[i])
    {
      var j: nat :| IsOwner(rows, j, a) && Resolve(env.directory, a) == DeviceOf(rows[j]);
      OwnerIsUnique(rows, i, j, a);
    }
  }

  /** For loaded rows: some batch gets another answer than without the cache exactly when an
      address resolves to a resource or route under the identifier of a known device that owns
      an address. */
  lemma {:induction false} LoadedConfusesIff(env: Env, rows: seq<NodeRow>, resources: seq<ResourceRow>)
    requires env.acl.Some? && Loaded(env.directory, rows, resources) && DistinctIds(rows)
    ensures !Transparent(env) <==> exists i: nat, a: Address, b: Address :: SharesId(env, rows, i, a, b)
  {
    MemoIsTransparent(env);
    if i: nat, a: Address, b: Address :| SharesId(env, rows, i, a, b) {
      KnownOwner(env, rows, resources, a);
      assert FromKnownDevice(env, a);
    } else if !Unambiguous(env) {
      var a: Address, b: Address :| IsAddress(a) && IsAddress(b) && FromKnownDevice(env, a)
                                    && IdOf(Resolve(env.directory, b)) == IdOf(Resolve(env.directory, a))
                                    && !Resolve(env.directory, b).Device?;
      KnownOwner(env, rows, resources, a);
      var i: nat :| IsOwner(rows, i, a) && rows[i].id in env.facts;
      assert SharesId(env, rows, i, a, b);
    }
  }

  /** An active device with one address. */
  function OneDevice(id: string, a: Address): NodeRow {
    NodeRow(id, "device", "", true, [Some(Block(a.family, a.bits, Width(a.family)))], [])
  }

  function OneResource(id: string, b: Block): ResourceRow {
    ResourceRow(id, "resource", "", Some(b), {}, {})
  }

  lemma {:induction false} OneParsed(id: string, b: Block)
    ensures ParsedResources([OneResource(id, b)]) == [Keyed(b, "resource", Resource(id, "resource", "", {}, {}))]
  {
    assert [OneResource(id, b)][..0] == [] && Ranges({}) == {};
  }

  lemma {:induction false} OneSorted<T>(x: Keyed<T>)
    ensures StableSort([x]) == [x]
  {
    assert [x][..0] == [];
    assert StableSort<T>([]) == [];
    assert Insert(x, []) == [x];
  }

  lemma {:induction false} OneOfEach(d: Directory, id: string, a: Address, b: Block)
    requires Loaded(d, [OneDevice(id, a)], [OneResource(id, b)])
    requires IsAddress(a) && IsBlock(b) && Address(b.family, b.net) != a
    ensures IsOwner([OneDevice(id, a)], 0, a) && DistinctIds([OneDevice(id, a)])
    ensures Resolve(d, Address(b.family, b.net)) == InResource(id, "resource", "")
  {
    var rows, other := [OneDevice(id, a)], Address(b.family, b.net);
    var allowed := rows[0].allowed;
    assert allowed[..0] == [] && Hosts(allowed) == [a];
    DeviceMeaning(d, rows, [OneResource(id, b)], other);
    assert Unheld(rows, other);
    OneParsed(id, b);
    OneSorted(Keyed(b, "resource", Resource(id, "resource", "", {}, {})));
    MembersAreAddresses(b);
    ContainsIsMembership(b, other);
  }

  /** An organisation with one device and one resource under the same identifier: once loaded,
      an event from the resource gets the answer of an earlier event from the device. */
  lemma {:induction false} SharedIdConfuses(env: Env, id: string, a: Address, b: Block)
    requires env.acl.Some? && id in env.facts && Loaded(env.directory, [OneDevice(id, a)], [OneResource(id, b)])
    requires IsAddress(a) && IsBlock(b) && Address(b.family, b.net) != a
    ensures !Transparent(env)
  {
    OneOfEach(env.directory, id, a, b);
    MembersAreAddresses(b);
    assert SharesId(env, [OneDevice(id, a)], 0, a, Address(b.family, b.net));
    LoadedConfusesIff(env, [OneDevice(id, a)], [OneResource(id, b)]);
  }

  lemma PolicyUnreadIsTransparent(env: Env)
    requires env.acl.None?
    ensures Transparent(env)
  {
  }

  /** Device, resource and route identifiers are disjoint. */
  ghost predicate DisjointIds(d: Directory) {
    (forall i :: 0 <= i < |d.resources| ==> d.resources[i].item.id !in d.nodes)
    && (forall i :: 0 <= i < |d.routes| ==> d.routes[i].item !in d.nodes)
    && (forall id :: id in d.nodes ==> d.nodes[id].id == id)
  }

  /** With disjoint identifiers the cache is sound for any policy and facts. */
  lemma {:induction false} DisjointIsTransparent(env: Env)
    requires DisjointIds(env.directory)
    ensures Transparent(env)
  {
    var d := env.directory;
    forall a: Address, b: Address |
      FromKnownDevice(env, a) && IdOf(Resolve(d, b)) == IdOf(Resolve(d, a))
      ensures Resolve(d, b).Device?
    {
      FirstMatchIsMember(d.resources, b);
      FirstMatchIsMember(d.routes, b);
    }
    if env.acl.Some? { MemoIsTransparent(env); } else { PolicyUnreadIsTransparent(env); }
  }

  lemma {:induction false} ParsedIds(resources: seq<ResourceRow>, x: Keyed<Resource>)
    requires x in ParsedResources(resources)
    ensures exists r :: r in resources && r.id == x.item.id
  {
    var n := |resources| - 1;
    if x in ParsedResources(resources[..n]) {
      ParsedIds(resources[..n], x);
    } else {
      assert resources[n].id == x.item.id;
    }
  }

  /** Some approved route of the device has this text. */
  predicate Approves(row: NodeRow, text: string) {
    exists k :: 0 <= k < |row.routes| && row.routes[k].0 == text
  }

  lemma {:induction false} ParsedTexts(row: NodeRow, n: nat, x: Keyed<string>)
    requires n <= |row.routes| && x in ParsedRoutes(row.routes[..n])
    ensures Approves(row, x.item)
    decreases n
  {
    assert row.routes[..n][..n - 1] == row.routes[..n - 1];
    if x in ParsedRoutes(row.routes[..n - 1]) {
      ParsedTexts(row, n - 1, x);
    } else {
      assert row.routes[n - 1].0 == x.item;
    }
  }

  lemma {:induction false} RouteTexts(rows: seq<NodeRow>, x: Keyed<string>)
    requires x in ActiveRoutes(rows)
    ensures exists row :: row in rows && Approves(row, x.item)
  {
    var n := |rows| - 1;
    if x in ActiveRoutes(rows[..n]) {
      RouteTexts(rows[..n], x);
    } else {
      assert rows[n].routes[..|rows[n].routes|] == rows[n].routes;
      ParsedTexts(rows[n], |rows[n].routes|, x);
    }
  }

  /** A loaded node is a row. */
  lemma {:induction false} NodeIsRow(rows: seq<NodeRow>, id: string)
    requires NodeWith(rows, id).Some?
    ensures NodeWith(rows, id).value in rows && NodeWith(rows, id).value.id == id
  {
    if rows[|rows| - 1].id != id { NodeIsRow(rows[..|rows| - 1], id); }
  }

  /** For a loaded directory: when no resource id and no approved route text is a device id,
      every batch gets the uncached answers. */
  lemma {:induction false} LoadedIsTransparent(env: Env, rows: seq<NodeRow>, resources: seq<ResourceRow>)
    requires Loaded(env.directory, rows, resources)
    requires forall row, r :: row in rows && r in resources ==> row.id != r.id
    requires forall row, other :: row in rows && other in rows ==> !Approves(other, row.id)
    ensures Transparent(env)
  {
    var d := env.directory;
    forall id | id in d.nodes ensures d.nodes[id].id == id && d.nodes[id] in rows {
      assert Get(d.nodes, id) == NodeWith(rows, id);
      NodeIsRow(rows, id);
    }
    forall x | x in d.resources ensures x.item.id !in d.nodes {
      SortedHasNoMore(ParsedResources(resources), x);
      ParsedIds(resources, x);
    }
    forall x | x in d.routes ensures x.item !in d.nodes {
      SortedHasNoMore(ActiveRoutes(rows), x);
      RouteTexts(rows, x);
    }
    DisjointIsTransparent(env);
  }

  lemma {:induction false} SortedHasNoMore<T>(s: seq<Keyed<T>>, x: Keyed<T>)
    requires x in StableSort(s)
    ensures x in s
  {
    StableSortSorts(s);
    assert x in multiset(StableSort(s));
  }

  // ----- resources -----

  lemma {:induction false} ResourceByIdMeaning(s: seq<Keyed<Resource>>, x: Keyed<Resource>)
    requires x in s && forall y, z :: y in s && z in s && y.item.id == z.item.id ==> y == z
    ensures ResourceById(s, x.item.id) == Some(x.item)
  {
    if s[0].item.id != x.item.id { ResourceByIdMeaning(s[1..], x); }
  }

  /** With distinct resource ids, the constraints that are checked are those of the most
      specific resource covering the destination. */
  lemma {:induction false} CheckedResourceIsResolved(d: Directory, a: Address)
    requires forall y, z :: y in d.resources && z in d.resources && y.item.id == z.item.id ==> y == z
    requires Resolve(d, a).InResource?
    ensures FirstMatch(d.resources, a).Some?
            && ResourceById(d.resources, Resolve(d, a).id) == Some(FirstMatch(d.resources, a).value.item)
  {
    FirstMatchIsMember(d.resources, a);
    ResourceByIdMeaning(d.resources, FirstMatch(d.resources, a).value);
  }

  /** What the forward filter of a routing peer would admit for the event. */
  predicate FilterAdmits(specs: set<PortSpec>, protocols: set<Protocol>, p: EventProtocol, port: nat) {
    var service := ResourceService(specs, protocols);
    if p.OtherEvent? then service.all
    else Admits(service, AclProtocol(p), if HasPorts(p) then Some(port) else None)
  }

  ghost predicate AgreesWithFilter(specs: set<PortSpec>, protocols: set<Protocol>) {
    forall p: EventProtocol, port: nat | 1 <= port <= 65535 ::
      Grants(Ranges(specs), protocols, p, port) == FilterAdmits(specs, protocols, p, port)
  }

  lemma {:induction false} SomeRange(specs: set<PortSpec>)
    ensures Ranges(specs) != {} <==> exists spec :: spec in specs && spec.range.Some?
  {
    if spec :| spec in specs && spec.range.Some? { assert spec.range.value in Ranges(specs); }
    if Ranges(specs) != {} {
      var r :| r in Ranges(specs);
    }
  }

  lemma {:induction false} SameCover(specs: set<PortSpec>, port: nat)
    ensures SomeCovers(specs, Some(port)) <==> exists r :: r in Ranges(specs) && r.0 <= port <= r.1
  {
    if SomeCovers(specs, Some(port)) {
      var spec :| spec in specs && SpecCovers(spec, Some(port));
      assert spec.range.value in Ranges(specs);
    }
  }

  lemma {:induction false} GrantsAgrees(specs: set<PortSpec>, protocols: set<Protocol>, p: EventProtocol, port: nat)
    requires 1 <= port <= 65535 && (specs == {} || (Icmp !in protocols && Ranges(specs) != {}))
    ensures Grants(Ranges(specs), protocols, p, port) == FilterAdmits(specs, protocols, p, port)
  {
    SameCover(specs, port);
    assert SpecCovers(ALL_PORTS, Some(port));
    assert SomeCovers({ALL_PORTS}, Some(port));
  }

  lemma {:induction false} GrantsDiffers(specs: set<PortSpec>, protocols: set<Protocol>)
    requires specs != {} && (Icmp in protocols || Ranges(specs) == {})
    ensures !AgreesWithFilter(specs, protocols)
  {
    if Icmp in protocols {
      assert Grants(Ranges(specs), protocols, IcmpEvent, 1) != FilterAdmits(specs, protocols, IcmpEvent, 1);
    } else {
      var p := if protocols == {} || Tcp in protocols then TcpEvent else UdpEvent;
      SameCover(specs, 1);
      assert protocols == {} || Tcp in protocols || Udp in protocols by { NamedProtocol(protocols); }
      assert Grants(Ranges(specs), protocols, p, 1) != FilterAdmits(specs, protocols, p, 1);
    }
  }

  lemma {:induction false} NamedProtocol(protocols: set<Protocol>)
    ensures protocols == {} || Tcp in protocols || Udp in protocols || Icmp in protocols
  {
    if protocols != {} {
      var p :| p in protocols;
      assert p == Tcp || p == Udp || p == Icmp;
    }
  }

  /** The recorded grant is the one the forward filter enforces exactly when the resource names
      no ports, or names one that parses and does not name ICMP. */
  lemma {:induction false} GrantsIsForwardFilter(specs: set<PortSpec>, protocols: set<Protocol>)
    ensures AgreesWithFilter(specs, protocols) <==>
            specs == {} || (Icmp !in protocols && exists spec :: spec in specs && spec.range.Some?)
  {
    SomeRange(specs);
    if specs == {} || (Icmp !in protocols && Ranges(specs) != {}) {
      forall p: EventProtocol, port: nat | 1 <= port <= 65535
        ensures Grants(Ranges(specs), protocols, p, port) == FilterAdmits(specs, protocols, p, port)
      {
        GrantsAgrees(specs, protocols, p, port);
      }
    } else {
      GrantsDiffers(specs, protocols);
    }
  }

  /** What the write check lets into the table: every port text parses, and ICMP names no ports. */
  predicate Storable(specs: set<PortSpec>, protocols: set<Protocol>) {
    (forall spec :: spec in specs ==> spec.range.Some?) && (Icmp in protocols ==> specs == {})
  }

  /** For every resource that can be stored, the recorded grant is the one enforced. */
  lemma {:induction false} StorableAgreesWithFilter(specs: set<PortSpec>, protocols: set<Protocol>)
    requires Storable(specs, protocols)
    ensures AgreesWithFilter(specs, protocols)
  {
    SomeMember(specs);
    GrantsIsForwardFilter(specs, protocols);
  }

  lemma {:induction false} SomeMember(specs: set<PortSpec>)
    ensures specs != {} ==> exists spec :: spec in specs
  {
    if specs != {} {
      var spec :| spec in specs;
    }
  }
}
