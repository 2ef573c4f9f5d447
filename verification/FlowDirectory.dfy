/** Who an address belongs to: devices, then network resources, then approved routes, each by
    the most specific prefix. */
module FlowDirectory {
  import opened Cidr
  import opened ForwardService
  import opened Options

  // ----- the order of prefixes -----

  /** Something filed under a prefix; `rank` breaks ties between equal lengths. */
  datatype Keyed<T> = Keyed(network: Block, rank: string, item: T)

  /** The order of strings by their characters. */
  predicate Less(a: string, b: string) {
    b != [] && (a == [] || a[0] < b[0] || (a[0] == b[0] && Less(a[1..], b[1..])))
  }

  /** Longer prefixes first, then by rank. */
  predicate Before<T>(x: Keyed<T>, y: Keyed<T>) {
    x.network.len > y.network.len || (x.network.len == y.network.len && Less(x.rank, y.rank))
  }

  predicate Matches<T>(x: Keyed<T>, a: Address) {
    IsBlock(x.network) && CidrContains(x.network, a)
  }

  function Insert<T>(x: Keyed<T>, s: seq<Keyed<T>>): seq<Keyed<T>> {
    if s == [] || Before(x, s[0]) then [x] + s else [s[0]] + Insert(x, s[1..])
  }

  /** The stable sort that `Vec::sort_by` promises. */
  function StableSort<T>(s: seq<Keyed<T>>): seq<Keyed<T>> {
    if s == [] then [] else Insert(s[|s| - 1], StableSort(s[..|s| - 1]))
  }

  ghost predicate Sorted<T>(s: seq<Keyed<T>>) {
    s == [] || ((forall y :: y in s[1..] ==> !Before(y, s[0])) && Sorted(s[1..]))
  }

  /** The first entry that matches. */
  function FirstMatch<T>(s: seq<Keyed<T>>, a: Address): Option<Keyed<T>> {
    if s == [] then None else if Matches(s[0], a) then Some(s[0]) else FirstMatch(s[1..], a)
  }

  lemma {:induction false} LessSplits(a: string, b: string, c: string)
    requires Less(a, b)
    ensures Less(a, c) || Less(c, b)
  {
    if a != [] && c != [] && a[0] == b[0] == c[0] { LessSplits(a[1..], b[1..], c[1..]); }
  }

  lemma {:induction false} LessIsStrict(a: string, b: string)
    requires Less(a, b)
    ensures !Less(b, a)
  {
    if a != [] && a[0] == b[0] { LessIsStrict(a[1..], b[1..]); }
  }

  lemma BeforeSplits<T>(x: Keyed<T>, y: Keyed<T>, z: Keyed<T>)
    requires Before(x, y)
    ensures Before(x, z) || Before(z, y)
  {
    if x.network.len == y.network.len == z.network.len { LessSplits(x.rank, y.rank, z.rank); }
  }

  lemma {:induction false} BeforeIsStrict<T>(x: Keyed<T>, y: Keyed<T>)
    requires Before(x, y)
    ensures !Before(y, x)
  {
    if x.network.len == y.network.len { LessIsStrict(x.rank, y.rank); }
  }

  lemma {:induction false} InsertHas<T>(x: Keyed<T>, s: seq<Keyed<T>>)
    ensures multiset(Insert(x, s)) == multiset(s) + multiset{x}
  {
    if s != [] && !Before(x, s[0]) {
      InsertHas(x, s[1..]);
      assert s == [s[0]] + s[1..];
    }
  }

  lemma {:induction false} InsertSorts<T>(x: Keyed<T>, s: seq<Keyed<T>>)
    requires Sorted(s)
    ensures Sorted(Insert(x, s))
  {
    var r := Insert(x, s);
    if s == [] {
    } else if Before(x, s[0]) {
      assert r[1..] == s;
      assert s == [s[0]] + s[1..];
      forall y | y in s ensures !Before(y, x) {
        assert y == s[0] || y in s[1..];
        BeforeSplits(x, s[0], y);
        if Before(x, y) { BeforeIsStrict(x, y); }
      }
    } else {
      InsertSorts(x, s[1..]);
      InsertHas(x, s[1..]);
      assert r[1..] == Insert(x, s[1..]);
      forall y | y in r[1..] ensures !Before(y, s[0]) {
        assert y in multiset(Insert(x, s[1..]));
        assert y in multiset(s[1..]) || y == x;
      }
    }
  }

  lemma {:induction false} SplitLast<T>(s: seq<T>)
    requires s != []
    ensures multiset(s) == multiset(s[..|s| - 1]) + multiset{s[|s| - 1]}
  {
    assert s == s[..|s| - 1] + [s[|s| - 1]];
  }

  /** Sorting keeps every entry and orders them. */
  lemma {:induction false} StableSortSorts<T>(s: seq<Keyed<T>>)
    ensures Sorted(StableSort(s)) && multiset(StableSort(s)) == multiset(s)
  {
    if s != [] {
      var before, last := s[..|s| - 1], s[|s| - 1];
      StableSortSorts(before);
      InsertSorts(last, StableSort(before));
      InsertHas(last, StableSort(before));
      SplitLast(s);
    }
  }

  // ----- the first match of the sorted list is the most specific entry -----

  /** The entry of the unsorted list that matches, comes before every earlier match and is
      not beaten by a later one. */
  ghost predicate IsBest<T>(s: seq<Keyed<T>>, i: nat, a: Address) {
    i < |s| && Matches(s[i], a)
    && (forall j :: 0 <= j < i && Matches(s[j], a) ==> Before(s[i], s[j]))
    && (forall j :: i < j < |s| && Matches(s[j], a) ==> !Before(s[j], s[i]))
  }

  function Better<T>(best: Option<Keyed<T>>, x: Keyed<T>, a: Address): Option<Keyed<T>> {
    if Matches(x, a) && (best.None? || Before(x, best.value)) then Some(x) else best
  }

  function Best<T>(s: seq<Keyed<T>>, a: Address): Option<Keyed<T>> {
    if s == [] then None else Better(Best(s[..|s| - 1], a), s[|s| - 1], a)
  }

  lemma {:induction false} FirstMatchIsMember<T>(s: seq<Keyed<T>>, a: Address)
    ensures FirstMatch(s, a).Some? ==> FirstMatch(s, a).value in s
  {
    if s != [] { FirstMatchIsMember(s[1..], a); }
  }

  lemma {:induction false} InsertMatch<T>(x: Keyed<T>, s: seq<Keyed<T>>, a: Address)
    requires Sorted(s)
    ensures FirstMatch(Insert(x, s), a) == Better(FirstMatch(s, a), x, a)
  {
    var r := Insert(x, s);
    if s == [] {
      assert FirstMatch(r[1..], a) == None;
    } else if Before(x, s[0]) {
      assert r[1..] == s;
      FirstMatchIsMember(s, a);
      if FirstMatch(s, a).Some? {
        var b := FirstMatch(s, a).value;
        BeforeSplits(x, s[0], b);
        assert b == s[0] || b in s[1..];
      }
    } else {
      assert r[1..] == Insert(x, s[1..]);
      InsertMatch(x, s[1..], a);
    }
  }

  lemma {:induction false} SortedMatchIsBest<T>(s: seq<Keyed<T>>, a: Address)
    ensures FirstMatch(StableSort(s), a) == Best(s, a)
  {
    if s != [] {
      SortedMatchIsBest(s[..|s| - 1], a);
      StableSortSorts(s[..|s| - 1]);
      InsertMatch(s[|s| - 1], StableSort(s[..|s| - 1]), a);
    }
  }

  lemma {:induction false} BestMeaning<T>(s: seq<Keyed<T>>, a: Address)
    ensures Best(s, a).None? <==> forall i :: 0 <= i < |s| ==> !Matches(s[i], a)
    ensures Best(s, a).Some? ==> exists i: nat :: IsBest(s, i, a) && s[i] == Best(s, a).value
  {
    if s != [] {
      var n := |s| - 1;
      var t := s[..n];
      BestMeaning(t, a);
      assert forall i :: 0 <= i < n ==> t[i] == s[i];
      if Best(t, a).Some? {
        var i: nat :| IsBest(t, i, a) && t[i] == Best(t, a).value;
        if Matches(s[n], a) && Before(s[n], t[i]) {
          BestGivesWay(s, i, a);
          assert IsBest(s, n, a);
        } else {
          assert IsBest(s, i, a);
        }
      } else if Matches(s[n], a) {
        assert IsBest(s, n, a);
      }
    }
  }

  lemma {:induction false} BestGivesWay<T>(s: seq<Keyed<T>>, i: nat, a: Address)
    requires s != [] && IsBest(s[..|s| - 1], i, a) && Before(s[|s| - 1], s[i])
    ensures forall j :: 0 <= j < |s| - 1 && Matches(s[j], a) ==> Before(s[|s| - 1], s[j])
  {
    var t := s[..|s| - 1];
    forall j | 0 <= j < |t| && Matches(t[j], a) ensures Before(s[|s| - 1], t[j]) {
      BeforeSplits(s[|s| - 1], t[i], t[j]);
      if j < i && Before(t[j], t[i]) { BeforeIsStrict(t[j], t[i]); }
    }
    assert forall j :: 0 <= j < |t| ==> t[j] == s[j];
  }

  // ----- loading the directory -----

  /** A device row. `allowed` and `routes` hold what the directory's own parser reads: it keeps the
      host bits of a prefix, and `None` is a text it does not read. */
  datatype NodeRow = NodeRow(id: string, name: string, user: string, active: bool,
                             allowed: seq<Option<Block>>, routes: seq<(string, Option<Block>)>)

  datatype ResourceRow = ResourceRow(id: string, name: string, cidr: string, network: Option<Block>,
                                     specs: set<PortSpec>, protocols: set<Protocol>)

  datatype Resource = Resource(id: string, name: string, cidr: string, ranges: set<(nat, nat)>,
                               protocols: set<Protocol>)

  datatype Directory = Directory(nodes: map<string, NodeRow>, byAddress: map<Address, string>,
                                 resources: seq<Keyed<Resource>>, routes: seq<Keyed<string>>)

  /** The overlay addresses of a row: the full-length prefixes among its allowed ones. */
  function Hosts(allowed: seq<Option<Block>>): seq<Address> {
    if allowed == [] then []
    else
      var rest, last := Hosts(allowed[..|allowed| - 1]), allowed[|allowed| - 1];
      if last.Some? && last.value.len == Width(last.value.family)
      then rest + [Address(last.value.family, last.value.net)]
      else rest
  }

  predicate Holds(row: NodeRow, a: Address) {
    a in Hosts(row.allowed)
  }

  function ParsedRoutes(routes: seq<(string, Option<Block>)>): seq<Keyed<string>> {
    if routes == [] then []
    else
      var rest, last := ParsedRoutes(routes[..|routes| - 1]), routes[|routes| - 1];
      if last.1.Some? then rest + [Keyed(last.1.value, "", last.0)] else rest
  }

  function ActiveRoutes(rows: seq<NodeRow>): seq<Keyed<string>> {
    if rows == [] then []
    else
      var rest, last := ActiveRoutes(rows[..|rows| - 1]), rows[|rows| - 1];
      if last.active then rest + ParsedRoutes(last.routes) else rest
  }

  function Ranges(specs: set<PortSpec>): set<(nat, nat)> {
    set spec | spec in specs && spec.range.Some? :: spec.range.value
  }

  function ParsedResources(rows: seq<ResourceRow>): seq<Keyed<Resource>> {
    if rows == [] then []
    else
      var rest, last := ParsedResources(rows[..|rows| - 1]), rows[|rows| - 1];
      if last.network.Some?
      then rest + [Keyed(last.network.value, last.name,
                         Resource(last.id, last.name, last.cidr, Ranges(last.specs), last.protocols))]
      else rest
  }

  function Get<K, V>(m: map<K, V>, k: K): Option<V> {
    if k in m then Some(m[k]) else None
  }

  function LastActive(rows: seq<NodeRow>, a: Address): Option<string> {
    if rows == [] then None
    else
      var last := rows[|rows| - 1];
      if last.active && Holds(last, a) then Some(last.id) else LastActive(rows[..|rows| - 1], a)
  }

  function FirstInactive(rows: seq<NodeRow>, a: Address): Option<string> {
    if rows == [] then None
    else
      var rest, last := FirstInactive(rows[..|rows| - 1], a), rows[|rows| - 1];
      if rest.None? && !last.active && Holds(last, a) then Some(last.id) else rest
  }

  function OwnerOf(rows: seq<NodeRow>, a: Address): Option<string> {
    var active := LastActive(rows, a);
    if active.Some? then active else FirstInactive(rows, a)
  }

  function NodeWith(rows: seq<NodeRow>, id: string): Option<NodeRow> {
    if rows == [] then None
    else if rows[|rows| - 1].id == id then Some(rows[|rows| - 1])
    else NodeWith(rows[..|rows| - 1], id)
  }

  /** What loading promises of the directory. */
  ghost predicate Loaded(d: Directory, rows: seq<NodeRow>, resources: seq<ResourceRow>) {
    (forall a: Address :: Get(d.byAddress, a) == OwnerOf(rows, a))
    && (forall id: string :: Get(d.nodes, id) == NodeWith(rows, id))
    && d.resources == StableSort(ParsedResources(resources))
    && d.routes == StableSort(ActiveRoutes(rows))
  }

  /** Files addresses under a device. Active rows replace earlier owners; inactive ones only take
      addresses that have none. */
  method AddAddresses(m: map<Address, string>, addresses: seq<Address>, id: string, overwrite: bool)
    returns (r: map<Address, string>)
    ensures forall a: Address :: Get(r, a) ==
                                 if a in addresses && (overwrite || a !in m) then Some(id) else Get(m, a)
  {
    r := m;
    for i := 0 to |addresses|
      invariant forall a: Address :: Get(r, a) ==
                                     if a in addresses[..i] && (overwrite || a !in m) then Some(id) else Get(m, a)
    {
      assert addresses[..i + 1] == addresses[..i] + [addresses[i]];
      assert Get(r, addresses[i]) == Get(r, addresses[i]);
      if overwrite || addresses[i] !in r { r := r[addresses[i] := id]; }
    }
    assert addresses[..|addresses|] == addresses;
  }

  method Load(rows: seq<NodeRow>, resources: seq<ResourceRow>) returns (d: Directory)
    ensures Loaded(d, rows, resources)
  {
    var active: map<Address, string>, inactive: map<Address, string> := map[], map[];
    var nodes: map<string, NodeRow> := map[];
    var routes: seq<Keyed<string>> := [];
    for i := 0 to |rows|
      invariant forall a: Address :: Get(active, a) == LastActive(rows[..i], a)
      invariant forall a: Address :: Get(inactive, a) == FirstInactive(rows[..i], a)
      invariant forall id: string :: Get(nodes, id) == NodeWith(rows[..i], id)
      invariant routes == ActiveRoutes(rows[..i])
    {
      var row := rows[i];
      assert rows[..i + 1][..i] == rows[..i];
      if row.active {
        active := AddAddresses(active, Hosts(row.allowed), row.id, true);
        routes := routes + ParsedRoutes(row.routes);
      } else {
        inactive := AddAddresses(inactive, Hosts(row.allowed), row.id, false);
      }
      nodes := nodes[row.id := row];
    }
    assert rows[..|rows|] == rows;
    d := Directory(nodes, inactive + active, StableSort(ParsedResources(resources)), StableSort(routes));
  }

  // ----- resolving an address -----

  datatype Identity =
    | Device(id: string, name: string, user: Option<string>)
    | InResource(id: string, name: string, cidr: string)
    | OnRoute(cidr: string)
    | Unknown

  /** The `id` of an identity; a route is identified by its text. */
  function IdOf(i: Identity): Option<string> {
    match i
    case Device(id, _, _) => Some(id)
    case InResource(id, _, _) => Some(id)
    case OnRoute(cidr) => Some(cidr)
    case Unknown => None
  }

  function DeviceOf(row: NodeRow): Identity {
    Device(row.id, row.name, if row.user == "" then None else Some(row.user))
  }

  function Resolve(d: Directory, a: Address): Identity {
    if a in d.byAddress && d.byAddress[a] in d.nodes then DeviceOf(d.nodes[d.byAddress[a]])
    else
      var resource := FirstMatch(d.resources, a);
      if resource.Some? then InResource(resource.value.item.id, resource.value.item.name, resource.value.item.cidr)
      else
        var route := FirstMatch(d.routes, a);
        if route.Some? then OnRoute(route.value.item) else Unknown
  }

  // ----- what resolving means -----

  ghost predicate DistinctIds(rows: seq<NodeRow>) {
    forall i, j :: 0 <= i < j < |rows| ==> rows[i].id != rows[j].id
  }

  /** The row that owns an address: the last active holder, or the first holder when no
      active row holds it. */
  ghost predicate IsOwner(rows: seq<NodeRow>, i: nat, a: Address) {
    i < |rows| && Holds(rows[i], a)
    && if rows[i].active then forall j :: i < j < |rows| && Holds(rows[j], a) ==> !rows[j].active
       else (forall j :: 0 <= j < |rows| && Holds(rows[j], a) ==> !rows[j].active)
            && forall j :: 0 <= j < i ==> !Holds(rows[j], a)
  }

  ghost predicate Unheld(rows: seq<NodeRow>, a: Address) {
    forall i :: 0 <= i < |rows| ==> !Holds(rows[i], a)
  }

  ghost predicate Uncovered<T>(s: seq<Keyed<T>>, a: Address) {
    forall i :: 0 <= i < |s| ==> !Has(s[i].network, a)
  }

  /** The most specific covering entry: it covers the address, no other covering entry is
      longer, and ties go to the lower rank, then to the earlier row. */
  ghost predicate MostSpecific<T>(s: seq<Keyed<T>>, i: nat, a: Address) {
    i < |s| && Has(s[i].network, a)
    && (forall j :: 0 <= j < i && Has(s[j].network, a) ==> Before(s[i], s[j]))
    && (forall j :: i < j < |s| && Has(s[j].network, a) ==> !Before(s[j], s[i]))
  }

  lemma {:induction false} LastActiveMeaning(rows: seq<NodeRow>, a: Address)
    ensures LastActive(rows, a).None? <==> forall i :: 0 <= i < |rows| && Holds(rows[i], a) ==> !rows[i].active
    ensures LastActive(rows, a).Some? ==>
              exists i: nat :: IsOwner(rows, i, a) && rows[i].active && rows[i].id == LastActive(rows, a).value
  {
    if rows != [] {
      var n := |rows| - 1;
      LastActiveMeaning(rows[..n], a);
      assert forall i :: 0 <= i < n ==> rows[..n][i] == rows[i];
      if rows[n].active && Holds(rows[n], a) {
        assert IsOwner(rows, n, a);
      } else if LastActive(rows, a).Some? {
        var i: nat :| IsOwner(rows[..n], i, a) && rows[..n][i].active && rows[..n][i].id == LastActive(rows, a).value;
        assert IsOwner(rows, i, a);
      }
    }
  }

  lemma {:induction false} FirstInactiveMeaning(rows: seq<NodeRow>, a: Address)
    requires LastActive(rows, a).None?
    ensures FirstInactive(rows, a).None? <==> Unheld(rows, a)
    ensures FirstInactive(rows, a).Some? ==>
              exists i: nat :: IsOwner(rows, i, a) && rows[i].id == FirstInactive(rows, a).value
  {
    LastActiveMeaning(rows, a);
    if rows != [] {
      var n := |rows| - 1;
      FirstInactiveMeaning(rows[..n], a);
      assert forall i :: 0 <= i < n ==> rows[..n][i] == rows[i];
      if FirstInactive(rows[..n], a).Some? {
        var i: nat :| IsOwner(rows[..n], i, a) && rows[..n][i].id == FirstInactive(rows, a).value;
        assert IsOwner(rows, i, a);
      } else if Holds(rows[n], a) {
        assert IsOwner(rows, n, a);
      }
    }
  }

  lemma {:induction false} NodeWithMeaning(rows: seq<NodeRow>, i: nat)
    requires i < |rows| && DistinctIds(rows)
    ensures NodeWith(rows, rows[i].id) == Some(rows[i])
  {
    var n := |rows| - 1;
    if i < n { NodeWithMeaning(rows[..n], i); }
  }

  /** An address resolves to a device exactly when some row holds it, and then to its owner. */
  lemma {:induction false} DeviceMeaning(d: Directory, rows: seq<NodeRow>, resources: seq<ResourceRow>, a: Address)
    requires Loaded(d, rows, resources) && DistinctIds(rows)
    ensures Unheld(rows, a) <==> !Resolve(d, a).Device?
    ensures Resolve(d, a).Device? ==> exists i: nat :: IsOwner(rows, i, a) && Resolve(d, a) == DeviceOf(rows[i])
  {
    LastActiveMeaning(rows, a);
    if LastActive(rows, a).None? { FirstInactiveMeaning(rows, a); }
    assert Get(d.byAddress, a) == OwnerOf(rows, a);
    if OwnerOf(rows, a).Some? {
      var i: nat :| IsOwner(rows, i, a) && rows[i].id == OwnerOf(rows, a).value;
      NodeWithMeaning(rows, i);
      assert Get(d.nodes, rows[i].id) == Some(rows[i]);
    }
  }

  lemma {:induction false} CoverMeaning<T>(s: seq<Keyed<T>>, a: Address)
    requires IsAddress(a)
    ensures FirstMatch(StableSort(s), a).None? <==> Uncovered(s, a)
    ensures FirstMatch(StableSort(s), a).Some? ==>
              exists i: nat :: MostSpecific(s, i, a) && s[i] == FirstMatch(StableSort(s), a).value
  {
    SortedMatchIsBest(s, a);
    BestMeaning(s, a);
    forall i | 0 <= i < |s| ensures Matches(s[i], a) <==> Has(s[i].network, a) {
      if IsBlock(s[i].network) { ContainsIsMembership(s[i].network, a); }
    }
    if Best(s, a).Some? {
      var i: nat :| IsBest(s, i, a) && s[i] == Best(s, a).value;
      assert MostSpecific(s, i, a);
    }
  }

  /** Devices first, then the most specific resource, then the most specific approved route. */
  lemma {:induction false} ResolveMeaning(d: Directory, rows: seq<NodeRow>, resources: seq<ResourceRow>, a: Address)
    requires Loaded(d, rows, resources) && DistinctIds(rows) && IsAddress(a)
    ensures match Resolve(d, a)
            case Device(_, _, _) =>
              exists i: nat :: IsOwner(rows, i, a) && Resolve(d, a) == DeviceOf(rows[i])
            case InResource(id, name, cidr) =>
              Unheld(rows, a)
              && exists i: nat :: MostSpecific(ParsedResources(resources), i, a)
                                  && var r := ParsedResources(resources)[i].item;
                                  r.id == id && r.name == name && r.cidr == cidr
            case OnRoute(cidr) =>
              Unheld(rows, a) && Uncovered(ParsedResources(resources), a)
              && exists i: nat :: MostSpecific(ActiveRoutes(rows), i, a) && ActiveRoutes(rows)[i].item == cidr
            case Unknown =>
              Unheld(rows, a) && Uncovered(ParsedResources(resources), a) && Uncovered(ActiveRoutes(rows), a)
  {
    DeviceMeaning(d, rows, resources, a);
    CoverMeaning(ParsedResources(resources), a);
    CoverMeaning(ActiveRoutes(rows), a);
  }
}
