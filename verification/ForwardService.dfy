/** Services (protocol and port sets) as forward rules carry them. */
module ForwardService {
  import opened Options

  datatype Protocol = Tcp | Udp | Icmp

  /** A port specification: its text, and the range it parses to if it does. */
  datatype PortSpec = PortSpec(text: string, range: Option<(nat, nat)>)

  const ALL_PORTS := PortSpec("1-65535", Some((1, 65535)))

  datatype Service = Service(all: bool, tcp: set<PortSpec>, udp: set<PortSpec>, icmp: bool)

  const EVERYTHING := Service(true, {}, {}, false)
  const NOTHING := Service(false, {}, {}, false)

  predicate IsEmpty(s: Service) {
    !s.all && !s.icmp && s.tcp == {} && s.udp == {}
  }

  function Merge(s: Service, other: Service): Service {
    if s.all || other.all then EVERYTHING
    else Service(false, s.tcp + other.tcp, s.udp + other.udp, s.icmp || other.icmp)
  }

  predicate SpecCovers(spec: PortSpec, port: Option<nat>) {
    port.None? || (spec.range.Some? && spec.range.value.0 <= port.value <= spec.range.value.1)
  }

  predicate SomeCovers(specs: set<PortSpec>, port: Option<nat>) {
    exists spec :: spec in specs && SpecCovers(spec, port)
  }

  /** The service lets this traffic through; a missing protocol or port stands for any. */
  predicate Admits(s: Service, protocol: Option<Protocol>, port: Option<nat>) {
    s.all
    || match protocol
       case Some(Tcp) => SomeCovers(s.tcp, port)
       case Some(Udp) => SomeCovers(s.udp, port)
       case Some(Icmp) => s.icmp
       case None => SomeCovers(s.tcp, port) || SomeCovers(s.udp, port) || (port.None? && s.icmp)
  }

  /** What the ports and protocols of a resource let through. */
  function ResourceService(ports: set<PortSpec>, protocols: set<Protocol>): Service {
    if ports == {} && protocols == {} then EVERYTHING
    else
      var specs := if ports == {} then {ALL_PORTS} else ports;
      Service(false,
              if protocols == {} || Tcp in protocols then specs else {},
              if protocols == {} || Udp in protocols then specs else {},
              ports == {} && Icmp in protocols)
  }

  /** A merged service admits exactly what one of its parts admits. */
  lemma MergeAdmitsEither(s: Service, other: Service, protocol: Option<Protocol>, port: Option<nat>)
    ensures Admits(Merge(s, other), protocol, port) <==>
            Admits(s, protocol, port) || Admits(other, protocol, port)
  {
    UnionCovers(s.tcp, other.tcp, port);
    UnionCovers(s.udp, other.udp, port);
  }

  lemma UnionCovers(left: set<PortSpec>, right: set<PortSpec>, port: Option<nat>)
    ensures SomeCovers(left + right, port) <==> SomeCovers(left, port) || SomeCovers(right, port)
  {
    if SomeCovers(left, port) {
      var spec :| spec in left && SpecCovers(spec, port);
      assert spec in left + right;
    }
    if SomeCovers(right, port) {
      var spec :| spec in right && SpecCovers(spec, port);
      assert spec in left + right;
    }
  }

  /** A service is empty exactly when it admits nothing at all. */
  lemma EmptyAdmitsNothing(s: Service)
    ensures IsEmpty(s) <==> forall protocol, port :: !Admits(s, protocol, port)
  {
    if !IsEmpty(s) {
      if s.tcp != {} {
        var spec :| spec in s.tcp;
        assert SpecCovers(spec, None);
      }
      if s.udp != {} {
        var spec :| spec in s.udp;
        assert SpecCovers(spec, None);
      }
      assert Admits(s, None, None);
    }
  }
}
