/**
 The ports of a component: the ports part of Initialize
 (api/v1/runtimecomponent_types.go), CustomizeService, customizeNetworkPolicyPorts and
 the container port of CustomizePodSpec (utils/utils.go).

 A port number is an int (an int32 in Go); "<port>-tcp" is kept as DefaultName(port).
 */
module Ports {
  import opened Options

  /** intstr.IntOrString */
  datatype IntOrString = Int(value: int) | Str(text: string)
  {
    /** Its String method is "0". */
    predicate IsZero() {
      this == Int(0) || this == Str("0")
    }

    predicate IsBlank() {
      this == Str("")
    }
  }

  datatype PortName = Named(name: string) | DefaultName(port: int)

  datatype ServiceType = ClusterIP | NodePort | OtherType

  /** An additional port in the spec; a nodePort of 0 means none. */
  datatype SpecPort = SpecPort(name: string, port: int, targetPort: IntOrString, nodePort: int)

  /** A port of a Kubernetes Service. */
  datatype ServicePort = ServicePort(name: PortName, port: int, targetPort: IntOrString, nodePort: int)

  const NEW_PORT := ServicePort(Named(""), 0, Int(0), 0)

  /** The service section of the component's spec. */
  class ServiceSpec {
    var typ: ServiceType
    var port: int
    var portName: string
    var targetPort: Option<int>
    var nodePort: Option<int>
    var ports: seq<SpecPort>

    /** The ports part of Initialize: missing target ports default to the port. */
    method InitializePorts()
      modifies this`ports
      ensures ports == Initialized(old(ports))
    {
      for i := 0 to |ports|
        invariant |ports| == |old(ports)|
        invariant forall j :: 0 <= j < |ports| ==>
                    ports[j] == if j < i then InitializedPort(old(ports)[j]) else old(ports)[j]
      {
        if ports[i].targetPort.IsZero() {
          ports := ports[i := ports[i].(targetPort := Int(ports[i].port))];
        }
      }
      assert ports == Initialized(old(ports));
    }
  }

  function InitializedPort(p: SpecPort): SpecPort {
    if p.targetPort.IsZero() then p.(targetPort := Int(p.port)) else p
  }

  function Initialized(ports: seq<SpecPort>): (r: seq<SpecPort>)
    ensures |r| == |ports|
    ensures forall i :: 0 <= i < |ports| ==> r[i] == InitializedPort(ports[i])
  {
    seq(|ports|, i requires 0 <= i < |ports| => InitializedPort(ports[i]))
  }

  // ---------------------------------------------------------------------
  // Service
  // ---------------------------------------------------------------------

  function NameOf(name: string, port: int): PortName {
    if name != "" then Named(name) else DefaultName(port)
  }

  /** IntOrString.IntValue; `parse` is strconv.Atoi with 0 for text that is no number. */
  function IntValue(t: IntOrString, parse: string -> int): int {
    match t
    case Int(v) => v
    case Str(text) => parse(text)
  }

  function PrimaryTarget(s: ServiceSpec): int
    reads s
  {
    if s.targetPort.Some? then s.targetPort.value else s.port
  }

  /** The first port, given the one that was there. */
  function PrimaryPort(s: ServiceSpec, was: ServicePort, headless: bool): ServicePort
    reads s
  {
    ServicePort(NameOf(s.portName, s.port), s.port, Int(PrimaryTarget(s)),
      if s.typ == ClusterIP || headless then 0
      else if s.typ == NodePort && s.nodePort.Some? then s.nodePort.value
      else was.nodePort)
  }

  function ServiceTarget(p: SpecPort, parse: string -> int): IntOrString {
    if p.targetPort.IsBlank() then Int(p.port) else Int(IntValue(p.targetPort, parse))
  }

  function AdditionalPort(s: ServiceSpec, p: SpecPort, was: ServicePort, parse: string -> int): ServicePort
    reads s
  {
    ServicePort(NameOf(p.name, p.port), p.port, ServiceTarget(p, parse),
      if s.typ == ClusterIP then 0
      else if s.typ == NodePort && p.nodePort != 0 then p.nodePort
      else was.nodePort)
  }

  function PortAt(ports: seq<ServicePort>, i: nat): ServicePort {
    if i < |ports| then ports[i] else NEW_PORT
  }

  /** The ports that CustomizeService leaves, given those that were there. */
  function ServicePorts(s: ServiceSpec, was: seq<ServicePort>, headless: bool, parse: string -> int)
    : (r: seq<ServicePort>)
    reads s
    ensures |r| == 1 + |s.ports|
    ensures r[0] == PrimaryPort(s, PortAt(was, 0), headless)
    ensures forall i :: 0 <= i < |s.ports| ==> r[i + 1] == AdditionalPort(s, s.ports[i], PortAt(was, i + 1), parse)
  {
    [PrimaryPort(s, PortAt(was, 0), headless)] +
    seq(|s.ports|, i requires 0 <= i < |s.ports| reads s => AdditionalPort(s, s.ports[i], PortAt(was, i + 1), parse))
  }

  /** Service ports keep only their node port, so a repeated call changes nothing. */
  lemma RepeatChangesNothing(s: ServiceSpec, was: seq<ServicePort>, headless: bool, parse: string -> int)
    ensures var once := ServicePorts(s, was, headless, parse);
            ServicePorts(s, once, headless, parse) == once
  {
    var once := ServicePorts(s, was, headless, parse);
    var twice := ServicePorts(s, once, headless, parse);
    forall i | 0 <= i < |once|
      ensures twice[i] == once[i]
    {
      if i > 0 {
        assert once[i] == AdditionalPort(s, s.ports[i - 1], PortAt(was, i), parse);
        assert twice[i - 1 + 1] == AdditionalPort(s, s.ports[i - 1], PortAt(once, i - 1 + 1), parse);
        assert once[i - 1 + 1] == AdditionalPort(s, s.ports[i - 1], PortAt(was, i - 1 + 1), parse);
      }
    }
    assert twice == once;
  }

  lemma IsServicePorts(s: ServiceSpec, was: seq<ServicePort>, headless: bool, parse: string -> int, r: seq<ServicePort>)
    requires |r| == 1 + |s.ports| && r[0] == PrimaryPort(s, PortAt(was, 0), headless)
    requires forall j :: 1 <= j <= |s.ports| ==> r[j] == AdditionalPort(s, s.ports[j - 1], PortAt(was, j), parse)
    ensures r == ServicePorts(s, was, headless, parse)
  {
    hide PrimaryPort, AdditionalPort;
    var p := ServicePorts(s, was, headless, parse);
    forall j | 0 <= j < |r|
      ensures r[j] == p[j]
    {
      if j > 0 {
        assert p[(j - 1) + 1] == AdditionalPort(s, s.ports[j - 1], PortAt(was, (j - 1) + 1), parse);
      }
    }
  }

  class Service {
    var ports: seq<ServicePort>

    /** The ports part of CustomizeService. */
    method Customize(s: ServiceSpec, headless: bool, parse: string -> int)
      modifies this
      ensures ports == ServicePorts(s, old(ports), headless, parse)
    {
      hide PrimaryPort, AdditionalPort;
      CustomizePrimary(s, headless);
      var numOfAdditionalPorts := |s.ports|;
      var numOfCurrentPorts := |ports| - 1;
      for i := 0 to numOfAdditionalPorts
        invariant numOfCurrentPorts == |ports| - 1 >= 0
        invariant i > 0 ==> numOfCurrentPorts == numOfAdditionalPorts
        invariant ports[0] == PrimaryPort(s, PortAt(old(ports), 0), headless)
        invariant forall j :: 1 <= j <= i ==>
                    ports[j] == AdditionalPort(s, s.ports[j - 1], PortAt(old(ports), j), parse)
        invariant forall j :: i < j && (j < |ports| || i == 0) ==> PortAt(ports, j) == PortAt(old(ports), j)
      {
        Resize(numOfAdditionalPorts);
        numOfCurrentPorts := numOfAdditionalPorts;
        assert PortAt(ports, i + 1) == PortAt(old(ports), i + 1);
        CustomizeAdditional(s, i, parse);
      }
      if |s.ports| == 0 {
        while numOfCurrentPorts > 0
          invariant numOfCurrentPorts == |ports| - 1 >= 0
          invariant ports[0] == PrimaryPort(s, PortAt(old(ports), 0), headless)
        {
          ports := ports[..|ports| - 1];
          numOfCurrentPorts := numOfCurrentPorts - 1;
        }
      }
      IsServicePorts(s, old(ports), headless, parse, ports);
    }

    /** The first port. */
    method CustomizePrimary(s: ServiceSpec, headless: bool)
      modifies this
      ensures |ports| == if |old(ports)| == 0 then 1 else |old(ports)|
      ensures ports[0] == PrimaryPort(s, PortAt(old(ports), 0), headless)
      ensures forall j :: 1 <= j ==> PortAt(ports, j) == PortAt(old(ports), j)
    {
      if |ports| == 0 {
        ports := ports + [NEW_PORT];
      }
      ports := ports[0 := ports[0].(port := s.port, targetPort := Int(s.port))];
      ports := ports[0 := ports[0].(name := if s.portName != "" then Named(s.portName) else DefaultName(s.port))];
      if s.typ == NodePort && s.nodePort.Some? {
        ports := ports[0 := ports[0].(nodePort := s.nodePort.value)];
      }
      if s.typ == ClusterIP || headless {
        ports := ports[0 := ports[0].(nodePort := 0)];
      }
      if s.targetPort.Some? {
        ports := ports[0 := ports[0].(targetPort := Int(s.targetPort.value))];
      }
    }

    /** The two inner loops: append or cut until there is a port for each additional one. */
    method Resize(numOfAdditionalPorts: nat)
      requires |ports| > 0
      modifies this
      ensures |ports| == numOfAdditionalPorts + 1
      ensures forall j :: 0 <= j < |ports| ==> ports[j] == PortAt(old(ports), j)
    {
      var numOfCurrentPorts := |ports| - 1;
      while numOfCurrentPorts < numOfAdditionalPorts
        invariant numOfCurrentPorts == |ports| - 1 && |old(ports)| <= |ports|
        invariant |ports| <= |old(ports)| || numOfCurrentPorts <= numOfAdditionalPorts
        invariant forall j :: 0 <= j < |ports| ==> ports[j] == PortAt(old(ports), j)
      {
        ports := ports + [NEW_PORT];
        numOfCurrentPorts := numOfCurrentPorts + 1;
      }
      while numOfCurrentPorts > numOfAdditionalPorts && |ports| != 0
        invariant numOfCurrentPorts == |ports| - 1 && numOfAdditionalPorts <= numOfCurrentPorts
        invariant forall j :: 0 <= j < |ports| ==> ports[j] == PortAt(old(ports), j)
      {
        ports := ports[..|ports| - 1];
        numOfCurrentPorts := numOfCurrentPorts - 1;
      }
    }

    /** What the loop body does to the port of additional port `i`. */
    method CustomizeAdditional(s: ServiceSpec, i: nat, parse: string -> int)
      requires i < |s.ports| && i + 1 < |ports|
      modifies this
      ensures ports == old(ports)[i + 1 := AdditionalPort(s, s.ports[i], old(ports)[i + 1], parse)]
    {
      var p := s.ports[i];
      ports := ports[i + 1 := ports[i + 1].(port := p.port, targetPort := Int(p.port))];
      ports := ports[i + 1 := ports[i + 1].(name := if p.name != "" then Named(p.name) else DefaultName(p.port))];
      if !p.targetPort.IsBlank() {
        ports := ports[i + 1 := ports[i + 1].(targetPort := Int(IntValue(p.targetPort, parse)))];
      }
      if s.typ == NodePort && p.nodePort != 0 {
        ports := ports[i + 1 := ports[i + 1].(nodePort := p.nodePort)];
      }
      if s.typ == ClusterIP {
        ports := ports[i + 1 := ports[i + 1].(nodePort := 0)];
      }
    }
  }

  // ---------------------------------------------------------------------
  // Network policy and container
  // ---------------------------------------------------------------------

  function PolicyTarget(p: SpecPort): IntOrString {
    if p.targetPort.IsBlank() then Int(p.port) else p.targetPort
  }

  /** The ports that the network policy opens. */
  function PolicyPorts(s: ServiceSpec): (r: seq<IntOrString>)
    reads s
    ensures |r| == 1 + |s.ports|
    ensures r[0] == Int(PrimaryTarget(s))
    ensures forall i :: 0 <= i < |s.ports| ==> r[i + 1] == PolicyTarget(s.ports[i])
  {
    [Int(PrimaryTarget(s))] + seq(|s.ports|, i requires 0 <= i < |s.ports| reads s => PolicyTarget(s.ports[i]))
  }

  class IngressRule {
    var ports: seq<Option<IntOrString>>

    /** customizeNetworkPolicyPorts */
    method CustomizePorts(s: ServiceSpec)
      modifies this
      ensures |ports| == |PolicyPorts(s)|
      ensures forall i :: 0 <= i < |ports| ==> ports[i] == Some(PolicyPorts(s)[i])
    {
      var currentLen := |ports|;
      var desiredLen := |s.ports| + 1;
      if currentLen > desiredLen {
        ports := ports[..desiredLen];
        currentLen := desiredLen;
      }
      while currentLen < desiredLen
        invariant currentLen == |ports| <= desiredLen
      {
        ports := ports + [None];
        currentLen := currentLen + 1;
      }
      ports := ports[0 := Some(Int(if s.targetPort.Some? then s.targetPort.value else s.port))];
      for i := 0 to |s.ports|
        invariant |ports| == desiredLen && ports[0] == Some(Int(PrimaryTarget(s)))
        invariant forall j :: 0 <= j < i ==> ports[j + 1] == Some(PolicyTarget(s.ports[j]))
      {
        var p := s.ports[i];
        if !p.targetPort.IsBlank() {
          ports := ports[i + 1 := Some(p.targetPort)];
        } else {
          ports := ports[i + 1 := Some(Int(p.port))];
        }
      }
      forall i | 0 <= i < |ports|
        ensures ports[i] == Some(PolicyPorts(s)[i])
      {
        if i > 0 {
          assert ports[i - 1 + 1] == Some(PolicyTarget(s.ports[i - 1]));
          assert PolicyPorts(s)[i - 1 + 1] == PolicyTarget(s.ports[i - 1]);
        }
      }
    }
  }

  class Container {
    var ports: seq<int>

    /** The primary port of the app container, in CustomizePodSpec. */
    method CustomizePrimaryPort(s: ServiceSpec)
      modifies this
      ensures ports ==
              [if s.targetPort.Some? then s.targetPort.value else s.port]
              + if old(ports) == [] then [] else old(ports)[1..]
    {
      if |ports| == 0 {
        ports := ports + [0];
      }
      if s.targetPort.Some? {
        ports := ports[0 := s.targetPort.value];
      } else {
        ports := ports[0 := s.port];
      }
    }
  }

  // ---------------------------------------------------------------------
  // Agreement
  // ---------------------------------------------------------------------

  /**
   The Service sends traffic where the network policy lets it in, position by position,
   exactly for integer target ports and for those left blank; the first position is also
   the container's primary port.
   */
  lemma PortsAgree(s: ServiceSpec, was: seq<ServicePort>, headless: bool, parse: string -> int, i: nat)
    requires i < |s.ports|
    ensures var service, policy := ServicePorts(s, was, headless, parse), PolicyPorts(s);
            && |service| == |policy| == 1 + |s.ports|
            && service[0].targetPort == policy[0] == Int(if s.targetPort.Some? then s.targetPort.value else s.port)
            && (service[i + 1].targetPort == policy[i + 1] <==>
                s.ports[i].targetPort.Int? || s.ports[i].targetPort.IsBlank())
            && (if s.ports[i].targetPort == Str("") then policy[i + 1] == Int(s.ports[i].port)
                else policy[i + 1] == s.ports[i].targetPort)
  {
    var service := ServicePorts(s, was, headless, parse);
    assert service[i + 1] == AdditionalPort(s, s.ports[i], PortAt(was, i + 1), parse);
  }

  /** `name`, or else the default that is made from the port number. */
  predicate IsNamed(p: ServicePort, name: string) {
    p.name == if name == "" then DefaultName(p.port) else Named(name)
  }

  /** What each port of the Service says, given the node port that was at its place. */
  lemma ServicePortsSay(s: ServiceSpec, was: seq<ServicePort>, headless: bool, parse: string -> int, i: nat)
    requires i <= |s.ports|
    ensures var r := ServicePorts(s, was, headless, parse);
            var before := if i < |was| then was[i].nodePort else 0;
            |r| == 1 + |s.ports| &&
            if i == 0 then
              && r[0].port == s.port && IsNamed(r[0], s.portName)
              && r[0].targetPort == Int(if s.targetPort.Some? then s.targetPort.value else s.port)
              && (s.typ == ClusterIP || headless ==> r[0].nodePort == 0)
              && (s.typ == NodePort && !headless ==>
                    r[0].nodePort == if s.nodePort.Some? then s.nodePort.value else before)
              && (s.typ == OtherType && !headless ==> r[0].nodePort == before)
            else
              var p := s.ports[i - 1];
              && r[i].port == p.port && IsNamed(r[i], p.name)
              && r[i].targetPort == Int(match p.targetPort
                                        case Int(v) => v
                                        case Str(text) => if text == "" then p.port else parse(text))
              && (s.typ == ClusterIP ==> r[i].nodePort == 0)
              && (s.typ == NodePort ==> r[i].nodePort == if p.nodePort != 0 then p.nodePort else before)
              && (s.typ == OtherType ==> r[i].nodePort == before)
  {
    var r := ServicePorts(s, was, headless, parse);
    if i > 0 {
      assert r[i - 1 + 1] == AdditionalPort(s, s.ports[i - 1], PortAt(was, i - 1 + 1), parse);
    }
  }

  /** After Initialize no target port is missing: each is the one given, or the port. */
  lemma InitializedTargets(ports: seq<SpecPort>, i: nat)
    requires i < |ports|
    ensures var p := Initialized(ports)[i];
            && (p.targetPort.IsZero() ==> p.port == 0)
            && p.targetPort ==
               (if ports[i].targetPort in {Int(0), Str("0")} then Int(ports[i].port) else ports[i].targetPort)
            && p.port == ports[i].port && p.name == ports[i].name && p.nodePort == ports[i].nodePort
  {
  }
}
