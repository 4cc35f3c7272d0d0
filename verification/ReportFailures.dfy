/** Three selections on which the builder does not do what it is for. */
module ReportFailures {
  import opened Outcomes
  import opened TcpSegments
  import opened Packets
  import opened Keepalive
  import opened FlowRegistry
  import opened FlowRuns
  import opened ReportModel
  import opened ReportFacts
  import opened ReportTracking
  import opened ReportBuilder
  import opened ReportTheorems
  import opened ReportOctets

  const CLIENT := Endpoint("192.0.2.1", 49152)
  const SERVER := Endpoint("192.0.2.2", 53)

  function Datagram(payload: seq<Octet>): Facts {
    Facts(4, UDP, CLIENT, SERVER, 0, 0, Flags(false, false, false, false, false), payload)
  }

  function Acknowledgement(payload: seq<Octet>): Facts {
    Facts(4, TCP, CLIENT, SERVER, 1, 1, ONLY_ACK, payload)
  }

  function Entry(ordinal: int, facts: Facts, flowId: string): Selected {
    Selected(ordinal, ordinal as real, facts, "packet-" + flowId, Some(flowId), Outbound)
  }

  lemma EmptyWellFormed()
    ensures WellFormed(EMPTY) && KnownProtocols(EMPTY.flows) == map[]
  {
  }

  lemma RoutesOne(s: Selected)
    requires s.flowId.Some? && Transported(s)
    ensures RouteAll(EMPTY, [s]) == [Routed(s.flowId.value, s.direction, s.facts, s.ordinal, s.timestamp)]
  {
    assert [s][..0] == [];
    assert RegistryAfter(EMPTY, []) == EMPTY;
  }

  lemma RoutesTwo(s: Selected, t: Selected)
    requires s.flowId.Some? && Transported(s) && t.flowId.Some? && Transported(t)
    ensures RouteAll(EMPTY, [s, t]) == [Routed(s.flowId.value, s.direction, s.facts, s.ordinal, s.timestamp),
                                        Routed(t.flowId.value, t.direction, t.facts, t.ordinal, t.timestamp)]
  {
    RoutesOne(s);
    assert [s, t][..1] == [s] && [s][..0] == [];
    assert RegistryAfter(EMPTY, [s]) == RegistryStep(RegistryAfter(EMPTY, []), s) == EMPTY;
  }

  /** A healthy capture of one UDP packet whose index entry holds an empty flow ID: the builder's own
      validator refuses the report. */
  method EmptyFlowIdRefused(codec: Codec, payload: seq<Octet>) returns (r: Result<Report, ReportError>)
    requires codec.Lossless()
    ensures r.Err? && r.error.ModelInvalid?
  {
    hide *;
    var registry := new SessionFlowRegistry();
    EmptyWellFormed();
    StateFlows(registry);
    var selected := [Entry(1, Datagram(payload), "")];
    EmptyFlowIdSeen(payload);
    r := BuildPayloadReport(codec, registry, selected, map[], true);
  }

  lemma EmptyFlowIdSeen(payload: seq<Octet>)
    ensures FlowSeen(RouteAll(EMPTY, [Entry(1, Datagram(payload), "")]), "")
    ensures AllAssemblable(RouteAll(EMPTY, [Entry(1, Datagram(payload), "")]), map[])
  {
    var s := Entry(1, Datagram(payload), "");
    RoutesOne(s);
    var routed := RouteAll(EMPTY, [s]);
    assert routed[0] in routed;
    FirstOfOne(routed[0]);
  }

  lemma FirstOfOne(p: Routed)
    ensures FirstProtocol([p], p.flowId) == Some(p.facts.protocol)
              && UdpOctets([p]) == if p.facts.protocol.TCP? then 0 else |p.facts.payload|
  {
    assert [p][..0] == [];
    assert FirstProtocol([p][..0], p.flowId) == None && UdpOctets([p][..0]) == 0;
  }

  lemma FirstOfTwo(p: Routed, q: Routed)
    requires p.flowId == q.flowId
    ensures FirstProtocol([p, q], p.flowId) == Some(p.facts.protocol)
    ensures UdpOctets([p, q]) == UdpOctets([p]) + if q.facts.protocol.TCP? then 0 else |q.facts.payload|
  {
    FirstOfOne(p);
    assert [p, q][..1] == [p];
  }

  /** A healthy capture of a TCP acknowledgement and a UDP packet whose index entries name one flow: the
      report is built and valid, and the octet of the UDP packet is nowhere in it. */
  method UdpOctetLost(codec: Codec, octet: Octet) returns (r: Result<Report, ReportError>, routed: seq<Routed>)
    requires codec.Lossless()
    ensures r.Ok? && ReportValid(codec, r.value)
    ensures routed
              == RouteAll(EMPTY,
                          [Entry(1, Acknowledgement([]), "flow-000001"), Entry(2, Datagram([octet]), "flow-000001")])
    ensures UdpOctets(routed) == 1 && ReportedUdpOctets(r.value.flows) < UdpOctets(routed)
  {
    hide *;
    var registry := new SessionFlowRegistry();
    EmptyWellFormed();
    StateFlows(registry);
    var selected := [Entry(1, Acknowledgement([]), "flow-000001"), Entry(2, Datagram([octet]), "flow-000001")];
    MixedFlow(octet);
    routed := RouteAll(EMPTY, selected);
    r := BuildPayloadReport(codec, registry, selected, map[], true);
    UdpOctetsConserved(codec, r.value, routed, map[], registry.flows);
  }

  lemma MixedFlow(octet: Octet)
    ensures var routed :=
              RouteAll(EMPTY,
                       [Entry(1, Acknowledgement([]), "flow-000001"), Entry(2, Datagram([octet]), "flow-000001")]);
            && !FlowSeen(routed, "") && AllAssemblable(routed, map[]) && UdpOctets(routed) == 1
            && exists p ::
                p in routed && !p.facts.protocol.TCP? && p.facts.payload != [] && ToldAsTcp(map[], routed, p.flowId)
  {
    var s, t := Entry(1, Acknowledgement([]), "flow-000001"), Entry(2, Datagram([octet]), "flow-000001");
    RoutesTwo(s, t);
    var routed := RouteAll(EMPTY, [s, t]);
    assert routed[1] in routed;
    FirstOfOne(routed[0]);
    FirstOfTwo(routed[0], routed[1]);
    assert ToldAsTcp(map[], routed, routed[1].flowId);
    forall p | p in routed
      ensures Assemblable(Normalized(Kept(routed, p.flowId, p.direction)))
    {
      DatalessAssembles(routed, p.flowId, p.direction);
    }
  }

  /** A healthy capture of an empty UDP packet and a TCP acknowledgement with one octet whose index entries
      name one flow: the report is built and valid, and the octet of the TCP packet is nowhere in it. */
  method TcpOctetLost(codec: Codec, octet: Octet) returns (r: Result<Report, ReportError>, routed: seq<Routed>)
    requires codec.Lossless()
    ensures r.Ok? && ReportValid(codec, r.value)
    ensures routed == RouteAll(EMPTY, [Entry(1, Datagram([]), "flow-x"), Entry(2, Acknowledgement([octet]), "flow-x")])
    ensures ReportedUdpOctets(r.value.flows) == UdpOctets(routed) == 0
    ensures ReportedTcpOctets(r.value.flows) < GatheredTcpOctets(routed, r.value.flows)
  {
    hide *;
    var registry := new SessionFlowRegistry();
    EmptyWellFormed();
    StateFlows(registry);
    var selected := [Entry(1, Datagram([]), "flow-x"), Entry(2, Acknowledgement([octet]), "flow-x")];
    DatagramFirst(octet);
    routed := RouteAll(EMPTY, selected);
    r := BuildPayloadReport(codec, registry, selected, map[], true);
    UdpOctetsConserved(codec, r.value, routed, map[], registry.flows);
    TcpOctetsConserved(codec, r.value, routed, map[], registry.flows);
  }

  lemma DatagramFirst(octet: Octet)
    ensures var routed :=
              RouteAll(EMPTY, [Entry(1, Datagram([]), "flow-x"), Entry(2, Acknowledgement([octet]), "flow-x")]);
            && !FlowSeen(routed, "") && AllAssemblable(routed, map[]) && UdpOctets(routed) == 0
            && (forall p :: p in routed && !p.facts.protocol.TCP? ==> p.facts.payload == [])
            && exists p ::
                p in routed && p.facts.protocol.TCP? && p.facts.payload != [] && !ToldAsTcp(map[], routed, p.flowId)
  {
    var s, t := Entry(1, Datagram([]), "flow-x"), Entry(2, Acknowledgement([octet]), "flow-x");
    RoutesTwo(s, t);
    var routed := RouteAll(EMPTY, [s, t]);
    assert routed[1] in routed;
    FirstOfOne(routed[0]);
    FirstOfTwo(routed[0], routed[1]);
    assert !ToldAsTcp(map[], routed, routed[1].flowId);
  }

  /** Without TCP data there is nothing to misassemble. */
  lemma DatalessAssembles(routed: seq<Routed>, flowId: string, d: Direction)
    requires forall p :: p in routed && p.facts.protocol.TCP? ==> p.facts.payload == []
    ensures Assemblable(Normalized(Kept(routed, flowId, d)))
  {
    DatalessKept(routed, flowId, d);
    var normalized := Normalized(Kept(routed, flowId, d));
    forall s | s in normalized
      ensures !HasData(s)
    {
      var i :| 0 <= i < |normalized| && normalized[i] == s;
      assert Kept(routed, flowId, d)[i] in Kept(routed, flowId, d);
    }
    assert !AnyData(normalized);
  }

  lemma {:induction false} DatalessKept(routed: seq<Routed>, flowId: string, d: Direction)
    requires forall p :: p in routed && p.facts.protocol.TCP? ==> p.facts.payload == []
    ensures forall s :: s in Kept(routed, flowId, d) ==> !HasData(s)
  {
    if routed != [] {
      var n := |routed| - 1;
      assert routed[n] in routed && forall p :: p in routed[..n] ==> p in routed;
      DatalessKept(routed[..n], flowId, d);
    }
  }
}
