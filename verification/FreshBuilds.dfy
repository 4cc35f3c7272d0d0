/** Builds that attribute every packet themselves: they have one protocol per flow, and so lose nothing. */
module FreshBuilds {
  import opened Outcomes
  import opened TcpSegments
  import opened Packets
  import opened Keepalive
  import opened FlowRegistry
  import opened FlowRuns
  import opened ReportModel
  import opened ReportFacts
  import opened ReportTracking
  import opened ReportBuilder
  import opened ReportTheorems
  import opened ReportOctets

  // ---------------------------------------------------------------- one protocol per flow

  lemma {:induction false} KnownPlace(flows: seq<Flow>, id: string) returns (place: nat)
    requires id in KnownProtocols(flows)
    ensures place < |flows| && flows[place].id == id && flows[place].protocol == KnownProtocols(flows)[id]
  {
    var n := |flows| - 1;
    if flows[n].id == id {
      place := n;
    } else {
      place := KnownPlace(flows[..n], id);
    }
  }

  lemma {:induction false} FirstPacket(routed: seq<Routed>, id: string) returns (q: Routed)
    requires FlowSeen(routed, id)
    ensures q in routed && q.flowId == id && FirstProtocol(routed, id) == Some(q.facts.protocol)
  {
    var n := |routed| - 1;
    assert routed[n] in routed && forall x :: x in routed[..n] ==> x in routed;
    if FlowSeen(routed[..n], id) {
      q := FirstPacket(routed[..n], id);
    } else {
      FirstProtocolSeen(routed[..n], id);
      q :| q in routed && q.flowId == id;
      assert q == routed[n];
    }
  }

  lemma SamePlace(r: Registry, i: nat, j: nat)
    requires WellFormed(r) && i < |r.flows| && j < |r.flows| && r.flows[i].id == r.flows[j].id
    ensures i == j
  {
    hide *;
    IdAt(r, i);
    IdAt(r, j);
    FlowIdInjective(i + 1, j + 1);
  }

  lemma StillThere(r: Registry, r': Registry, place: nat)
    requires Extends(r, r') && place < |r.flows|
    ensures place < |r'.flows| && r'.flows[place].id == r.flows[place].id
    ensures r'.flows[place].protocol == r.flows[place].protocol
  {
    assert Grows(r.flows[place], r'.flows[place]);
  }

  /** When the build ends, the packet's flow is in the registry under the packet's own protocol. */
  lemma FlowOfPacket(r: Registry, selected: seq<Selected>, p: Routed) returns (place: nat)
    requires WellFormed(r) && Indexed(r) && Unattributed(r, selected) && p in RouteAll(r, selected)
    ensures WellFormed(RegistryAfter(r, selected)) && Extends(r, RegistryAfter(r, selected))
    ensures var end := RegistryAfter(r, selected);
            place < |end.flows| && end.flows[place].id == p.flowId && end.flows[place].protocol == p.facts.protocol
  {
    hide *;
    var i := RoutedWasSelected(r, selected, p);
    place := RegistersInBuild(r, selected, i);
    RegistryKept(r, selected);
    BuildExtends(r, selected, i + 1, |selected|);
    assert selected[..|selected|] == selected;
    StillThere(RegistryAfter(r, selected[..i + 1]), RegistryAfter(r, selected), place);
  }

  /** Every packet of such a build belongs to a flow that is modelled with the packet's own protocol. */
  lemma OwnProtocol(r: Registry, selected: seq<Selected>, p: Routed)
    requires WellFormed(r) && Indexed(r) && Unattributed(r, selected) && p in RouteAll(r, selected)
    ensures ToldAsTcp(KnownProtocols(r.flows), RouteAll(r, selected), p.flowId) <==> p.facts.protocol.TCP?
  {
    hide WellFormed, Indexed, Unattributed, RouteAll, RegistryAfter, Extends, KnownProtocols, FirstProtocol;
    var routed, end := RouteAll(r, selected), RegistryAfter(r, selected);
    var place := FlowOfPacket(r, selected, p);
    if p.flowId in KnownProtocols(r.flows) {
      var known := KnownPlace(r.flows, p.flowId);
      StillThere(r, end, known);
      SamePlace(end, place, known);
    } else {
      var q := FirstPacket(routed, p.flowId);
      var other := FlowOfPacket(r, selected, q);
      SamePlace(end, place, other);
    }
  }

  // ---------------------------------------------------------------- what follows

  /** Such a build loses no octet of either protocol. */
  lemma FreshBuildLosesNothing(codec: Codec, r: Registry, selected: seq<Selected>, report: Report,
                               registered: seq<Flow>)
    requires WellFormed(r) && Indexed(r) && Unattributed(r, selected)
    requires ReportTold(codec, report, RouteAll(r, selected), KnownProtocols(r.flows), registered)
    ensures ReportedUdpOctets(report.flows) == UdpOctets(RouteAll(r, selected))
    ensures ReportedTcpOctets(report.flows) == GatheredTcpOctets(RouteAll(r, selected), report.flows)
  {
    hide *;
    forall p | p in RouteAll(r, selected)
      ensures ToldAsTcp(KnownProtocols(r.flows), RouteAll(r, selected), p.flowId) <==> p.facts.protocol.TCP?
    {
      OwnProtocol(r, selected, p);
    }
    NoOctetLost(codec, report, RouteAll(r, selected), KnownProtocols(r.flows), registered);
  }

  /** Only an entry that names the empty flow ID gives a packet one: the registry never does. */
  lemma EmptyIdIsNamed(r: Registry, selected: seq<Selected>)
    requires WellFormed(r) && Indexed(r)
    ensures FlowSeen(RouteAll(r, selected), "") <==>
              exists i :: 0 <= i < |selected| && Transported(selected[i]) && selected[i].flowId == Some("")
  {
    hide *;
    if FlowSeen(RouteAll(r, selected), "") {
      var p := SeenPacket(RouteAll(r, selected), "");
      var i := RoutedWasSelected(r, selected, p);
      IdGiven(r, selected, i);
    }
    forall i: nat | i < |selected| && Transported(selected[i]) && selected[i].flowId == Some("")
      ensures FlowSeen(RouteAll(r, selected), "")
    {
      IdGiven(r, selected, i);
      SelectedIsRouted(r, selected, i);
      PacketSeen(RouteAll(r, selected), RoutedAt(r, selected, i));
    }
  }

  lemma SeenPacket(routed: seq<Routed>, id: string) returns (p: Routed)
    requires FlowSeen(routed, id)
    ensures p in routed && p.flowId == id
  {
    p :| p in routed && p.flowId == id;
  }

  lemma PacketSeen(routed: seq<Routed>, p: Routed)
    requires p in routed
    ensures FlowSeen(routed, p.flowId)
  {
  }

  lemma IdGiven(r: Registry, selected: seq<Selected>, i: nat)
    requires WellFormed(r) && Indexed(r) && i < |selected| && Transported(selected[i])
    ensures RoutedAt(r, selected, i).flowId == "" <==> selected[i].flowId == Some("")
  {
    hide RegistryAfter, WellFormed, Answer, Extends, RegistryStep, DirectionIn;
    RegistryKept(r, selected[..i]);
    var before := RegistryAfter(r, selected[..i]);
    if selected[i].flowId.None? {
      AnswerNotEmpty(before, AsObservation(selected[i]));
    }
  }

  lemma AnswerNotEmpty(r: Registry, o: Observation)
    requires WellFormed(r) && Indexed(r) && o.facts.Some? && !o.facts.value.protocol.OtherProtocol?
    ensures Answer(r, o).Some? && Answer(r, o).value != ""
  {
    hide *;
    AnswerCases(r, o);
    if Registers(r, o) {
      ObservedWellFormed(r, o);
      IdAt(Observed(r, o), Slot(r, o));
      FlowIdText(Slot(r, o) + 1);
    } else {
      var place := r.logicalToFlow[o.logicalId.value];
      IdAt(r, place);
      FlowIdText(place + 1);
    }
  }

  lemma AnswerCases(r: Registry, o: Observation)
    requires Indexed(r) && o.facts.Some? && !o.facts.value.protocol.OtherProtocol?
    ensures Registers(r, o) ==>
              Slot(r, o) < |Observed(r, o).flows| && Answer(r, o) == Some(Observed(r, o).flows[Slot(r, o)].id)
    ensures !Registers(r, o) ==>
              && o.logicalId.Some? && o.logicalId.value in r.logicalToFlow
              && r.logicalToFlow[o.logicalId.value] < |r.flows|
              && Answer(r, o) == Some(r.flows[r.logicalToFlow[o.logicalId.value]].id)
  {
    hide Joined, NewFlow, OpensFlow;
  }

  /** With a healthy capture such a build is refused only when some TCP direction does not assemble. */
  lemma FreshBuildAccepted(r: Registry, selected: seq<Selected>)
    requires WellFormed(r) && Indexed(r) && Unattributed(r, selected)
    ensures !FlowSeen(RouteAll(r, selected), "") && AllAssemblable(RouteAll(r, selected), KnownProtocols(r.flows))
       <==> forall p :: p in RouteAll(r, selected) && p.facts.protocol.TCP? ==>
              Assemblable(Normalized(Kept(RouteAll(r, selected), p.flowId, p.direction)))
  {
    EmptyIdIsNamed(r, selected);
    assert forall i :: 0 <= i < |selected| ==> selected[i].flowId.None?;
    hide WellFormed, Indexed, Unattributed, RouteAll, Assemblable, Normalized, Kept, ToldAsTcp, KnownProtocols,
        FlowSeen;
    forall p | p in RouteAll(r, selected)
      ensures ToldAsTcp(KnownProtocols(r.flows), RouteAll(r, selected), p.flowId) <==> p.facts.protocol.TCP?
    {
      OwnProtocol(r, selected, p);
    }
  }
}
