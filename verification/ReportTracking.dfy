/** Attribution of packets to flow directions, and the entries that keep track of them. */
module ReportTracking {
  import opened Outcomes
  import opened TcpSegments
  import opened Packets
  import opened Keepalive
  import opened FlowRegistry
  import opened FlowRuns
  import opened ReportModel
  import opened ReportFacts

  /** One selected observation; `flowId` is present when the capture index recorded it. */
  datatype Selected = Selected(ordinal: int, timestamp: real, facts: Facts, logicalId: string,
                               flowId: Option<string>, direction: Direction)

  // ---------------------------------------------------------------- attribution

  function AsObservation(s: Selected): Observation {
    Observation(Some(s.facts), s.direction, Some(s.timestamp), Some(s.logicalId))
  }

  predicate Transported(s: Selected) {
    !s.facts.protocol.OtherProtocol?
  }

  function RegistryStep(r: Registry, s: Selected): (r': Registry)
    requires Indexed(r)
    ensures Indexed(r')
  {
    if Transported(s) && s.flowId.None? then Observed(r, AsObservation(s)) else r
  }

  /** The registry's direction when it knows one, the capture's own otherwise. */
  function Attributed(r: Registry, s: Selected): Routed
    requires Indexed(r) && Transported(s)
  {
    var flowId := if s.flowId.Some? then s.flowId.value else Answer(r, AsObservation(s)).value;
    var known := DirectionIn(RegistryStep(r, s).flows, flowId, s.facts.Orient());
    Routed(flowId, if known != Unknown then known else s.direction, s.facts, s.ordinal, s.timestamp)
  }

  function RegistryAfter(r: Registry, selected: seq<Selected>): (r': Registry)
    requires Indexed(r)
    ensures Indexed(r')
  {
    if selected == [] then r
    else RegistryStep(RegistryAfter(r, selected[..|selected| - 1]), selected[|selected| - 1])
  }

  function RouteAll(r: Registry, selected: seq<Selected>): seq<Routed>
    requires Indexed(r)
  {
    if selected == [] then []
    else
      var n := |selected| - 1;
      var before := RouteAll(r, selected[..n]);
      if Transported(selected[n]) then before + [Attributed(RegistryAfter(r, selected[..n]), selected[n])] else before
  }

  lemma RouteSnoc(r: Registry, selected: seq<Selected>, i: nat)
    requires Indexed(r) && i < |selected|
    ensures RegistryAfter(r, selected[..i + 1]) == RegistryStep(RegistryAfter(r, selected[..i]), selected[i])
    ensures RouteAll(r, selected[..i + 1])
         == RouteAll(r, selected[..i])
            + if Transported(selected[i]) then [Attributed(RegistryAfter(r, selected[..i]), selected[i])] else []
  {
    hide RegistryStep, Attributed, Indexed;
    assert selected[..i + 1][..i] == selected[..i];
  }

  method Route(registry: SessionFlowRegistry, s: Selected) returns (p: Routed)
    requires Indexed(registry.State()) && Transported(s)
    modifies registry
    ensures p == Attributed(old(registry.State()), s)
    ensures registry.State() == RegistryStep(old(registry.State()), s)
  {
    var flowId: string;
    if s.flowId.Some? {
      flowId := s.flowId.value;
    } else {
      var answer := registry.ObservePacket(AsObservation(s));
      flowId := answer.value;
    }
    var direction := registry.DirectionFor(flowId, s.facts.Orient());
    if direction == Unknown {
      direction := s.direction;
    }
    return Routed(flowId, direction, s.facts, s.ordinal, s.timestamp);
  }

  // ---------------------------------------------------------------- flow and direction entries

  function NewDirection(codec: Codec, p: Routed): DirectionModel {
    DirectionModel(DirectionId(p.flowId, p.direction), p.direction, p.facts.source, p.facts.destination,
                   Some(p.timestamp), Some(p.timestamp), 0, codec.sha256([]), "", [], [])
  }

  function Stamped(m: DirectionModel, p: Routed, probe: bool): DirectionModel {
    m.(startedAt := Earlier(m.startedAt, p.timestamp), endedAt := Later(m.endedAt, p.timestamp),
       probes := if probe then m.probes + [p.ordinal] else m.probes)
  }

  /** Stamps the packet's direction entry, creating it after the others if it is missing. */
  function TouchDirections(codec: Codec, directions: seq<DirectionModel>, p: Routed, probe: bool): seq<DirectionModel> {
    if directions == [] then [Stamped(NewDirection(codec, p), p, probe)]
    else if directions[0].direction == p.direction then [Stamped(directions[0], p, probe)] + directions[1..]
    else [directions[0]] + TouchDirections(codec, directions[1..], p, probe)
  }

  function Touched(codec: Codec, flow: FlowModel, p: Routed, probe: bool): FlowModel {
    flow.(directions := TouchDirections(codec, flow.directions, p, probe))
  }

  function TouchFlows(codec: Codec, flows: seq<FlowModel>, shell: FlowModel, p: Routed, probe: bool): seq<FlowModel> {
    if flows == [] then [Touched(codec, shell, p, probe)]
    else if flows[0].id == p.flowId then [Touched(codec, flows[0], p, probe)] + flows[1..]
    else [flows[0]] + TouchFlows(codec, flows[1..], shell, p, probe)
  }

  /** The protocol the registry snapshot holds for each flow ID. */
  function KnownProtocols(flows: seq<Flow>): map<string, Protocol> {
    if flows == [] then map[]
    else KnownProtocols(flows[..|flows| - 1])[flows[|flows| - 1].id := flows[|flows| - 1].protocol]
  }

  function FirstProtocol(routed: seq<Routed>, flowId: string): Option<Protocol> {
    if routed == [] then None
    else
      var n := |routed| - 1;
      var before := FirstProtocol(routed[..n], flowId);
      if before.None? && routed[n].flowId == flowId then Some(routed[n].facts.protocol) else before
  }

  /** The registry's protocol for the flow, or that of its first packet. */
  predicate ProtocolTold(known: map<string, Protocol>, routed: seq<Routed>, flow: FlowModel) {
    if flow.id in known then flow.protocol == known[flow.id]
    else FirstProtocol(routed, flow.id) == Some(flow.protocol)
  }

  /** The report models this flow as TCP: the registry says so, or else the flow's first packet. */
  predicate ToldAsTcp(known: map<string, Protocol>, routed: seq<Routed>, flowId: string) {
    if flowId in known then known[flowId].TCP? else FirstProtocol(routed, flowId) == Some(TCP)
  }

  ghost predicate DirectionsTracked(directions: seq<DirectionModel>, routed: seq<Routed>, flowId: string) {
    && (forall i, j :: 0 <= i < j < |directions| ==> directions[i].direction != directions[j].direction)
    && (forall j :: 0 <= j < |directions| ==> Reflects(directions[j], routed, flowId))
    && (forall j :: 0 <= j < |directions| ==> DirectionSeen(routed, flowId, directions[j].direction))
    && (forall p :: p in routed && p.flowId == flowId ==> HasDirection(directions, p.direction))
  }

  ghost predicate HasDirection(directions: seq<DirectionModel>, d: Direction) {
    exists j :: 0 <= j < |directions| && directions[j].direction == d
  }

  ghost predicate FlowTracked(flow: FlowModel, routed: seq<Routed>, known: map<string, Protocol>) {
    && flow.owner != ""
    && ProtocolTold(known, routed, flow)
    && DirectionsTracked(flow.directions, routed, flow.id)
  }

  ghost predicate HasFlow(flows: seq<FlowModel>, flowId: string) {
    exists i :: 0 <= i < |flows| && flows[i].id == flowId
  }

  ghost predicate UniqueIds(flows: seq<FlowModel>) {
    forall i, j :: 0 <= i < j < |flows| ==> flows[i].id != flows[j].id
  }

  ghost predicate Tracked(flows: seq<FlowModel>, routed: seq<Routed>, known: map<string, Protocol>) {
    && UniqueIds(flows)
    && (forall i :: 0 <= i < |flows| ==> FlowTracked(flows[i], routed, known))
    && (forall i :: 0 <= i < |flows| ==> FlowSeen(routed, flows[i].id))
    && (forall p :: p in routed ==> HasFlow(flows, p.flowId))
  }

  // ---------------------------------------------------------------- touching keeps track

  lemma SeenGrows(routed: seq<Routed>, p: Routed, flowId: string, d: Direction)
    ensures FlowSeen(routed + [p], flowId) <==> FlowSeen(routed, flowId) || p.flowId == flowId
    ensures DirectionSeen(routed + [p], flowId, d) <==> DirectionSeen(routed, flowId, d) || InDirection(p, flowId, d)
  {
    assert p in routed + [p];
    assert forall q :: q in routed + [p] <==> q in routed || q == p;
  }

  lemma ProbesGrow(routed: seq<Routed>, p: Routed, flowId: string, d: Direction)
    ensures ProbeOrdinals(routed + [p], flowId, d)
         == ProbeOrdinals(routed, flowId, d)
            + if InDirection(p, flowId, d) && p.facts.protocol.TCP? && IsProbe(After(routed), p)
              then [p.ordinal] else []
  {
    assert (routed + [p])[..|routed|] == routed;
  }

  lemma OtherReflects(m: DirectionModel, routed: seq<Routed>, flowId: string, p: Routed)
    requires Reflects(m, routed, flowId) && !InDirection(p, flowId, m.direction)
    ensures Reflects(m, routed + [p], flowId)
  {
    hide FromFirst, Spans, ProbeOrdinals, InDirection, IsProbe, After, DirectionSeen;
    OtherSpans(m, routed, flowId, p);
    ProbesGrow(routed, p, flowId, m.direction);
    FirstStays(m, routed, p, flowId);
  }

  lemma OtherSpans(m: DirectionModel, routed: seq<Routed>, flowId: string, p: Routed)
    requires Spans(m, routed, flowId) && !InDirection(p, flowId, m.direction)
    ensures Spans(m, routed + [p], flowId)
  {
    SeenGrows(routed, p, flowId, m.direction);
    var grown := routed + [p];
    assert forall q :: q in grown && InDirection(q, flowId, m.direction) ==> q in routed;
    assert forall q :: q in routed ==> q in grown;
  }

  lemma StampedSpans(m: DirectionModel, routed: seq<Routed>, p: Routed, probe: bool)
    requires InDirection(p, p.flowId, m.direction)
    requires Spans(m, routed, p.flowId)
    requires DirectionSeen(routed, p.flowId, m.direction) || (m.startedAt == m.endedAt == Some(p.timestamp))
    ensures Spans(Stamped(m, p, probe), routed + [p], p.flowId)
  {
    var grown, m' := routed + [p], Stamped(m, p, probe);
    assert p in grown;
    assert forall q :: q in grown <==> q in routed || q == p;
    if DirectionSeen(routed, p.flowId, m.direction) {
      var q :| q in routed && InDirection(q, p.flowId, m.direction);
      var first :| first in routed && InDirection(first, p.flowId, m.direction) && first.timestamp == m.startedAt.value;
      var last :| last in routed && InDirection(last, p.flowId, m.direction) && last.timestamp == m.endedAt.value;
      assert first in grown && last in grown;
      assert InDirection(first, p.flowId, m'.direction) && InDirection(last, p.flowId, m'.direction);
    }
  }

  lemma StampedReflects(m: DirectionModel, routed: seq<Routed>, p: Routed, probe: bool)
    requires m.direction == p.direction && Reflects(m, routed, p.flowId)
    requires DirectionSeen(routed, p.flowId, m.direction)
    requires probe <==> p.facts.protocol.TCP? && IsProbe(After(routed), p)
    ensures Reflects(Stamped(m, p, probe), routed + [p], p.flowId)
  {
    StampedSpans(m, routed, p, probe);
    ProbesGrow(routed, p, p.flowId, m.direction);
    FirstStays(Stamped(m, p, probe), routed, p, p.flowId);
    hide Spans, After, IsProbe, DirectionSeen;
  }

  /** Once a direction is seen, later packets do not change its endpoints. */
  lemma FirstStays(m: DirectionModel, routed: seq<Routed>, p: Routed, flowId: string)
    requires FromFirst(m, routed, flowId)
    requires DirectionSeen(routed, flowId, m.direction) || !InDirection(p, flowId, m.direction)
    ensures FromFirst(m, routed + [p], flowId)
  {
    var grown := routed + [p];
    if DirectionSeen(routed, flowId, m.direction) {
      var q :| q in routed && InDirection(q, flowId, m.direction);
      var k :| 0 <= k < |routed| && routed[k] == q;
      assert grown[k] == q;
    }
    assert forall i :: 0 <= i < |routed| ==> grown[i] == routed[i];
  }

  lemma FirstIsNew(m: DirectionModel, routed: seq<Routed>, p: Routed)
    requires !DirectionSeen(routed, p.flowId, m.direction)
    requires m.source == p.facts.source && m.destination == p.facts.destination
    ensures FromFirst(m, routed + [p], p.flowId)
  {
    var grown := routed + [p];
    assert forall i :: 0 <= i < |routed| ==> grown[i] == routed[i] && grown[i] in routed;
  }

  lemma {:induction false} UnseenProbes(routed: seq<Routed>, flowId: string, d: Direction)
    requires !DirectionSeen(routed, flowId, d)
    ensures ProbeOrdinals(routed, flowId, d) == [] && Datagrams(routed, flowId, d) == []
    ensures Kept(routed, flowId, d) == []
  {
    if routed != [] {
      var n := |routed| - 1;
      assert routed[n] in routed;
      assert forall q :: q in routed[..n] ==> q in routed;
      UnseenProbes(routed[..n], flowId, d);
    }
  }

  lemma NewReflects(codec: Codec, routed: seq<Routed>, p: Routed, probe: bool)
    requires !DirectionSeen(routed, p.flowId, p.direction)
    requires probe <==> p.facts.protocol.TCP? && IsProbe(After(routed), p)
    ensures Reflects(Stamped(NewDirection(codec, p), p, probe), routed + [p], p.flowId)
  {
    UnseenProbes(routed, p.flowId, p.direction);
    StampedSpans(NewDirection(codec, p), routed, p, probe);
    ProbesGrow(routed, p, p.flowId, p.direction);
    FirstIsNew(Stamped(NewDirection(codec, p), p, probe), routed, p);
    hide Spans, After, IsProbe, DirectionSeen;
  }

  /** Position of the direction entry that a packet touches; |directions| when it is new. */
  function TouchPlace(directions: seq<DirectionModel>, d: Direction): (k: nat)
    ensures k <= |directions|
    ensures k < |directions| ==> directions[k].direction == d
    ensures forall j :: 0 <= j < k ==> directions[j].direction != d
  {
    if directions == [] || directions[0].direction == d then 0 else 1 + TouchPlace(directions[1..], d)
  }

  lemma {:induction false} TouchedAt(codec: Codec, directions: seq<DirectionModel>, p: Routed, probe: bool)
    ensures var k := TouchPlace(directions, p.direction);
            TouchDirections(codec, directions, p, probe)
            == if k < |directions| then directions[k := Stamped(directions[k], p, probe)]
               else directions + [Stamped(NewDirection(codec, p), p, probe)]
  {
    hide Stamped, NewDirection;
    if directions != [] && directions[0].direction != p.direction {
      TouchedAt(codec, directions[1..], p, probe);
      assert directions == [directions[0]] + directions[1..];
    }
  }

  lemma TouchedDirectionAt(codec: Codec, directions: seq<DirectionModel>, routed: seq<Routed>, p: Routed, probe: bool,
                           j: nat)
    requires DirectionsTracked(directions, routed, p.flowId)
    requires probe <==> p.facts.protocol.TCP? && IsProbe(After(routed), p)
    requires j < |TouchDirections(codec, directions, p, probe)|
    ensures var m := TouchDirections(codec, directions, p, probe)[j];
            && Reflects(m, routed + [p], p.flowId)
            && DirectionSeen(routed + [p], p.flowId, m.direction)
            && m.direction == if j < |directions| then directions[j].direction else p.direction
  {
    hide *;
    var k := TouchPlace(directions, p.direction);
    var m := TouchDirections(codec, directions, p, probe)[j];
    TouchedAt(codec, directions, p, probe);
    SeenGrows(routed, p, p.flowId, m.direction);
    EntryKeepsDirection(codec, if j < |directions| then directions[j] else m, p, probe);
    if j < |directions| {
      TrackedAt(directions, routed, p.flowId, j);
      if k < |directions| {
        TrackedApart(directions, routed, p.flowId, j, k);
      }
      if j == k {
        StampedReflects(directions[k], routed, p, probe);
      } else {
        OtherReflects(directions[j], routed, p.flowId, p);
      }
    } else {
      NewUnseen(directions, routed, p);
      NewReflects(codec, routed, p, probe);
    }
  }

  lemma EntryKeepsDirection(codec: Codec, m: DirectionModel, p: Routed, probe: bool)
    ensures Stamped(m, p, probe).direction == m.direction
    ensures Stamped(NewDirection(codec, p), p, probe).direction == p.direction
    ensures InDirection(p, p.flowId, m.direction) <==> m.direction == p.direction
    ensures InDirection(p, p.flowId, p.direction)
  {
  }

  lemma TrackedAt(directions: seq<DirectionModel>, routed: seq<Routed>, flowId: string, j: nat)
    requires DirectionsTracked(directions, routed, flowId) && j < |directions|
    ensures Reflects(directions[j], routed, flowId) && DirectionSeen(routed, flowId, directions[j].direction)
  {
    hide Reflects, DirectionSeen, HasDirection;
  }

  lemma TrackedApart(directions: seq<DirectionModel>, routed: seq<Routed>, flowId: string, i: nat, j: nat)
    requires DirectionsTracked(directions, routed, flowId) && i < |directions| && j < |directions|
    ensures directions[i].direction == directions[j].direction ==> i == j
  {
    hide Reflects, DirectionSeen, HasDirection;
  }

  lemma TouchedDirections(codec: Codec, directions: seq<DirectionModel>, routed: seq<Routed>, p: Routed, probe: bool)
    requires DirectionsTracked(directions, routed, p.flowId)
    requires probe <==> p.facts.protocol.TCP? && IsProbe(After(routed), p)
    ensures DirectionsTracked(TouchDirections(codec, directions, p, probe), routed + [p], p.flowId)
  {
    hide *;
    var k := TouchPlace(directions, p.direction);
    var touched := TouchDirections(codec, directions, p, probe);
    TouchedAt(codec, directions, p, probe);
    forall j | 0 <= j < |touched|
      ensures Reflects(touched[j], routed + [p], p.flowId)
      ensures DirectionSeen(routed + [p], p.flowId, touched[j].direction)
      ensures touched[j].direction == if j < |directions| then directions[j].direction else p.direction
    {
      TouchedDirectionAt(codec, directions, routed, p, probe, j);
    }
    forall i, j | 0 <= i < j < |touched|
      ensures touched[i].direction != touched[j].direction
    {
      if j < |directions| {
        TrackedApart(directions, routed, p.flowId, i, j);
      }
    }
    TouchedCover(directions, touched, routed, p, k);
    TrackedIf(touched, routed + [p], p.flowId);
  }

  lemma TrackedIf(directions: seq<DirectionModel>, routed: seq<Routed>, flowId: string)
    requires forall i, j :: 0 <= i < j < |directions| ==> directions[i].direction != directions[j].direction
    requires forall j :: 0 <= j < |directions| ==> Reflects(directions[j], routed, flowId)
    requires forall j :: 0 <= j < |directions| ==> DirectionSeen(routed, flowId, directions[j].direction)
    requires forall p :: p in routed && p.flowId == flowId ==> HasDirection(directions, p.direction)
    ensures DirectionsTracked(directions, routed, flowId)
  {
    hide Reflects, DirectionSeen, HasDirection;
  }

  lemma TouchedCover(directions: seq<DirectionModel>, touched: seq<DirectionModel>, routed: seq<Routed>, p: Routed,
                     k: nat)
    requires DirectionsTracked(directions, routed, p.flowId)
    requires k < |touched| && |directions| <= |touched| && touched[k].direction == p.direction
    requires forall j :: 0 <= j < |directions| ==> touched[j].direction == directions[j].direction
    ensures forall q :: q in routed + [p] && q.flowId == p.flowId ==> HasDirection(touched, q.direction)
  {
    hide Reflects, DirectionSeen;
    forall q | q in routed + [p] && q.flowId == p.flowId
      ensures HasDirection(touched, q.direction)
    {
      if q != p {
        assert HasDirection(directions, q.direction);
        var j :| 0 <= j < |directions| && directions[j].direction == q.direction;
        assert touched[j].direction == q.direction;
      }
    }
  }

  lemma NewUnseen(directions: seq<DirectionModel>, routed: seq<Routed>, p: Routed)
    requires DirectionsTracked(directions, routed, p.flowId)
    requires TouchPlace(directions, p.direction) == |directions|
    ensures !DirectionSeen(routed, p.flowId, p.direction)
  {
    assert !HasDirection(directions, p.direction);
  }

  lemma {:induction false} FirstProtocolSeen(routed: seq<Routed>, flowId: string)
    ensures FirstProtocol(routed, flowId).Some? <==> FlowSeen(routed, flowId)
  {
    if routed != [] {
      var n := |routed| - 1;
      FirstProtocolSeen(routed[..n], flowId);
      SeenGrows(routed[..n], routed[n], flowId, Unknown);
      assert routed == routed[..n] + [routed[n]];
    }
  }

  lemma TouchedFlowTracked(codec: Codec, flow: FlowModel, routed: seq<Routed>, known: map<string, Protocol>, p: Routed,
                           probe: bool)
    requires FlowTracked(flow, routed, known) && flow.id == p.flowId
    requires probe <==> p.facts.protocol.TCP? && IsProbe(After(routed), p)
    ensures FlowTracked(Touched(codec, flow, p, probe), routed + [p], known)
  {
    hide DirectionsTracked, After, IsProbe;
    TouchedDirections(codec, flow.directions, routed, p, probe);
    assert (routed + [p])[..|routed|] == routed;
  }

  lemma OtherFlowTracked(flow: FlowModel, routed: seq<Routed>, known: map<string, Protocol>, p: Routed)
    requires FlowTracked(flow, routed, known) && flow.id != p.flowId
    ensures FlowTracked(flow, routed + [p], known)
  {
    assert (routed + [p])[..|routed|] == routed;
    var directions := flow.directions;
    forall j | 0 <= j < |directions|
      ensures Reflects(directions[j], routed + [p], flow.id)
      ensures DirectionSeen(routed + [p], flow.id, directions[j].direction)
    {
      OtherReflects(directions[j], routed, flow.id, p);
      SeenGrows(routed, p, flow.id, directions[j].direction);
    }
    hide Reflects, DirectionSeen;
    forall q | q in routed + [p] && q.flowId == flow.id
      ensures HasDirection(directions, q.direction)
    {
    }
  }

  /** A shell for a flow seen for the first time. */
  ghost predicate ShellFor(shell: FlowModel, known: map<string, Protocol>, p: Routed) {
    && shell.id == p.flowId && shell.owner != "" && shell.directions == []
    && shell.protocol == if p.flowId in known then known[p.flowId] else p.facts.protocol
  }

  lemma NewFlowTracked(codec: Codec, shell: FlowModel, routed: seq<Routed>, known: map<string, Protocol>, p: Routed,
                       probe: bool)
    requires ShellFor(shell, known, p) && !FlowSeen(routed, p.flowId)
    requires probe <==> p.facts.protocol.TCP? && IsProbe(After(routed), p)
    ensures FlowTracked(Touched(codec, shell, p, probe), routed + [p], known)
  {
    assert DirectionsTracked([], routed, p.flowId);
    hide DirectionsTracked, After, IsProbe;
    TouchedDirections(codec, [], routed, p, probe);
    assert (routed + [p])[..|routed|] == routed;
    FirstProtocolSeen(routed, p.flowId);
  }

  function FlowPlace(flows: seq<FlowModel>, flowId: string): (k: nat)
    ensures k <= |flows|
    ensures k < |flows| ==> flows[k].id == flowId
    ensures forall j :: 0 <= j < k ==> flows[j].id != flowId
  {
    if flows == [] || flows[0].id == flowId then 0 else 1 + FlowPlace(flows[1..], flowId)
  }

  lemma {:induction false} FlowsTouchedAt(codec: Codec, flows: seq<FlowModel>, shell: FlowModel, p: Routed, probe: bool)
    ensures var k := FlowPlace(flows, p.flowId);
            TouchFlows(codec, flows, shell, p, probe)
            == if k < |flows| then flows[k := Touched(codec, flows[k], p, probe)]
               else flows + [Touched(codec, shell, p, probe)]
  {
    hide Touched;
    if flows != [] && flows[0].id != p.flowId {
      FlowsTouchedAt(codec, flows[1..], shell, p, probe);
      assert flows == [flows[0]] + flows[1..];
    }
  }

  lemma TrackedFlow(flows: seq<FlowModel>, routed: seq<Routed>, known: map<string, Protocol>, i: nat, j: nat)
    requires Tracked(flows, routed, known) && i < |flows| && j < |flows|
    ensures FlowTracked(flows[i], routed, known) && FlowSeen(routed, flows[i].id)
    ensures flows[i].id == flows[j].id ==> i == j
  {
    hide FlowTracked, FlowSeen, HasFlow;
  }

  lemma UntrackedFlow(flows: seq<FlowModel>, routed: seq<Routed>, known: map<string, Protocol>, flowId: string)
    requires Tracked(flows, routed, known) && FlowPlace(flows, flowId) == |flows|
    ensures !FlowSeen(routed, flowId)
  {
    hide FlowTracked;
    assert !HasFlow(flows, flowId);
  }

  lemma TouchedFlowAt(codec: Codec, flows: seq<FlowModel>, shell: FlowModel, routed: seq<Routed>,
                      known: map<string, Protocol>, p: Routed, probe: bool, i: nat)
    requires Tracked(flows, routed, known) && ShellFor(shell, known, p)
    requires probe <==> p.facts.protocol.TCP? && IsProbe(After(routed), p)
    requires i < |TouchFlows(codec, flows, shell, p, probe)|
    ensures var m := TouchFlows(codec, flows, shell, p, probe)[i];
            && FlowTracked(m, routed + [p], known) && FlowSeen(routed + [p], m.id)
            && m.id == if i < |flows| then flows[i].id else p.flowId
  {
    var k := FlowPlace(flows, p.flowId);
    FlowsTouchedAt(codec, flows, shell, p, probe);
    SeenGrows(routed, p, TouchFlows(codec, flows, shell, p, probe)[i].id, Unknown);
    if i < |flows| {
      TrackedFlow(flows, routed, known, i, if k < |flows| then k else i);
    } else {
      UntrackedFlow(flows, routed, known, p.flowId);
    }
    hide Tracked, FlowTracked, After, IsProbe, FlowSeen, DirectionSeen, TouchFlows, TouchDirections;
    if i == k && k < |flows| {
      TouchedFlowTracked(codec, flows[k], routed, known, p, probe);
    } else if i == k {
      NewFlowTracked(codec, shell, routed, known, p, probe);
    } else {
      OtherFlowTracked(flows[i], routed, known, p);
    }
  }

  lemma TouchedTracked(codec: Codec, flows: seq<FlowModel>, shell: FlowModel, routed: seq<Routed>,
                       known: map<string, Protocol>, p: Routed, probe: bool)
    requires Tracked(flows, routed, known) && ShellFor(shell, known, p)
    requires probe <==> p.facts.protocol.TCP? && IsProbe(After(routed), p)
    ensures Tracked(TouchFlows(codec, flows, shell, p, probe), routed + [p], known)
  {
    var k := FlowPlace(flows, p.flowId);
    var touched := TouchFlows(codec, flows, shell, p, probe);
    FlowsTouchedAt(codec, flows, shell, p, probe);
    hide TouchFlows, TouchDirections, FlowTracked, FlowSeen, HasFlow, After, IsProbe, ShellFor;
    forall i | 0 <= i < |touched|
      ensures FlowTracked(touched[i], routed + [p], known) && FlowSeen(routed + [p], touched[i].id)
      ensures touched[i].id == if i < |flows| then flows[i].id else p.flowId
    {
      hide ShellFor;
      TouchedFlowAt(codec, flows, shell, routed, known, p, probe, i);
    }
    FlowsCover(flows, touched, routed, p, k);
  }

  lemma FlowsCover(flows: seq<FlowModel>, touched: seq<FlowModel>, routed: seq<Routed>, p: Routed, k: nat)
    requires forall q :: q in routed ==> HasFlow(flows, q.flowId)
    requires k < |touched| && |flows| <= |touched| && touched[k].id == p.flowId
    requires forall i :: 0 <= i < |flows| ==> touched[i].id == flows[i].id
    ensures forall q :: q in routed + [p] ==> HasFlow(touched, q.flowId)
  {
    forall q | q in routed + [p]
      ensures HasFlow(touched, q.flowId)
    {
      if q != p {
        assert HasFlow(flows, q.flowId);
        var j :| 0 <= j < |flows| && flows[j].id == q.flowId;
        assert touched[j].id == q.flowId;
      }
    }
  }
}
