/** Builds the payload report from the selected observations of a sealed capture. */
module ReportBuilder {
  import opened Outcomes
  import opened TcpSegments
  import opened Packets
  import opened Keepalive
  import opened FlowRegistry
  import opened FlowRuns
  import opened ReportModel
  import opened ReportFacts
  import opened ReportTracking

  datatype ReportError =
    | CaptureUnhealthy
    | AssemblyFailed(flowId: string, direction: Direction, cause: AssemblyError)
    | ModelInvalid(defect: ModelError)

  datatype Lane = Lane(flowId: string, direction: Direction)

  /** The dictionaries filled while the packets are read. */
  datatype Gathered = Gathered(flows: seq<FlowModel>, segments: map<Lane, seq<Segment>>,
                               datagrams: map<Lane, seq<Routed>>, marks: Marks)

  function SegmentsIn(g: Gathered, flowId: string, d: Direction): seq<Segment> {
    if Lane(flowId, d) in g.segments then g.segments[Lane(flowId, d)] else []
  }

  function DatagramsIn(g: Gathered, flowId: string, d: Direction): seq<Routed> {
    if Lane(flowId, d) in g.datagrams then g.datagrams[Lane(flowId, d)] else []
  }

  ghost predicate ListsMatch(g: Gathered, routed: seq<Routed>) {
    && g.marks == After(routed)
    && (forall f, d :: SegmentsIn(g, f, d) == Kept(routed, f, d))
    && (forall f, d :: DatagramsIn(g, f, d) == Datagrams(routed, f, d))
  }

  ghost predicate Holds(g: Gathered, routed: seq<Routed>, known: map<string, Protocol>) {
    ListsMatch(g, routed) && Tracked(g.flows, routed, known)
  }

  function ShellOf(p: Routed, known: map<string, Protocol>, owners: map<string, string>): FlowModel {
    FlowModel(p.flowId, if p.flowId in known then known[p.flowId] else p.facts.protocol,
              if p.flowId in owners && owners[p.flowId] != "" then owners[p.flowId] else "unknown", [])
  }

  /** Each flow has the owner recorded under its ID, or none is known. */
  ghost predicate OwnersTold(flows: seq<FlowModel>, owners: map<string, string>) {
    forall i :: 0 <= i < |flows| ==>
      if flows[i].id in owners && owners[flows[i].id] != "" then flows[i].owner == owners[flows[i].id]
      else flows[i].owner == "unknown"
  }

  lemma TouchedOwners(codec: Codec, flows: seq<FlowModel>, p: Routed, known: map<string, Protocol>,
                      owners: map<string, string>, probe: bool)
    requires OwnersTold(flows, owners)
    ensures OwnersTold(TouchFlows(codec, flows, ShellOf(p, known, owners), p, probe), owners)
  {
    FlowsTouchedAt(codec, flows, ShellOf(p, known, owners), p, probe);
    hide TouchFlows, TouchDirections;
  }

  lemma ShapedOwners(flows: seq<FlowModel>, filled: seq<FlowModel>, owners: map<string, string>)
    requires OwnersTold(flows, owners) && |filled| == |flows|
    requires forall i :: 0 <= i < |flows| ==> SameShape(flows[i], filled[i])
    ensures OwnersTold(filled, owners)
  {
    forall i | 0 <= i < |filled|
      ensures filled[i].id == flows[i].id && filled[i].owner == flows[i].owner
    {
      assert SameShape(flows[i], filled[i]);
    }
  }

  lemma AppendedOwners(codec: Codec, flows: seq<FlowModel>, flow: Flow, owners: map<string, string>)
    requires OwnersTold(flows, owners)
    ensures OwnersTold(flows + [RegistryOnly(codec, flow, owners)], owners)
  {
  }

  function TcpLists(g: Gathered, p: Routed): Gathered {
    var lane := Lane(p.flowId, p.direction);
    g.(segments := g.segments[lane := SegmentsIn(g, p.flowId, p.direction) + [KeptSegment(g.marks, p)]],
       marks := Mark(g.marks, p))
  }

  function UdpLists(g: Gathered, p: Routed): Gathered {
    var lane := Lane(p.flowId, p.direction);
    g.(datagrams := g.datagrams[lane := DatagramsIn(g, p.flowId, p.direction) + [p]])
  }

  /** Reads one TCP packet: classify, move the marks, append its segment. */
  method AddTcp(g: Gathered, p: Routed, probe: bool) returns (g': Gathered)
    requires probe == IsProbe(g.marks, p)
    ensures g' == TcpLists(g, p)
  {
    var side, reverse := SideOf(p), PeerOf(p);
    var start := p.facts.Start();
    var sentEnds, peerAcks := g.marks.sentEnds, g.marks.peerAcks;
    if !probe && p.facts.payload != [] {
      var end := Residue(start + |p.facts.payload|);
      if side !in sentEnds || 0 < Residue(end - sentEnds[side]) < SEQUENCE_HALF {
        sentEnds := sentEnds[side := end];
      }
    }
    if p.facts.flags.ack {
      peerAcks := peerAcks[reverse := p.facts.ack];
    }
    var segment := Segment(start, if probe then [] else p.facts.payload, p.facts.flags.fin, p.ordinal);
    var lane := Lane(p.flowId, p.direction);
    var before := if lane in g.segments then g.segments[lane] else [];
    return g.(segments := g.segments[lane := before + [segment]], marks := Marks(sentEnds, peerAcks));
  }

  lemma TcpMatches(g: Gathered, routed: seq<Routed>, p: Routed)
    requires ListsMatch(g, routed) && p.facts.protocol.TCP?
    ensures ListsMatch(TcpLists(g, p), routed + [p])
  {
    var g', grown := TcpLists(g, p), routed + [p];
    assert grown[..|routed|] == routed;
    hide Mark, IsProbe;
    forall f, d
      ensures SegmentsIn(g', f, d) == Kept(grown, f, d) && DatagramsIn(g', f, d) == Datagrams(grown, f, d)
    {
      assert SegmentsIn(g, f, d) == Kept(routed, f, d) && DatagramsIn(g, f, d) == Datagrams(routed, f, d);
    }
  }

  lemma UdpMatches(g: Gathered, routed: seq<Routed>, p: Routed)
    requires ListsMatch(g, routed) && p.facts.protocol.UDP?
    ensures ListsMatch(UdpLists(g, p), routed + [p])
  {
    var g', grown := UdpLists(g, p), routed + [p];
    assert grown[..|routed|] == routed;
    hide Mark, IsProbe;
    forall f, d
      ensures SegmentsIn(g', f, d) == Kept(grown, f, d) && DatagramsIn(g', f, d) == Datagrams(grown, f, d)
    {
      assert SegmentsIn(g, f, d) == Kept(routed, f, d) && DatagramsIn(g, f, d) == Datagrams(routed, f, d);
    }
  }

  method Add(codec: Codec, g: Gathered, p: Routed, known: map<string, Protocol>, owners: map<string, string>,
             ghost routed: seq<Routed>) returns (g': Gathered)
    requires Holds(g, routed, known) && !p.facts.protocol.OtherProtocol? && OwnersTold(g.flows, owners)
    ensures Holds(g', routed + [p], known) && OwnersTold(g'.flows, owners)
  {
    hide *;
    ListsMarks(g, routed, known);
    var probe := p.facts.protocol.TCP? && IsProbe(g.marks, p);
    var shell := ShellOf(p, known, owners);
    ShellFits(p, known, owners);
    TouchedTracked(codec, g.flows, shell, routed, known, p, probe);
    TouchedOwners(codec, g.flows, p, known, owners, probe);
    var flows := TouchFlows(codec, g.flows, shell, p, probe);
    if p.facts.protocol.TCP? {
      TcpMatches(g, routed, p);
      g' := AddTcp(g, p, probe);
    } else {
      UdpMatches(g, routed, p);
      g' := UdpLists(g, p);
    }
    WithFlows(g', flows, routed + [p], known);
    g' := g'.(flows := flows);
  }

  lemma ListsMarks(g: Gathered, routed: seq<Routed>, known: map<string, Protocol>)
    requires Holds(g, routed, known)
    ensures g.marks == After(routed) && ListsMatch(g, routed) && Tracked(g.flows, routed, known)
  {
    hide Tracked, After;
  }

  lemma ShellFits(p: Routed, known: map<string, Protocol>, owners: map<string, string>)
    ensures ShellFor(ShellOf(p, known, owners), known, p)
  {
  }

  lemma WithFlows(g: Gathered, flows: seq<FlowModel>, routed: seq<Routed>, known: map<string, Protocol>)
    requires ListsMatch(g, routed) && Tracked(flows, routed, known)
    ensures Holds(g.(flows := flows), routed, known)
  {
    hide Tracked, After;
    forall f, d
      ensures SegmentsIn(g.(flows := flows), f, d) == SegmentsIn(g, f, d)
      ensures DatagramsIn(g.(flows := flows), f, d) == DatagramsIn(g, f, d)
    {
    }
  }

  method ProtocolsOf(flows: seq<Flow>) returns (known: map<string, Protocol>)
    ensures known == KnownProtocols(flows)
  {
    known := map[];
    for i := 0 to |flows|
      invariant known == KnownProtocols(flows[..i])
    {
      assert flows[..i + 1][..i] == flows[..i];
      known := known[flows[i].id := flows[i].protocol];
    }
    assert flows[..|flows|] == flows;
  }

  method Gather(codec: Codec, registry: SessionFlowRegistry, selected: seq<Selected>, known: map<string, Protocol>,
                owners: map<string, string>) returns (g: Gathered)
    requires Indexed(registry.State())
    modifies registry
    ensures registry.State() == RegistryAfter(old(registry.State()), selected)
    ensures Holds(g, RouteAll(old(registry.State()), selected), known) && OwnersTold(g.flows, owners)
  {
    hide *;
    g := Gathered([], map[], map[], NO_MARKS);
    ghost var r0 := registry.State();
    NothingGathered(r0, selected, known, owners);
    for i := 0 to |selected|
      invariant Indexed(registry.State())
      invariant registry.State() == RegistryAfter(r0, selected[..i])
      invariant Holds(g, RouteAll(r0, selected[..i]), known) && OwnersTold(g.flows, owners)
    {
      RouteSnoc(r0, selected, i);
      ghost var routed := RouteAll(r0, selected[..i]);
      if selected[i].facts.protocol.OtherProtocol? {
        NotTransported(registry.State(), selected[i]);
        assert RouteAll(r0, selected[..i + 1]) == routed;
      } else {
        NotTransported(registry.State(), selected[i]);
        var p := Route(registry, selected[i]);
        g := Add(codec, g, p, known, owners, routed);
      }
    }
    assert selected[..|selected|] == selected;
  }

  lemma NothingGathered(r: Registry, selected: seq<Selected>, known: map<string, Protocol>, owners: map<string, string>)
    requires Indexed(r)
    ensures RegistryAfter(r, selected[..0]) == r
    ensures Holds(Gathered([], map[], map[], NO_MARKS), RouteAll(r, selected[..0]), known) && OwnersTold([], owners)
  {
  }

  lemma NotTransported(r: Registry, s: Selected)
    requires Indexed(r)
    ensures Transported(s) <==> !s.facts.protocol.OtherProtocol?
    ensures !Transported(s) ==> RegistryStep(r, s) == r
    ensures Transported(s) ==> Attributed(r, s).facts == s.facts
    ensures Indexed(RegistryStep(r, s))
  {
  }

  // ---------------------------------------------------------------- payloads

  method FillUdp(codec: Codec, m: DirectionModel, flowId: string, packets: seq<Routed>, ghost routed: seq<Routed>)
    returns (filled: DirectionModel)
    requires Reflects(m, routed, flowId) && packets == Datagrams(routed, flowId, m.direction)
    ensures Reflects(filled, routed, flowId) && TellsUdp(codec, filled, routed, flowId)
    ensures filled.direction == m.direction
  {
    hide Reflects, Datagrams, TellsUdp, EntryFor, EntriesFor;
    NoEntries(codec, m, flowId, packets);
    var entries: seq<DatagramModel> := [];
    var payload: seq<Octet> := [];
    for k := 0 to |packets|
      invariant payload == Concatenated(packets[..k])
      invariant EntriesFor(codec, m, flowId, packets, entries) && |entries| == k
    {
      assert packets[..k + 1][..k] == packets[..k];
      NextEntry(codec, m, flowId, packets, entries);
      entries := entries + [EntryFor(codec, m, flowId, packets[k], k, |payload|)];
      payload := payload + packets[k].facts.payload;
    }
    assert packets[..|packets|] == packets;
    filled := m.(datagrams := entries, bytes := |payload|, sha256 := codec.sha256(payload),
                 base64 := codec.encode(payload));
    EntriesTold(codec, m, filled, flowId, routed);
  }

  /** The entries of the first packets, each at the offset where the packets before it end. */
  ghost predicate EntriesFor(codec: Codec, m: DirectionModel, flowId: string, packets: seq<Routed>,
                             entries: seq<DatagramModel>) {
    && |entries| <= |packets|
    && forall i :: 0 <= i < |entries| ==>
         entries[i] == EntryFor(codec, m, flowId, packets[i], i, |Concatenated(packets[..i])|)
  }

  lemma NoEntries(codec: Codec, m: DirectionModel, flowId: string, packets: seq<Routed>)
    ensures EntriesFor(codec, m, flowId, packets, [])
  {
  }

  lemma NextEntry(codec: Codec, m: DirectionModel, flowId: string, packets: seq<Routed>, entries: seq<DatagramModel>)
    requires EntriesFor(codec, m, flowId, packets, entries) && |entries| < |packets|
    ensures var k := |entries|;
            EntriesFor(codec, m, flowId, packets,
                       entries + [EntryFor(codec, m, flowId, packets[k], k, |Concatenated(packets[..k])|)])
  {
    hide EntryFor;
  }

  lemma EntriesTold(codec: Codec, m: DirectionModel, filled: DirectionModel, flowId: string, routed: seq<Routed>)
    requires Reflects(m, routed, flowId)
    requires var packets := Datagrams(routed, flowId, m.direction); var payload := Concatenated(packets);
             && filled == m.(datagrams := filled.datagrams, bytes := |payload|, sha256 := codec.sha256(payload),
                             base64 := codec.encode(payload))
             && EntriesFor(codec, m, flowId, packets, filled.datagrams) && |filled.datagrams| == |packets|
    ensures Reflects(filled, routed, flowId) && TellsUdp(codec, filled, routed, flowId)
  {
    SameSpans(m, filled, routed, flowId);
    hide Reflects;
    var packets := Datagrams(routed, flowId, m.direction);
    forall k | 0 <= k < |packets|
      ensures DatagramTold(codec, filled, flowId, packets, k)
    {
      assert filled.datagrams[k] == EntryFor(codec, m, flowId, packets[k], k, |Concatenated(packets[..k])|);
    }
  }

  function EntryFor(codec: Codec, m: DirectionModel, flowId: string, p: Routed, k: nat, offset: int): DatagramModel {
    var length := |p.facts.payload|;
    DatagramModel(DatagramId(flowId, m.direction, k + 1), p.ordinal, offset, length, length,
                  codec.sha256(p.facts.payload), Range(m.id, offset, length))
  }

  lemma SameSpans(m: DirectionModel, filled: DirectionModel, routed: seq<Routed>, flowId: string)
    requires Reflects(m, routed, flowId)
    requires filled.id == m.id && filled.direction == m.direction && filled.probes == m.probes
    requires filled.startedAt == m.startedAt && filled.endedAt == m.endedAt
    requires filled.source == m.source && filled.destination == m.destination
    ensures Reflects(filled, routed, flowId)
  {
  }

  method FillTcp(codec: Codec, m: DirectionModel, flowId: string, segments: seq<Segment>, ghost routed: seq<Routed>)
    returns (r: Result<DirectionModel, AssemblyError>)
    requires Reflects(m, routed, flowId) && segments == Kept(routed, flowId, m.direction)
    ensures r.Ok? ==> Reflects(r.value, routed, flowId) && TellsTcp(codec, r.value, routed, flowId)
    ensures r.Ok? ==> r.value.direction == m.direction
    ensures r.Err? ==> IsAssembly(Normalized(Kept(routed, flowId, m.direction)), Err(r.error))
  {
    hide IsAssembly, Normalized, Reflects;
    var assembled := AssembleTcp(segments);
    if assembled.Err? {
      return Err(assembled.error);
    }
    var payload := assembled.value.payload;
    var filled := m.(bytes := |payload|, sha256 := codec.sha256(payload), base64 := codec.encode(payload));
    SameSpans(m, filled, routed, flowId);
    return Ok(filled);
  }

  method FillDirection(codec: Codec, protocol: Protocol, flowId: string, m: DirectionModel, g: Gathered,
                       ghost routed: seq<Routed>)
    returns (r: Result<DirectionModel, AssemblyError>)
    requires ListsMatch(g, routed) && Reflects(m, routed, flowId)
    ensures r.Ok? ==> DirectionTold(codec, protocol, r.value, routed, flowId) && r.value.direction == m.direction
    ensures r.Err? ==> protocol.TCP? && IsAssembly(Normalized(Kept(routed, flowId, m.direction)), Err(r.error))
  {
    LaneLists(g, routed, flowId, m.direction);
    hide ListsMatch, IsAssembly, Normalized, Reflects, TellsTcp, TellsUdp, SegmentsIn, DatagramsIn, Kept, Datagrams;
    if protocol.TCP? {
      r := FillTcp(codec, m, flowId, SegmentsIn(g, flowId, m.direction), routed);
    } else {
      var filled := FillUdp(codec, m, flowId, DatagramsIn(g, flowId, m.direction), routed);
      r := Ok(filled);
    }
  }

  lemma LaneLists(g: Gathered, routed: seq<Routed>, flowId: string, d: Direction)
    requires ListsMatch(g, routed)
    ensures SegmentsIn(g, flowId, d) == Kept(routed, flowId, d)
    ensures DatagramsIn(g, flowId, d) == Datagrams(routed, flowId, d)
  {
  }

  /** A flow whose TCP data of some direction cannot be assembled, and why. */
  ghost predicate FailsIn(flow: FlowModel, routed: seq<Routed>, d: Direction, e: AssemblyError) {
    && flow.protocol.TCP? && DirectionSeen(routed, flow.id, d)
    && IsAssembly(Normalized(Kept(routed, flow.id, d)), Err(e))
  }

  method FillFlow(codec: Codec, flow: FlowModel, g: Gathered, known: map<string, Protocol>, ghost routed: seq<Routed>)
    returns (r: Result<FlowModel, (Direction, AssemblyError)>)
    requires ListsMatch(g, routed) && FlowTracked(flow, routed, known)
    ensures r.Ok? ==> FlowTold(codec, r.value, routed) && SameShape(flow, r.value)
    ensures r.Err? ==> FailsIn(flow, routed, r.error.0, r.error.1)
  {
    hide *;
    TrackedParts(flow, routed, known);
    var directions: seq<DirectionModel> := [];
    for j := 0 to |flow.directions|
      invariant |directions| == j
      invariant forall i :: 0 <= i < j ==> DirectionTold(codec, flow.protocol, directions[i], routed, flow.id)
      invariant forall i :: 0 <= i < j ==> directions[i].direction == flow.directions[i].direction
    {
      TrackedAt(flow.directions, routed, flow.id, j);
      var filled := FillDirection(codec, flow.protocol, flow.id, flow.directions[j], g, routed);
      if filled.Err? {
        Failing(flow, routed, flow.directions[j].direction, filled.error);
        return Err((flow.directions[j].direction, filled.error));
      }
      directions := directions + [filled.value];
    }
    FilledFlow(codec, flow, directions, routed, known);
    return Ok(flow.(directions := directions));
  }

  lemma TrackedParts(flow: FlowModel, routed: seq<Routed>, known: map<string, Protocol>)
    requires FlowTracked(flow, routed, known)
    ensures flow.owner != "" && DirectionsTracked(flow.directions, routed, flow.id)
    ensures forall i, j :: 0 <= i < j < |flow.directions| ==>
              flow.directions[i].direction != flow.directions[j].direction
  {
    hide Reflects, DirectionSeen, HasDirection;
  }

  lemma Failing(flow: FlowModel, routed: seq<Routed>, d: Direction, e: AssemblyError)
    requires flow.protocol.TCP? && DirectionSeen(routed, flow.id, d)
    requires IsAssembly(Normalized(Kept(routed, flow.id, d)), Err(e))
    ensures FailsIn(flow, routed, d, e)
  {
    hide IsAssembly, DirectionSeen;
  }

  lemma FilledFlow(codec: Codec, flow: FlowModel, directions: seq<DirectionModel>, routed: seq<Routed>,
                   known: map<string, Protocol>)
    requires FlowTracked(flow, routed, known) && |directions| == |flow.directions|
    requires forall j :: 0 <= j < |directions| ==> DirectionTold(codec, flow.protocol, directions[j], routed, flow.id)
    requires forall j :: 0 <= j < |directions| ==> directions[j].direction == flow.directions[j].direction
    ensures FlowTold(codec, flow.(directions := directions), routed)
    ensures SameShape(flow, flow.(directions := directions))
  {
    TrackedParts(flow, routed, known);
    hide DirectionTold, FlowTracked;
  }

  ghost predicate SameShape(flow: FlowModel, filled: FlowModel) {
    && filled.id == flow.id && filled.protocol == flow.protocol && filled.owner == flow.owner
    && |filled.directions| == |flow.directions|
    && forall j :: 0 <= j < |flow.directions| ==> filled.directions[j].direction == flow.directions[j].direction
  }

  method FillFlows(codec: Codec, g: Gathered, known: map<string, Protocol>, ghost routed: seq<Routed>)
    returns (r: Result<seq<FlowModel>, ReportError>)
    requires Holds(g, routed, known)
    ensures r.Ok? ==> |r.value| == |g.flows|
    ensures r.Ok? ==> forall i :: 0 <= i < |g.flows| ==>
              FlowTold(codec, r.value[i], routed) && SameShape(g.flows[i], r.value[i])
    ensures r.Err? ==> r.error.AssemblyFailed? && FlowSeen(routed, r.error.flowId)
                       && exists i :: 0 <= i < |g.flows| && g.flows[i].id == r.error.flowId
                                      && FailsIn(g.flows[i], routed, r.error.direction, r.error.cause)
  {
    hide *;
    var flows: seq<FlowModel> := [];
    ListsMarks(g, routed, known);
    for i := 0 to |g.flows|
      invariant |flows| == i
      invariant forall k :: 0 <= k < i ==> FlowTold(codec, flows[k], routed) && SameShape(g.flows[k], flows[k])
    {
      TrackedFlow(g.flows, routed, known, i, i);
      var filled := FillFlow(codec, g.flows[i], g, known, routed);
      if filled.Err? {
        return Err(AssemblyFailed(g.flows[i].id, filled.error.0, filled.error.1));
      }
      flows := flows + [filled.value];
    }
    return Ok(flows);
  }

  // ---------------------------------------------------------------- registry-only flows

  function RegistryOnly(codec: Codec, flow: Flow, owners: map<string, string>): FlowModel {
    FlowModel(flow.id, TCP, if flow.id in owners && owners[flow.id] != "" then owners[flow.id] else "unknown",
              [DirectionModel(DirectionId(flow.id, Unknown), Unknown, flow.source, flow.destination,
                              flow.startedAt, flow.endedAt, 0, codec.sha256([]), "", [], [])])
  }

  /** A flow of which no packet was read: one unknown direction with the registered endpoints and lifetime, and
      no octets. */
  ghost predicate Bare(codec: Codec, flow: FlowModel, registered: seq<Flow>) {
    && flow.protocol.TCP? && |flow.directions| == 1
    && var m := flow.directions[0];
       && m.direction == Unknown && m.bytes == 0 && m.base64 == "" && m.sha256 == codec.sha256([])
       && exists k :: 0 <= k < |registered| && registered[k].id == flow.id
                      && m.source == registered[k].source && m.destination == registered[k].destination
                      && m.startedAt == registered[k].startedAt && m.endedAt == registered[k].endedAt
  }

  lemma RegistryOnlyBare(codec: Codec, registered: seq<Flow>, k: nat, owners: map<string, string>)
    requires k < |registered|
    ensures Bare(codec, RegistryOnly(codec, registered[k], owners), registered)
  {
  }

  lemma RegistryOnlyTold(codec: Codec, flow: Flow, owners: map<string, string>, routed: seq<Routed>)
    requires codec.Lossless() && !FlowSeen(routed, flow.id)
    ensures FlowTold(codec, RegistryOnly(codec, flow, owners), routed)
  {
    var model := RegistryOnly(codec, flow, owners);
    var m := model.directions[0];
    assert forall p :: p in routed ==> p.flowId != flow.id;
    UnseenProbes(routed, flow.id, Unknown);
    assert Reflects(m, routed, flow.id);
    NothingToAssemble([]);
    NormalizedLength([]);
    assert Normalized([]) == [];
    hide IsAssembly, Normalized;
    assert TellsTcp(codec, m, routed, flow.id) by {
      assert IsAssembly(Normalized(Kept(routed, flow.id, Unknown)), Ok(Assembled([], None)));
    }
  }

  predicate Listed(flows: seq<FlowModel>, id: string) {
    exists i :: 0 <= i < |flows| && flows[i].id == id
  }

  /** The registry holds a TCP flow with this ID. */
  ghost predicate RegisteredTcp(registered: seq<Flow>, id: string) {
    exists i :: 0 <= i < |registered| && registered[i].id == id && registered[i].protocol.TCP?
  }

  method AppendRegistryOnly(codec: Codec, flows: seq<FlowModel>, registered: seq<Flow>, owners: map<string, string>,
                            ghost routed: seq<Routed>)
    returns (all: seq<FlowModel>)
    requires codec.Lossless()
    requires UniqueIds(flows) && (forall i :: 0 <= i < |flows| ==> FlowTold(codec, flows[i], routed))
    requires forall p :: p in routed ==> HasFlow(flows, p.flowId)
    requires OwnersTold(flows, owners)
    ensures UniqueIds(all) && flows <= all && OwnersTold(all, owners)
    ensures forall i :: 0 <= i < |all| ==> FlowTold(codec, all[i], routed)
    ensures forall id :: HasFlow(all, id) <==> HasFlow(flows, id) || RegisteredTcp(registered, id)
    ensures forall i :: |flows| <= i < |all| ==> Bare(codec, all[i], registered)
  {
    hide FlowTold, Bare, OwnersTold;
    all := flows;
    for i := 0 to |registered|
      invariant UniqueIds(all) && flows <= all && OwnersTold(all, owners)
      invariant forall k :: 0 <= k < |all| ==> FlowTold(codec, all[k], routed)
      invariant forall id :: HasFlow(all, id) <==> HasFlow(flows, id) || RegisteredTcp(registered[..i], id)
      invariant forall k :: |flows| <= k < |all| ==> Bare(codec, all[k], registered)
    {
      var flow := registered[i];
      RegisteredGrows(registered, i);
      if flow.protocol.TCP? && !Listed(all, flow.id) {
        UnlistedUnseen(flows, all, flow.id, routed);
        RegistryOnlyTold(codec, flow, owners, routed);
        HasGrows(all, RegistryOnly(codec, flow, owners));
        RegistryOnlyBare(codec, registered, i, owners);
        AppendedOwners(codec, all, flow, owners);
        all := all + [RegistryOnly(codec, flow, owners)];
      } else {
        assert flow.protocol.TCP? ==> HasFlow(all, flow.id);
      }
    }
    assert registered[..|registered|] == registered;
  }

  lemma RegisteredGrows(registered: seq<Flow>, i: nat)
    requires i < |registered|
    ensures forall id :: RegisteredTcp(registered[..i + 1], id) <==>
              RegisteredTcp(registered[..i], id) || (registered[i].id == id && registered[i].protocol.TCP?)
  {
    var before, grown := registered[..i], registered[..i + 1];
    forall id
      ensures RegisteredTcp(grown, id) <==>
                RegisteredTcp(before, id) || (registered[i].id == id && registered[i].protocol.TCP?)
    {
      if RegisteredTcp(before, id) {
        var k :| 0 <= k < i && before[k].id == id && before[k].protocol.TCP?;
        assert grown[k] == before[k];
      }
      if registered[i].id == id && registered[i].protocol.TCP? {
        assert grown[i] == registered[i];
      }
      if RegisteredTcp(grown, id) {
        var k :| 0 <= k <= i && grown[k].id == id && grown[k].protocol.TCP?;
        assert k < i ==> before[k] == grown[k];
      }
    }
  }

  lemma HasGrows(flows: seq<FlowModel>, flow: FlowModel)
    ensures forall id :: HasFlow(flows + [flow], id) <==> HasFlow(flows, id) || flow.id == id
  {
    var grown := flows + [flow];
    forall id
      ensures HasFlow(grown, id) <==> HasFlow(flows, id) || flow.id == id
    {
      if HasFlow(flows, id) {
        var k :| 0 <= k < |flows| && flows[k].id == id;
        assert grown[k].id == id;
      }
      if flow.id == id {
        assert grown[|flows|].id == id;
      }
    }
  }

  lemma UnlistedUnseen(flows: seq<FlowModel>, all: seq<FlowModel>, id: string, routed: seq<Routed>)
    requires flows <= all && !Listed(all, id)
    requires forall p :: p in routed ==> HasFlow(flows, p.flowId)
    ensures !FlowSeen(routed, id)
  {
    forall p | p in routed
      ensures p.flowId != id
    {
      assert HasFlow(flows, p.flowId);
      var k :| 0 <= k < |flows| && flows[k].id == p.flowId;
      assert all[k] == flows[k];
    }
  }

  // ---------------------------------------------------------------- the report

  function CompleteReport(flows: seq<FlowModel>): (report: Report)
    ensures Headed(report) && report.flows == flows
  {
    Report(REPORT_SCHEMA, REPORT_ENCODING, true, flows)
  }

  /** Everything the report promises about the packets and the registry behind it. */
  ghost predicate ReportTold(codec: Codec, report: Report, routed: seq<Routed>, known: map<string, Protocol>,
                             registered: seq<Flow>) {
    && UniqueIds(report.flows)
    && (forall i :: 0 <= i < |report.flows| ==> FlowTold(codec, report.flows[i], routed))
    && (forall i :: 0 <= i < |report.flows| && FlowSeen(routed, report.flows[i].id) ==>
          ProtocolTold(known, routed, report.flows[i]))
    && (forall p :: p in routed ==> Mentions(report, p.flowId, p.direction))
    && (forall id :: HasFlow(report.flows, id) <==> FlowSeen(routed, id) || RegisteredTcp(registered, id))
  }

  ghost predicate Mentions(report: Report, flowId: string, d: Direction) {
    exists i :: 0 <= i < |report.flows| && report.flows[i].id == flowId && HasDirection(report.flows[i].directions, d)
  }

  /** A told report passes the validator exactly when no packet carries an empty flow ID. */
  lemma ToldReportValid(codec: Codec, report: Report, routed: seq<Routed>, known: map<string, Protocol>,
                        registered: seq<Flow>)
    requires codec.Lossless() && Headed(report) && ReportTold(codec, report, routed, known, registered)
    requires forall i :: 0 <= i < |registered| ==> registered[i].id != ""
    ensures ReportValid(codec, report) <==> !FlowSeen(routed, "")
  {
    forall i | 0 <= i < |report.flows|
      ensures FlowValid(codec, report.flows[i])
    {
      ToldIsValid(codec, report.flows[i], routed);
    }
    hide FlowTold, FlowValid, FlowSeen, ProtocolTold, Mentions;
    assert HasFlow(report.flows, "") <==> FlowSeen(routed, "");
  }

  method BuildPayloadReport(codec: Codec, registry: SessionFlowRegistry, selected: seq<Selected>,
                            owners: map<string, string>, healthy: bool)
    returns (r: Result<Report, ReportError>)
    requires codec.Lossless() && WellFormed(registry.State())
    modifies registry
    ensures r == Err(CaptureUnhealthy) <==> !healthy
    ensures healthy ==> registry.State() == RegistryAfter(old(registry.State()), selected)
    ensures healthy ==> var routed := RouteAll(old(registry.State()), selected);
              (r.Ok? <==> !FlowSeen(routed, "") && AllAssemblable(routed, KnownProtocols(old(registry.flows))))
    ensures r.Ok? ==> ReportValid(codec, r.value) && OwnersTold(r.value.flows, owners)
    ensures r.Ok? ==> ReportTold(codec, r.value, RouteAll(old(registry.State()), selected),
                                 KnownProtocols(old(registry.flows)), registry.flows)
    ensures r.Err? && r.error.ModelInvalid? ==> FlowSeen(RouteAll(old(registry.State()), selected), "")
    ensures r.Err? && r.error.AssemblyFailed? ==>
              var routed := RouteAll(old(registry.State()), selected);
              && DirectionSeen(routed, r.error.flowId, r.error.direction)
              && !AllAssemblable(routed, KnownProtocols(old(registry.flows)))
              && IsAssembly(Normalized(Kept(routed, r.error.flowId, r.error.direction)), Err(r.error.cause))
  {
    hide *;
    if !healthy {
      return Err(CaptureUnhealthy);
    }
    ghost var r0 := registry.State();
    WellFormedIndexed(r0);
    ghost var routed := RouteAll(r0, selected);
    var known := ProtocolsOf(registry.flows);
    var g := Gather(codec, registry, selected, known, owners);
    ListsMarks(g, routed, known);
    var filled := FillFlows(codec, g, known, routed);
    if filled.Err? {
      FailureTold(g.flows, routed, known, filled.error);
      return Err(filled.error);
    }
    TrackedIds(g.flows, filled.value, routed, known);
    ShapedOwners(g.flows, filled.value, owners);
    var flows := AppendRegistryOnly(codec, filled.value, registry.flows, owners, routed);
    var report := CompleteReport(flows);
    ReportComplete(codec, g.flows, filled.value, flows, routed, known, registry.flows);
    RegistryKept(r0, selected);
    RegisteredIds(registry.State());
    StateFlows(registry);
    ToldReportValid(codec, report, routed, known, registry.flows);
    ToldAssemblable(codec, report, routed, known, registry.flows);
    var checked := ValidatePayloadModel(codec, report);
    if checked.Err? {
      return Err(ModelInvalid(checked.error));
    }
    return Ok(report);
  }

  lemma StateFlows(registry: SessionFlowRegistry)
    ensures registry.State().flows == registry.flows
  {
  }

  lemma WellFormedIndexed(r: Registry)
    requires WellFormed(r)
    ensures Indexed(r)
  {
  }

  lemma FailureTold(flows: seq<FlowModel>, routed: seq<Routed>, known: map<string, Protocol>, e: ReportError)
    requires e.AssemblyFailed? && Tracked(flows, routed, known)
    requires exists i :: 0 <= i < |flows| && flows[i].id == e.flowId && FailsIn(flows[i], routed, e.direction, e.cause)
    ensures DirectionSeen(routed, e.flowId, e.direction)
    ensures IsAssembly(Normalized(Kept(routed, e.flowId, e.direction)), Err(e.cause))
    ensures !AllAssemblable(routed, known)
  {
    hide Tracked, FlowTracked, Assemblable, Normalized, Kept;
    var i :| 0 <= i < |flows| && flows[i].id == e.flowId && FailsIn(flows[i], routed, e.direction, e.cause);
    TrackedFlow(flows, routed, known, i, i);
    TrackedProtocol(flows[i], routed, known);
    var p :| p in routed && InDirection(p, e.flowId, e.direction);
    assert ToldAsTcp(known, routed, p.flowId) && p.direction == e.direction;
  }

  lemma TrackedProtocol(flow: FlowModel, routed: seq<Routed>, known: map<string, Protocol>)
    requires FlowTracked(flow, routed, known)
    ensures flow.protocol.TCP? <==> ToldAsTcp(known, routed, flow.id)
  {
  }

  /** Every direction of every flow modelled as TCP holds segments that assemble. */
  ghost predicate AllAssemblable(routed: seq<Routed>, known: map<string, Protocol>) {
    forall p :: p in routed && ToldAsTcp(known, routed, p.flowId) ==>
      Assemblable(Normalized(Kept(routed, p.flowId, p.direction)))
  }

  lemma ToldAssemblable(codec: Codec, report: Report, routed: seq<Routed>, known: map<string, Protocol>,
                        registered: seq<Flow>)
    requires ReportTold(codec, report, routed, known, registered)
    ensures AllAssemblable(routed, known)
  {
    hide Assemblable, Normalized, Kept, Renders, Encodes, Reflects, TellsUdp;
    forall p | p in routed && ToldAsTcp(known, routed, p.flowId)
      ensures Assemblable(Normalized(Kept(routed, p.flowId, p.direction)))
    {
      assert Mentions(report, p.flowId, p.direction);
      var i :| 0 <= i < |report.flows| && report.flows[i].id == p.flowId
          && HasDirection(report.flows[i].directions, p.direction);
      assert FlowSeen(routed, p.flowId) && ProtocolTold(known, routed, report.flows[i]);
      var j :| 0 <= j < |report.flows[i].directions| && report.flows[i].directions[j].direction == p.direction;
      assert FlowTold(codec, report.flows[i], routed);
      assert DirectionTold(codec, report.flows[i].protocol, report.flows[i].directions[j], routed, p.flowId);
    }
  }

  lemma TrackedIds(flows: seq<FlowModel>, filled: seq<FlowModel>, routed: seq<Routed>, known: map<string, Protocol>)
    requires Tracked(flows, routed, known) && |filled| == |flows|
    requires forall i :: 0 <= i < |flows| ==> SameShape(flows[i], filled[i])
    ensures UniqueIds(filled)
    ensures forall p :: p in routed ==> HasFlow(filled, p.flowId)
  {
    hide FlowTracked, FlowSeen;
    forall p | p in routed
      ensures HasFlow(filled, p.flowId)
    {
      assert HasFlow(flows, p.flowId);
      var i :| 0 <= i < |flows| && flows[i].id == p.flowId;
      assert SameShape(flows[i], filled[i]);
    }
    forall i, j | 0 <= i < j < |filled|
      ensures filled[i].id != filled[j].id
    {
      assert SameShape(flows[i], filled[i]) && SameShape(flows[j], filled[j]);
    }
  }

  lemma ReportComplete(codec: Codec, tracked: seq<FlowModel>, filled: seq<FlowModel>, all: seq<FlowModel>,
                       routed: seq<Routed>, known: map<string, Protocol>, registered: seq<Flow>)
    requires Tracked(tracked, routed, known) && |filled| == |tracked|
    requires forall i :: 0 <= i < |tracked| ==> SameShape(tracked[i], filled[i])
    requires UniqueIds(all) && filled <= all
    requires forall i :: 0 <= i < |all| ==> FlowTold(codec, all[i], routed)
    requires forall id :: HasFlow(all, id) <==> HasFlow(filled, id) || RegisteredTcp(registered, id)
    ensures ReportTold(codec, CompleteReport(all), routed, known, registered)
  {
    hide *;
    TrackedIds(tracked, filled, routed, known);
    forall i | 0 <= i < |all| && FlowSeen(routed, all[i].id)
      ensures ProtocolTold(known, routed, all[i])
    {
      SeenProtocol(tracked, filled, all, routed, known, i);
    }
    forall p | p in routed
      ensures Mentions(CompleteReport(all), p.flowId, p.direction)
    {
      RoutedMentioned(tracked, filled, all, routed, known, p);
    }
    forall id
      ensures HasFlow(filled, id) <==> FlowSeen(routed, id)
    {
      FilledSeen(tracked, filled, routed, known, id);
    }
    Assemble(codec, CompleteReport(all), routed, known, registered);
  }

  lemma Assemble(codec: Codec, report: Report, routed: seq<Routed>, known: map<string, Protocol>, registered: seq<Flow>)
    requires UniqueIds(report.flows)
    requires forall i :: 0 <= i < |report.flows| ==> FlowTold(codec, report.flows[i], routed)
    requires forall i :: 0 <= i < |report.flows| && FlowSeen(routed, report.flows[i].id) ==>
               ProtocolTold(known, routed, report.flows[i])
    requires forall p :: p in routed ==> Mentions(report, p.flowId, p.direction)
    requires forall id :: HasFlow(report.flows, id) <==> FlowSeen(routed, id) || RegisteredTcp(registered, id)
    ensures ReportTold(codec, report, routed, known, registered)
  {
    hide UniqueIds, FlowTold, FlowSeen, ProtocolTold, Mentions, HasFlow, RegisteredTcp;
  }

  lemma FilledSeen(tracked: seq<FlowModel>, filled: seq<FlowModel>, routed: seq<Routed>, known: map<string, Protocol>,
                   id: string)
    requires Tracked(tracked, routed, known) && |filled| == |tracked|
    requires forall i :: 0 <= i < |tracked| ==> SameShape(tracked[i], filled[i])
    ensures HasFlow(filled, id) <==> FlowSeen(routed, id)
  {
    if HasFlow(filled, id) {
      var i :| 0 <= i < |filled| && filled[i].id == id;
      assert SameShape(tracked[i], filled[i]);
      hide *;
      TrackedFlow(tracked, routed, known, i, i);
    } else {
      hide FlowTracked;
      forall p | p in routed
        ensures p.flowId != id
      {
        assert HasFlow(tracked, p.flowId);
        var i :| 0 <= i < |tracked| && tracked[i].id == p.flowId;
        assert SameShape(tracked[i], filled[i]);
        assert filled[i].id == p.flowId;
      }
    }
  }

  lemma SeenProtocol(tracked: seq<FlowModel>, filled: seq<FlowModel>, all: seq<FlowModel>, routed: seq<Routed>,
                     known: map<string, Protocol>, i: nat)
    requires Tracked(tracked, routed, known) && |filled| == |tracked|
    requires forall k :: 0 <= k < |tracked| ==> SameShape(tracked[k], filled[k])
    requires UniqueIds(all) && filled <= all && i < |all| && FlowSeen(routed, all[i].id)
    ensures ProtocolTold(known, routed, all[i])
  {
    FilledSeen(tracked, filled, routed, known, all[i].id);
    var k :| 0 <= k < |filled| && filled[k].id == all[i].id;
    assert all[k] == filled[k] && k == i;
    assert SameShape(tracked[k], filled[k]);
    TrackedFlow(tracked, routed, known, k, k);
    hide Tracked, DirectionsTracked, FlowSeen;
  }

  lemma RoutedMentioned(tracked: seq<FlowModel>, filled: seq<FlowModel>, all: seq<FlowModel>, routed: seq<Routed>,
                        known: map<string, Protocol>, p: Routed)
    requires Tracked(tracked, routed, known) && |filled| == |tracked|
    requires forall k :: 0 <= k < |tracked| ==> SameShape(tracked[k], filled[k])
    requires filled <= all && p in routed
    ensures Mentions(CompleteReport(all), p.flowId, p.direction)
  {
    assert HasFlow(tracked, p.flowId) by { hide FlowTracked; }
    var k :| 0 <= k < |tracked| && tracked[k].id == p.flowId;
    TrackedFlow(tracked, routed, known, k, k);
    assert SameShape(tracked[k], filled[k]);
    hide Tracked, ProtocolTold, FlowSeen, Reflects, DirectionSeen;
    assert HasDirection(tracked[k].directions, p.direction);
    var j :| 0 <= j < |tracked[k].directions| && tracked[k].directions[j].direction == p.direction;
    assert filled[k].directions[j].direction == p.direction;
    assert all[k] == filled[k] && HasDirection(all[k].directions, p.direction);
  }

  lemma {:induction false} RegistryKept(r: Registry, selected: seq<Selected>)
    requires WellFormed(r)
    ensures Indexed(r)
    ensures WellFormed(RegistryAfter(r, selected)) && Extends(r, RegistryAfter(r, selected))
  {
    hide WellFormed, Extends, Observed;
    WellFormedIndexed(r);
    if selected == [] {
      ExtendsItself(r);
    } else {
      var n := |selected| - 1;
      RegistryKept(r, selected[..n]);
      var before := RegistryAfter(r, selected[..n]);
      if Transported(selected[n]) && selected[n].flowId.None? {
        ObservedWellFormed(before, AsObservation(selected[n]));
        ExtendsThrough(r, before, RegistryAfter(r, selected));
      }
    }
  }

  lemma RegisteredIds(r: Registry)
    requires WellFormed(r)
    ensures forall i :: 0 <= i < |r.flows| ==> r.flows[i].id != ""
  {
    forall i | 0 <= i < |r.flows|
      ensures r.flows[i].id != ""
    {
      hide *;
      IdAt(r, i);
      FlowIdText(i + 1);
    }
  }

  lemma FlowIdText(n: nat)
    ensures FlowId(n) != ""
  {
    assert |FlowId(n)| >= 5;
  }
}
