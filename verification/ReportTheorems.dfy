/** What a built report guarantees as a whole. */
module ReportTheorems {
  import opened Outcomes
  import opened TcpSegments
  import opened TcpStreams
  import opened Packets
  import opened Keepalive
  import opened FlowRegistry
  import opened FlowRuns
  import opened ReportModel
  import opened ReportFacts
  import opened ReportTracking
  import opened ReportBuilder

  // ---------------------------------------------------------------- one orientation per list

  /** A known direction, once answered, is answered for ever. */
  lemma KnownDirectionKept(r: Registry, r': Registry, id: string, o: Orientation)
    requires WellFormed(r) && WellFormed(r') && Extends(r, r')
    requires DirectionIn(r.flows, id, o) != Unknown
    ensures DirectionIn(r'.flows, id, o) == DirectionIn(r.flows, id, o)
  {
    var place := PlaceOfId(r.flows, id, o);
    hide *;
    AnswerAt(r, place, o);
    IdAt(r, place);
    SameFlow(r, r', place);
    IdAt(r', place);
    AnswerAt(r', place, o);
    DirectionsKept(r, r', place, o);
  }

  lemma SameFlow(r: Registry, r': Registry, place: nat)
    requires Extends(r, r') && place < |r.flows|
    ensures place < |r'.flows|
  {
    hide Grows;
  }

  lemma DirectionsKept(r: Registry, r': Registry, place: nat, o: Orientation)
    requires Extends(r, r') && place < |r.flows| && place < |r'.flows|
    ensures o in r.flows[place].directions ==>
              o in r'.flows[place].directions && r'.flows[place].directions[o] == r.flows[place].directions[o]
  {
    assert Grows(r.flows[place], r'.flows[place]);
  }

  lemma {:induction false} PlaceOfId(flows: seq<Flow>, id: string, o: Orientation) returns (place: nat)
    requires DirectionIn(flows, id, o) != Unknown
    ensures place < |flows| && flows[place].id == id
  {
    if flows[0].id == id {
      place := 0;
    } else {
      place := PlaceOfId(flows[1..], id, o);
      place := place + 1;
    }
  }

  lemma AnswerAt(r: Registry, place: nat, o: Orientation)
    requires WellFormed(r) && place < |r.flows|
    ensures DirectionIn(r.flows, r.flows[place].id, o)
         == if o in r.flows[place].directions then r.flows[place].directions[o] else Unknown
  {
    hide *;
    forall i | 0 <= i < place
      ensures r.flows[i].id != r.flows[place].id
    {
      IdAt(r, i);
      IdAt(r, place);
      if FlowId(i + 1) == FlowId(place + 1) {
        FlowIdInjective(i + 1, place + 1);
      }
    }
    DirectionOfFlow(r.flows, place, o);
  }

  /** The i-th selected packet as the build attributes it. */
  function RoutedAt(r: Registry, selected: seq<Selected>, i: nat): Routed
    requires Indexed(r) && i < |selected| && Transported(selected[i])
  {
    Attributed(RegistryAfter(r, selected[..i]), selected[i])
  }

  /** What the registry answers for that packet's flow and orientation after n packets of the build. */
  function DirectionAfter(r: Registry, selected: seq<Selected>, i: nat, n: nat): Direction
    requires Indexed(r) && i < |selected| && Transported(selected[i]) && n <= |selected|
  {
    var p := RoutedAt(r, selected, i);
    DirectionIn(RegistryAfter(r, selected[..n]).flows, p.flowId, p.facts.Orient())
  }

  /** What is attributed to a selected packet: the flow its entry names or else the registry's answer, the direction
      that the registry knows or else its own, and its own facts, ordinal and time stamp. */
  lemma RoutedFields(r: Registry, selected: seq<Selected>, i: nat)
    requires Indexed(r) && i < |selected| && Transported(selected[i])
    ensures var before, s, p := RegistryAfter(r, selected[..i]), selected[i], RoutedAt(r, selected, i);
            var known := DirectionIn(RegistryAfter(r, selected[..i + 1]).flows, p.flowId, s.facts.Orient());
            var o := Observation(Some(s.facts), s.direction, Some(s.timestamp), Some(s.logicalId));
            && (s.flowId.Some? ==> p.flowId == s.flowId.value && RegistryAfter(r, selected[..i + 1]) == before)
            && (s.flowId.None? ==> Answer(before, o) == Some(p.flowId)
                                   && RegistryAfter(r, selected[..i + 1]) == Observed(before, o))
            && p.direction == (if known == Unknown then s.direction else known)
            && p.facts == s.facts && p.ordinal == s.ordinal && p.timestamp == s.timestamp
  {
    RouteSnoc(r, selected, i);
    hide RegistryAfter, DirectionIn, Registers;
    AnswerKnown(RegistryAfter(r, selected[..i]), AsObservation(selected[i]));
    hide Answer, Observed;
  }

  lemma AnswerKnown(r: Registry, o: Observation)
    requires Indexed(r) && o.facts.Some? && !o.facts.value.protocol.OtherProtocol?
    ensures Answer(r, o).Some?
  {
  }

  lemma RoutedPrefix(r: Registry, selected: seq<Selected>, n: nat, i: nat)
    requires Indexed(r) && i < n <= |selected| && Transported(selected[i])
    ensures RoutedAt(r, selected[..n], i) == RoutedAt(r, selected, i)
  {
    hide Indexed, Attributed, RegistryAfter, Transported;
    assert selected[..n][..i] == selected[..i];
  }

  lemma RoutedLast(r: Registry, selected: seq<Selected>)
    requires Indexed(r) && selected != []
    ensures var n := |selected| - 1;
            RouteAll(r, selected) == RouteAll(r, selected[..n])
              + if Transported(selected[n]) then [RoutedAt(r, selected, n)] else []
  {
    hide Indexed, Attributed, RegistryAfter, RegistryStep, Transported;
  }

  lemma {:induction false} SelectedIsRouted(r: Registry, selected: seq<Selected>, i: nat)
    requires Indexed(r) && i < |selected| && Transported(selected[i])
    ensures RoutedAt(r, selected, i) in RouteAll(r, selected)
  {
    hide *;
    var n := |selected| - 1;
    RoutedLast(r, selected);
    if i < n {
      SelectedIsRouted(r, selected[..n], i);
      RoutedPrefix(r, selected, n, i);
    }
  }

  lemma {:induction false} RoutedWasSelected(r: Registry, selected: seq<Selected>, p: Routed) returns (i: nat)
    requires Indexed(r) && p in RouteAll(r, selected)
    ensures i < |selected| && Transported(selected[i]) && p == RoutedAt(r, selected, i)
  {
    NothingRouted(r);
    hide *;
    var n := |selected| - 1;
    RoutedLast(r, selected);
    if p in RouteAll(r, selected[..n]) {
      i := RoutedWasSelected(r, selected[..n], p);
      RoutedPrefix(r, selected, n, i);
    } else {
      i := n;
    }
  }

  lemma NothingRouted(r: Registry)
    requires Indexed(r)
    ensures RouteAll(r, []) == []
  {
  }

  /** The packets of the lists are exactly the attributed selected ones. */
  lemma RoutedIsSelected(r: Registry, selected: seq<Selected>, p: Routed)
    requires Indexed(r)
    ensures p in RouteAll(r, selected) <==>
              exists i :: 0 <= i < |selected| && Transported(selected[i]) && p == RoutedAt(r, selected, i)
  {
    hide *;
    if p in RouteAll(r, selected) {
      var i := RoutedWasSelected(r, selected, p);
    }
    forall i: nat | i < |selected| && Transported(selected[i])
      ensures RoutedAt(r, selected, i) in RouteAll(r, selected)
    {
      SelectedIsRouted(r, selected, i);
    }
  }

  /** The registry after n packets of a build grows into the registry after m. */
  lemma {:induction false} BuildExtends(r: Registry, selected: seq<Selected>, n: nat, m: nat)
    requires WellFormed(r) && n <= m <= |selected|
    ensures Indexed(r) && WellFormed(RegistryAfter(r, selected[..n])) && WellFormed(RegistryAfter(r, selected[..m]))
    ensures Extends(RegistryAfter(r, selected[..n]), RegistryAfter(r, selected[..m]))
  {
    hide WellFormed, Extends, RegistryStep, RegistryAfter;
    RegistryKept(r, selected[..n]);
    RegistryKept(r, selected[..m]);
    if n == m {
      ExtendsItself(RegistryAfter(r, selected[..n]));
    } else {
      BuildExtends(r, selected, n, m - 1);
      RouteSnoc(r, selected, m - 1);
      StepExtends(RegistryAfter(r, selected[..m - 1]), selected[m - 1]);
      ExtendsThrough(RegistryAfter(r, selected[..n]), RegistryAfter(r, selected[..m - 1]),
                     RegistryAfter(r, selected[..m]));
    }
  }

  lemma StepExtends(r: Registry, s: Selected)
    requires WellFormed(r)
    ensures Indexed(r) && Extends(r, RegistryStep(r, s))
  {
    hide WellFormed, Extends, Observed;
    WellFormedIndexed(r);
    ExtendsItself(r);
    if Transported(s) && s.flowId.None? {
      ObservedWellFormed(r, AsObservation(s));
    }
  }

  /** A packet whose direction the registry knows when the packet is attributed, or knew before, gets that
      direction, and the registry gives the same answer ever after. */
  lemma AttributionFollowsRegistry(r: Registry, selected: seq<Selected>, i: nat, n: nat, m: nat)
    requires WellFormed(r) && Indexed(r) && i < |selected| && Transported(selected[i])
    requires n <= i + 1 && n <= m <= |selected| && DirectionAfter(r, selected, i, n) != Unknown
    ensures RoutedAt(r, selected, i).direction == DirectionAfter(r, selected, i, m)
  {
    RouteSnoc(r, selected, i);
    hide WellFormed, Extends, Indexed, RegistryStep, Answer, DirectionIn, RegistryAfter;
    var p := RoutedAt(r, selected, i);
    var first, at, later :=
        RegistryAfter(r, selected[..n]), RegistryAfter(r, selected[..i + 1]), RegistryAfter(r, selected[..m]);
    BuildExtends(r, selected, n, i + 1);
    BuildExtends(r, selected, n, m);
    KnownDirectionKept(first, at, p.flowId, p.facts.Orient());
    KnownDirectionKept(first, later, p.flowId, p.facts.Orient());
  }

  /** Two packets of one flow whose directions the registry knows when they are attributed share a segment
      list exactly when they share an orientation: no list mixes the two sequence spaces. */
  lemma ListsKeepOneOrientation(r: Registry, selected: seq<Selected>, i: nat, j: nat)
    requires WellFormed(r) && Indexed(r) && i < |selected| && j < |selected|
    requires Transported(selected[i]) && Transported(selected[j])
    requires DirectionAfter(r, selected, i, i + 1) != Unknown && DirectionAfter(r, selected, j, j + 1) != Unknown
    requires RoutedAt(r, selected, i).flowId == RoutedAt(r, selected, j).flowId
    ensures RoutedAt(r, selected, i).direction == RoutedAt(r, selected, j).direction
       <==> RoutedAt(r, selected, i).facts.Orient() == RoutedAt(r, selected, j).facts.Orient()
  {
    hide *;
    AttributionFollowsRegistry(r, selected, i, i + 1, |selected|);
    AttributionFollowsRegistry(r, selected, j, j + 1, |selected|);
    AttributionFollowsRegistry(r, selected, i, i + 1, i + 1);
    AttributionFollowsRegistry(r, selected, j, j + 1, j + 1);
    var p, q := RoutedAt(r, selected, i), RoutedAt(r, selected, j);
    BuildExtends(r, selected, |selected|, |selected|);
    var end := RegistryAfter(r, selected[..|selected|]);
    AnswersAfter(r, selected, i, |selected|);
    AnswersAfter(r, selected, j, |selected|);
    AnswersSeparate(end, p.flowId, p.facts.Orient(), q.facts.Orient());
  }

  lemma AnswersAfter(r: Registry, selected: seq<Selected>, i: nat, n: nat)
    requires Indexed(r) && i < |selected| && Transported(selected[i]) && n <= |selected|
    ensures DirectionAfter(r, selected, i, n)
         == DirectionIn(RegistryAfter(r, selected[..n]).flows, RoutedAt(r, selected, i).flowId,
                        RoutedAt(r, selected, i).facts.Orient())
  {
  }

  /** Known answers for one flow ID differ exactly when the orientations do. */
  lemma AnswersSeparate(r: Registry, id: string, a: Orientation, b: Orientation)
    requires WellFormed(r) && DirectionIn(r.flows, id, a) != Unknown && DirectionIn(r.flows, id, b) != Unknown
    ensures DirectionIn(r.flows, id, a) == DirectionIn(r.flows, id, b) <==> a == b
  {
    var place := PlaceOfId(r.flows, id, a);
    AnswerAt(r, place, a);
    AnswerAt(r, place, b);
    WellFormedFlow(r, place);
    hide WellFormed, DirectionIn;
    assert a == b || a == b.Reverse();
  }

  // ---------------------------------------------------------------- builds that attribute every packet themselves

  /** No entry names a flow, and the registry has not met the logical packets yet: so every build over a
      fresh registry whose index recorded no flow IDs. */
  ghost predicate Unattributed(r: Registry, selected: seq<Selected>) {
    && (forall i :: 0 <= i < |selected| ==> selected[i].flowId.None? && selected[i].logicalId !in r.logicalToFlow)
    && (forall i, j :: 0 <= i < j < |selected| ==> selected[i].logicalId != selected[j].logicalId)
  }

  lemma StepBinds(r: Registry, s: Selected, l: string)
    requires Indexed(r) && l in RegistryStep(r, s).logicalToFlow
    ensures l in r.logicalToFlow || l == s.logicalId
  {
  }

  lemma {:induction false} BoundLogicals(r: Registry, selected: seq<Selected>, n: nat, l: string)
    requires Indexed(r) && n <= |selected|
    requires l in RegistryAfter(r, selected[..n]).logicalToFlow
    ensures l in r.logicalToFlow || exists i :: 0 <= i < n && selected[i].logicalId == l
  {
    if n > 0 {
      hide RegistryAfter, RegistryStep, Indexed;
      RouteSnoc(r, selected, n - 1);
      StepBinds(RegistryAfter(r, selected[..n - 1]), selected[n - 1], l);
      if l in RegistryAfter(r, selected[..n - 1]).logicalToFlow {
        BoundLogicals(r, selected, n - 1, l);
      }
    }
  }

  /** Such a packet is registered when it is attributed, and its flow then lists its orientation. */
  lemma RegistersInBuild(r: Registry, selected: seq<Selected>, i: nat) returns (place: nat)
    requires WellFormed(r) && Indexed(r) && Unattributed(r, selected) && i < |selected| && Transported(selected[i])
    ensures var after := RegistryAfter(r, selected[..i + 1]); var p := RoutedAt(r, selected, i);
            && WellFormed(after) && place < |after.flows|
            && after.flows[place].id == p.flowId && p.facts.Orient() in after.flows[place].directions
            && after.flows[place].protocol == p.facts.protocol
  {
    RouteSnoc(r, selected, i);
    RegistryKept(r, selected[..i]);
    RegistryKept(r, selected[..i + 1]);
    var before, o := RegistryAfter(r, selected[..i]), AsObservation(selected[i]);
    if selected[i].logicalId in before.logicalToFlow {
      hide RegistryAfter, WellFormed;
      BoundLogicals(r, selected, i, selected[i].logicalId);
    }
    hide RegistryAfter, WellFormed, Observed, Prepared, Slot, Extends;
    RegisteredFacts(before, o);
    place := Slot(before, o);
    var flow := Observed(before, o).flows[place];
    assert flow.Key().protocol == flow.protocol && KeyOf(selected[i].facts).protocol == selected[i].facts.protocol;
  }

  /** For such a build it is enough that the registry knows the two directions when the build ends. */
  lemma FreshListsKeepOneOrientation(r: Registry, selected: seq<Selected>, i: nat, j: nat)
    requires WellFormed(r) && Indexed(r) && Unattributed(r, selected) && i < |selected| && j < |selected|
    requires Transported(selected[i]) && Transported(selected[j])
    requires DirectionAfter(r, selected, i, |selected|) != Unknown
              && DirectionAfter(r, selected, j, |selected|) != Unknown
    requires RoutedAt(r, selected, i).flowId == RoutedAt(r, selected, j).flowId
    ensures RoutedAt(r, selected, i).direction == RoutedAt(r, selected, j).direction
       <==> RoutedAt(r, selected, i).facts.Orient() == RoutedAt(r, selected, j).facts.Orient()
  {
    hide *;
    KnownAtOnce(r, selected, i);
    KnownAtOnce(r, selected, j);
    ListsKeepOneOrientation(r, selected, i, j);
  }

  /** Entries are write-once: what the registry knows at the end it knew when the packet was attributed. */
  lemma KnownAtOnce(r: Registry, selected: seq<Selected>, i: nat)
    requires WellFormed(r) && Indexed(r) && Unattributed(r, selected) && i < |selected| && Transported(selected[i])
    ensures DirectionAfter(r, selected, i, i + 1) == DirectionAfter(r, selected, i, |selected|)
  {
    hide *;
    var p := RoutedAt(r, selected, i);
    var place := RegistersInBuild(r, selected, i);
    BuildExtends(r, selected, i + 1, |selected|);
    AnswersAfter(r, selected, i, i + 1);
    AnswersAfter(r, selected, i, |selected|);
    var after, end := RegistryAfter(r, selected[..i + 1]), RegistryAfter(r, selected[..|selected|]);
    SameFlow(after, end, place);
    IdAt(after, place);
    IdAt(end, place);
    DirectionsKept(after, end, place, p.facts.Orient());
    AnswerAt(after, place, p.facts.Orient());
    AnswerAt(end, place, p.facts.Orient());
  }

  // ---------------------------------------------------------------- UDP octets are conserved

  function UdpOctets(routed: seq<Routed>): nat {
    if routed == [] then 0
    else
      var p := routed[|routed| - 1];
      UdpOctets(routed[..|routed| - 1]) + if p.facts.protocol.TCP? then 0 else |p.facts.payload|
  }

  function OctetsOfDirections(directions: seq<DirectionModel>): int {
    if directions == [] then 0
    else OctetsOfDirections(directions[..|directions| - 1]) + directions[|directions| - 1].bytes
  }

  /** The byte counts of all directions of all flows modelled as UDP. */
  function ReportedUdpOctets(flows: seq<FlowModel>): int {
    if flows == [] then 0
    else
      var flow := flows[|flows| - 1];
      ReportedUdpOctets(flows[..|flows| - 1]) + if flow.protocol.TCP? then 0 else OctetsOfDirections(flow.directions)
  }

  /** What the datagram lists of some directions of one flow hold together. */
  function ListedInDirections(routed: seq<Routed>, flowId: string, directions: seq<DirectionModel>): int {
    if directions == [] then 0
    else
      var n := |directions| - 1;
      ListedInDirections(routed, flowId, directions[..n])
      + |Concatenated(Datagrams(routed, flowId, directions[n].direction))|
  }

  function ListedInFlows(routed: seq<Routed>, flows: seq<FlowModel>): int {
    if flows == [] then 0
    else
      var flow := flows[|flows| - 1];
      ListedInFlows(routed, flows[..|flows| - 1])
      + if flow.protocol.TCP? then 0 else ListedInDirections(routed, flow.id, flow.directions)
  }

  lemma ListGrows(routed: seq<Routed>, p: Routed, flowId: string, d: Direction)
    ensures |Concatenated(Datagrams(routed + [p], flowId, d))|
         == |Concatenated(Datagrams(routed, flowId, d))|
            + if InDirection(p, flowId, d) && !p.facts.protocol.TCP? then |p.facts.payload| else 0
  {
    assert (routed + [p])[..|routed|] == routed;
    var before := Datagrams(routed, flowId, d);
    assert (before + [p])[..|before|] == before;
  }

  ghost predicate DirectionsDiffer(directions: seq<DirectionModel>) {
    forall i, j :: 0 <= i < j < |directions| ==> directions[i].direction != directions[j].direction
  }

  lemma {:induction false} DirectionsGrow(routed: seq<Routed>, p: Routed, flowId: string,
                                          directions: seq<DirectionModel>)
    requires DirectionsDiffer(directions)
    ensures ListedInDirections(routed + [p], flowId, directions)
         == ListedInDirections(routed, flowId, directions)
            + if p.flowId == flowId && !p.facts.protocol.TCP? && HasDirection(directions, p.direction)
              then |p.facts.payload| else 0
  {
    if directions != [] {
      var n := |directions| - 1;
      DirectionsGrow(routed, p, flowId, directions[..n]);
      ListGrows(routed, p, flowId, directions[n].direction);
      LastDirection(directions, p.direction);
    }
  }

  lemma LastDirection(directions: seq<DirectionModel>, d: Direction)
    requires directions != [] && DirectionsDiffer(directions)
    ensures var n := |directions| - 1;
            && (HasDirection(directions, d) <==> HasDirection(directions[..n], d) || directions[n].direction == d)
            && !(HasDirection(directions[..n], d) && directions[n].direction == d)
  {
    var n := |directions| - 1;
    if HasDirection(directions, d) {
      var j :| 0 <= j <= n && directions[j].direction == d;
      assert j < n ==> directions[..n][j].direction == d;
    }
    if HasDirection(directions[..n], d) {
      var j :| 0 <= j < n && directions[..n][j].direction == d;
      assert directions[j].direction == d;
    }
  }

  /** The entry of a UDP flow that carries this packet's direction. */
  ghost predicate Carries(flows: seq<FlowModel>, p: Routed) {
    exists i :: 0 <= i < |flows| && flows[i].id == p.flowId && !flows[i].protocol.TCP?
                && HasDirection(flows[i].directions, p.direction)
  }

  ghost predicate AllDirectionsDiffer(flows: seq<FlowModel>) {
    forall i :: 0 <= i < |flows| ==> DirectionsDiffer(flows[i].directions)
  }

  lemma {:induction false} FlowsGrow(routed: seq<Routed>, p: Routed, flows: seq<FlowModel>)
    requires UniqueIds(flows) && AllDirectionsDiffer(flows)
    ensures ListedInFlows(routed + [p], flows)
         == ListedInFlows(routed, flows) + if !p.facts.protocol.TCP? && Carries(flows, p) then |p.facts.payload| else 0
  {
    hide DirectionsDiffer, HasDirection;
    if flows != [] {
      var n := |flows| - 1;
      FlowsGrow(routed, p, flows[..n]);
      DirectionsGrow(routed, p, flows[n].id, flows[n].directions);
      LastFlow(flows, p);
    }
  }

  lemma LastFlow(flows: seq<FlowModel>, p: Routed)
    requires flows != [] && UniqueIds(flows)
    ensures var n := |flows| - 1;
            var last := flows[n].id == p.flowId && !flows[n].protocol.TCP?
                && HasDirection(flows[n].directions, p.direction);
            (Carries(flows, p) <==> Carries(flows[..n], p) || last) && !(Carries(flows[..n], p) && last)
  {
    hide HasDirection;
    var n := |flows| - 1;
    if Carries(flows, p) {
      var i :| 0 <= i <= n && flows[i].id == p.flowId && !flows[i].protocol.TCP?
          && HasDirection(flows[i].directions, p.direction);
      assert i < n ==> flows[..n][i] == flows[i];
    }
    if Carries(flows[..n], p) {
      var i :| 0 <= i < n && flows[..n][i].id == p.flowId && !flows[..n][i].protocol.TCP?
               && HasDirection(flows[..n][i].directions, p.direction);
      assert flows[i] == flows[..n][i];
    }
  }

  /** The payloads of the UDP packets that some UDP entry of these flows carries. */
  ghost function CarriedOctets(routed: seq<Routed>, flows: seq<FlowModel>): int {
    if routed == [] then 0
    else
      var p := routed[|routed| - 1];
      CarriedOctets(routed[..|routed| - 1], flows)
      + if !p.facts.protocol.TCP? && Carries(flows, p) then |p.facts.payload| else 0
  }

  lemma {:induction false} ListsHoldCarried(routed: seq<Routed>, flows: seq<FlowModel>)
    requires UniqueIds(flows) && AllDirectionsDiffer(flows)
    ensures ListedInFlows(routed, flows) == CarriedOctets(routed, flows)
  {
    hide UniqueIds, AllDirectionsDiffer, Carries;
    if routed == [] {
      NothingListed(flows);
    } else {
      var n := |routed| - 1;
      assert routed == routed[..n] + [routed[n]];
      ListsHoldCarried(routed[..n], flows);
      FlowsGrow(routed[..n], routed[n], flows);
    }
  }

  ghost predicate AllCarried(routed: seq<Routed>, flows: seq<FlowModel>) {
    forall p :: p in routed && !p.facts.protocol.TCP? && p.facts.payload != [] ==> Carries(flows, p)
  }

  lemma {:induction false} CarriedOrLost(routed: seq<Routed>, flows: seq<FlowModel>)
    ensures CarriedOctets(routed, flows) <= UdpOctets(routed)
    ensures CarriedOctets(routed, flows) == UdpOctets(routed) <==> AllCarried(routed, flows)
  {
    hide Carries;
    if routed != [] {
      var n := |routed| - 1;
      assert forall p :: p in routed <==> p in routed[..n] || p == routed[n];
      CarriedOrLost(routed[..n], flows);
    }
  }

  lemma {:induction false} NothingListed(flows: seq<FlowModel>)
    ensures ListedInFlows([], flows) == 0
  {
    if flows != [] {
      var flow := flows[|flows| - 1];
      NothingListed(flows[..|flows| - 1]);
      NothingInDirections(flow.id, flow.directions);
    }
  }

  lemma {:induction false} NothingInDirections(flowId: string, directions: seq<DirectionModel>)
    ensures ListedInDirections([], flowId, directions) == 0
  {
    if directions != [] {
      NothingInDirections(flowId, directions[..|directions| - 1]);
    }
  }

  lemma {:induction false} ToldDirections(codec: Codec, flow: FlowModel, directions: seq<DirectionModel>,
                                          routed: seq<Routed>)
    requires !flow.protocol.TCP?
    requires forall j :: 0 <= j < |directions| ==> DirectionTold(codec, flow.protocol, directions[j], routed, flow.id)
    ensures OctetsOfDirections(directions) == ListedInDirections(routed, flow.id, directions)
  {
    if directions != [] {
      var n := |directions| - 1;
      assert DirectionTold(codec, flow.protocol, directions[n], routed, flow.id);
      hide DirectionTold, DatagramTold, Reflects;
      assert TellsUdp(codec, directions[n], routed, flow.id) by { DirectionTells(codec, flow, directions[n], routed); }
      ToldDirections(codec, flow, directions[..n], routed);
    }
  }

  lemma DirectionTells(codec: Codec, flow: FlowModel, m: DirectionModel, routed: seq<Routed>)
    requires !flow.protocol.TCP? && DirectionTold(codec, flow.protocol, m, routed, flow.id)
    ensures TellsUdp(codec, m, routed, flow.id)
  {
    hide TellsUdp, Reflects;
  }

  lemma {:induction false} ToldFlows(codec: Codec, flows: seq<FlowModel>, routed: seq<Routed>)
    requires forall i :: 0 <= i < |flows| ==> FlowTold(codec, flows[i], routed)
    ensures ReportedUdpOctets(flows) == ListedInFlows(routed, flows)
  {
    if flows != [] {
      var flow := flows[|flows| - 1];
      assert FlowTold(codec, flow, routed);
      ToldFlows(codec, flows[..|flows| - 1], routed);
      if !flow.protocol.TCP? {
        hide DirectionTold;
        ToldDirections(codec, flow, flow.directions, routed);
      }
    }
  }

  /** UDP octets are never counted twice, and none is lost exactly when no UDP packet with data belongs
      to a flow that is modelled as TCP. */
  lemma UdpOctetsConserved(codec: Codec, report: Report, routed: seq<Routed>, known: map<string, Protocol>,
                           registered: seq<Flow>)
    requires ReportTold(codec, report, routed, known, registered)
    ensures ReportedUdpOctets(report.flows) <= UdpOctets(routed)
    ensures ReportedUdpOctets(report.flows) == UdpOctets(routed)
       <==> forall p :: p in routed && !p.facts.protocol.TCP? && p.facts.payload != [] ==>
           !ToldAsTcp(known, routed, p.flowId)
  {
    forall p | p in routed
      ensures Carries(report.flows, p) <==> !ToldAsTcp(known, routed, p.flowId)
    {
      UdpCarried(codec, report, routed, known, registered, p);
    }
    assert AllDirectionsDiffer(report.flows) by { hide DirectionTold, ProtocolTold, FlowSeen, Mentions; }
    hide FlowTold, Carries, AllDirectionsDiffer, Mentions, ProtocolTold, FlowSeen, ToldAsTcp;
    ToldFlows(codec, report.flows, routed);
    ListsHoldCarried(routed, report.flows);
    CarriedOrLost(routed, report.flows);
  }

  lemma UdpCarried(codec: Codec, report: Report, routed: seq<Routed>, known: map<string, Protocol>,
                   registered: seq<Flow>, p: Routed)
    requires ReportTold(codec, report, routed, known, registered) && p in routed
    ensures Carries(report.flows, p) <==> !ToldAsTcp(known, routed, p.flowId)
  {
    assert Mentions(report, p.flowId, p.direction);
    hide FlowTold, HasDirection;
    var i :| 0 <= i < |report.flows| && report.flows[i].id == p.flowId
        && HasDirection(report.flows[i].directions, p.direction);
    assert FlowSeen(routed, report.flows[i].id);
    assert ProtocolTold(known, routed, report.flows[i]);
  }

  // ---------------------------------------------------------------- the true stream reaches the report

  /** End to end: when the segments kept for a direction of a TCP flow are slices of one true stream within
      the window, the report's Base64 text for that direction decodes to exactly the octets they cover,
      whatever octets the waived probes carried. */
  lemma ReportTellsStream(codec: Codec, report: Report, routed: seq<Routed>, known: map<string, Protocol>,
                          registered: seq<Flow>, flowId: string, d: Direction,
                          offsets: seq<int>, stream: seq<Octet>, origin: int, lo: int, hi: int)
    requires codec.Lossless() && ReportTold(codec, report, routed, known, registered)
    requires DirectionSeen(routed, flowId, d) && ToldAsTcp(known, routed, flowId)
    requires WithinWindow(Kept(routed, flowId, d), offsets)
    requires SlicesOf(Lifted(Kept(routed, flowId, d), offsets), stream, origin, lo, hi)
    ensures origin <= lo <= hi <= origin + |stream| && Mentions(report, flowId, d)
    ensures forall i, j :: 0 <= i < |report.flows| && report.flows[i].id == flowId
                           && 0 <= j < |report.flows[i].directions| && report.flows[i].directions[j].direction == d
              ==> codec.decode(report.flows[i].directions[j].base64) == Some(stream[lo - origin..hi - origin])
  {
    assert origin <= lo <= hi <= origin + |stream|;
    hide WithinWindow, SlicesOf, Lifted, Kept, IsAssembly, Normalized, Reflects, TellsUdp;
    var p :| p in routed && InDirection(p, flowId, d);
    assert Mentions(report, p.flowId, p.direction);
    forall i, j | 0 <= i < |report.flows| && report.flows[i].id == flowId
                  && 0 <= j < |report.flows[i].directions| && report.flows[i].directions[j].direction == d
      ensures codec.decode(report.flows[i].directions[j].base64) == Some(stream[lo - origin..hi - origin])
    {
      var m := report.flows[i].directions[j];
      assert FlowSeen(routed, flowId) && ProtocolTold(known, routed, report.flows[i]);
      assert FlowTold(codec, report.flows[i], routed)
          && DirectionTold(codec, report.flows[i].protocol, m, routed, flowId);
      var a: Assembled :| IsAssembly(Normalized(Kept(routed, flowId, d)), Ok(a)) && Encodes(codec, m, a.payload);
      ReconstructsTrueStream(Kept(routed, flowId, d), offsets, stream, origin, lo, hi, Ok(a));
    }
  }
}
