/** What every run of the flow registry keeps. */
module FlowRuns {
  import opened Outcomes
  import opened TcpSegments
  import opened Packets
  import opened FlowRegistry
  import Text

  // ---------------------------------------------------------------- one flow

  /** Both orientations are distinct and have known directions only if these differ. */
  ghost predicate Separated(flow: Flow) {
    forall o :: o in flow.directions && o.Reverse() in flow.directions && o != o.Reverse()
                && flow.directions[o] != Unknown && flow.directions[o.Reverse()] != Unknown
      ==> flow.directions[o] != flow.directions[o.Reverse()]
  }

  ghost predicate FlowOk(flow: Flow) {
    && flow.protocol != OtherProtocol
    && flow.Opening() in flow.directions
    && (forall o :: o in flow.directions ==> o == flow.Opening() || o == flow.Opening().Reverse())
    && flow.synNumbers.Keys <= flow.directions.Keys
    && (flow.protocol.UDP? ==> flow.synNumbers == map[] && !flow.closed)
    && Separated(flow)
    && (flow.directions[flow.Opening()] != Unknown ==>
          forall o :: o in flow.directions ==> flow.directions[o] != Unknown)
  }

  ghost predicate Submap<K, V>(small: map<K, V>, large: map<K, V>) {
    forall k :: k in small ==> k in large && large[k] == small[k]
  }

  /** `later` is the same flow after further packets: facts are only added. */
  ghost predicate Grows(flow: Flow, later: Flow) {
    && later.id == flow.id && later.protocol == flow.protocol && later.version == flow.version
    && later.source == flow.source && later.destination == flow.destination
    && (flow.closed ==> later.closed)
    && Submap(flow.directions, later.directions)
    && Submap(flow.synNumbers, later.synNumbers)
    && flow.logicalIds <= later.logicalIds
    && (flow.startedAt.Some? ==> later.startedAt.Some? && later.startedAt.value <= flow.startedAt.value)
    && (flow.endedAt.Some? ==> later.endedAt.Some? && flow.endedAt.value <= later.endedAt.value)
  }

  lemma NewFlowOk(id: string, facts: Facts, timestamp: Option<real>, direction: Direction)
    requires facts.protocol != OtherProtocol
    ensures FlowOk(NewFlow(id, facts, timestamp, direction))
  {
  }

  lemma JoinedDirections(flow: Flow, o: Observation)
    requires FlowOk(flow) && o.facts.Some? && KeyOf(o.facts.value) == flow.Key()
    ensures Separated(Joined(flow, o))
    ensures var joined := Joined(flow, o);
            joined.directions[flow.Opening()] != Unknown ==>
              forall d :: d in joined.directions ==> joined.directions[d] != Unknown
  {
    var facts := o.facts.value;
    KeySeparates(facts.protocol, facts.version, facts.Orient(), flow.protocol, flow.version, flow.Opening());
    var joined := Joined(flow, o);
    if facts.Orient() !in flow.directions {
      assert facts.Orient() == flow.Opening().Reverse() && facts.Orient().Reverse() == flow.Opening();
      assert forall d :: d in joined.directions ==> d == flow.Opening() || d == facts.Orient();
    }
  }

  lemma JoinedOk(flow: Flow, o: Observation)
    requires FlowOk(flow) && o.facts.Some? && KeyOf(o.facts.value) == flow.Key()
    ensures FlowOk(Joined(flow, o)) && Grows(flow, Joined(flow, o))
  {
    var facts := o.facts.value;
    KeySeparates(facts.protocol, facts.version, facts.Orient(), flow.protocol, flow.version, flow.Opening());
    JoinedDirections(flow, o);
    hide Separated;
  }

  // ---------------------------------------------------------------- the whole registry

  /** `place` is the last flow opened under `key`. */
  ghost predicate Latest(flows: seq<Flow>, key: FlowKey, place: nat) {
    && place < |flows| && flows[place].Key() == key
    && forall j :: place < j < |flows| ==> flows[j].Key() != key
  }

  ghost predicate IdsOk(r: Registry) {
    && r.nextId == |r.flows| + 1
    && (forall i :: 0 <= i < |r.flows| ==> r.flows[i].id == FlowId(i + 1))
  }

  ghost predicate KeysOk(r: Registry) {
    && (forall k :: k in r.byKey ==> Latest(r.flows, k, r.byKey[k]))
    && (forall i :: 0 <= i < |r.flows| ==> r.flows[i].Key() in r.byKey)
  }

  /** A logical ID is recorded in exactly the flow it is bound to. */
  ghost predicate LogicalsOk(r: Registry) {
    && (forall l :: l in r.logicalToFlow ==>
          r.logicalToFlow[l] < |r.flows| && l in r.flows[r.logicalToFlow[l]].logicalIds)
    && (forall i, l :: 0 <= i < |r.flows| && l in r.flows[i].logicalIds
         ==> l in r.logicalToFlow && r.logicalToFlow[l] == i)
  }

  ghost predicate UdpUnique(flows: seq<Flow>) {
    forall i, j :: 0 <= i < j < |flows| && flows[i].Key() == flows[j].Key() ==> flows[i].protocol.TCP?
  }

  ghost predicate FlowsOk(flows: seq<Flow>) {
    forall i :: 0 <= i < |flows| ==> FlowOk(flows[i])
  }

  ghost predicate WellFormed(r: Registry) {
    Indexed(r) && IdsOk(r) && KeysOk(r) && LogicalsOk(r) && UdpUnique(r.flows) && FlowsOk(r.flows)
  }

  ghost predicate Extends(r: Registry, r': Registry) {
    && |r.flows| <= |r'.flows|
    && (forall i :: 0 <= i < |r.flows| ==> Grows(r.flows[i], r'.flows[i]))
    && Submap(r.logicalToFlow, r'.logicalToFlow)
  }

  lemma PreparedWellFormed(r: Registry, o: Observation)
    requires WellFormed(r) && o.facts.Some? && o.facts.value.protocol != OtherProtocol
    ensures WellFormed(Prepared(r, o))
    ensures Prepared(r, o).flows[Slot(r, o)].Key() == KeyOf(o.facts.value)
    ensures |r.flows| <= |Prepared(r, o).flows| && Prepared(r, o).flows[..|r.flows|] == r.flows
    ensures Prepared(r, o).logicalToFlow == r.logicalToFlow
  {
    var facts := o.facts.value;
    var key := KeyOf(facts);
    if OpensFlow(r, facts) {
      var flow := NewFlow(FlowId(r.nextId), facts, o.timestamp, OriginDirection(facts, o.direction));
      NewFlowOk(FlowId(r.nextId), facts, o.timestamp, OriginDirection(facts, o.direction));
      Opened(r, flow);
    } else {
      hide IdsOk, LogicalsOk, UdpUnique, FlowsOk;
      assert Latest(r.flows, key, r.byKey[key]);
    }
  }

  function WithFlow(r: Registry, flow: Flow): Registry {
    Registry(r.nextId + 1, r.flows + [flow], r.byKey[flow.Key() := |r.flows|], r.logicalToFlow)
  }

  /** Appending a fresh flow under its key keeps the registry well formed. */
  lemma Opened(r: Registry, flow: Flow)
    requires WellFormed(r) && FlowOk(flow) && flow.id == FlowId(r.nextId) && flow.logicalIds == {}
    requires flow.Key() in r.byKey ==> flow.protocol.TCP?
    ensures WellFormed(WithFlow(r, flow))
  {
    hide IdsOk, LogicalsOk, FlowsOk, KeysOk, Indexed, UdpUnique, FlowOk, WithFlow;
    OpenedIds(r, flow);
    OpenedLogicals(r, flow);
    OpenedKeys(r, flow);
    OpenedUdp(r, flow);
    OpenedFlows(r, flow);
  }

  lemma OpenedIds(r: Registry, flow: Flow)
    requires IdsOk(r) && flow.id == FlowId(r.nextId)
    ensures IdsOk(WithFlow(r, flow))
  {
  }

  lemma OpenedLogicals(r: Registry, flow: Flow)
    requires LogicalsOk(r) && flow.logicalIds == {}
    ensures LogicalsOk(WithFlow(r, flow))
  {
  }

  lemma OpenedFlows(r: Registry, flow: Flow)
    requires FlowsOk(r.flows) && FlowOk(flow)
    ensures FlowsOk(WithFlow(r, flow).flows)
  {
    hide FlowOk;
  }

  lemma OpenedUdp(r: Registry, flow: Flow)
    requires UdpUnique(r.flows) && KeysOk(r) && (flow.Key() in r.byKey ==> flow.protocol.TCP?)
    ensures UdpUnique(WithFlow(r, flow).flows)
  {
    forall i | 0 <= i < |r.flows| && r.flows[i].Key() == flow.Key()
      ensures r.flows[i].protocol.TCP?
    {
      assert flow.Key() in r.byKey && r.flows[i].Key().protocol == flow.Key().protocol;
    }
  }

  lemma OpenedKeys(r: Registry, flow: Flow)
    requires KeysOk(r) && Indexed(r)
    ensures KeysOk(WithFlow(r, flow)) && Indexed(WithFlow(r, flow))
  {
    var r' := WithFlow(r, flow);
    forall k | k in r'.byKey
      ensures Latest(r'.flows, k, r'.byKey[k])
    {
      assert k != flow.Key() ==> Latest(r.flows, k, r.byKey[k]);
    }
  }

  function WithReplaced(r: Registry, place: nat, flow: Flow, logicalId: Option<string>): Registry
    requires place < |r.flows|
  {
    r.(flows := r.flows[place := flow],
       logicalToFlow := if logicalId.Some? then r.logicalToFlow[logicalId.value := place] else r.logicalToFlow)
  }

  /** Replacing one flow by a grown version of itself keeps the registry well formed. */
  lemma ReplacedWellFormed(r: Registry, place: nat, flow: Flow, logicalId: Option<string>)
    requires WellFormed(r) && place < |r.flows|
    requires FlowOk(flow) && Grows(r.flows[place], flow)
    requires flow.logicalIds == if logicalId.Some? then r.flows[place].logicalIds + {logicalId.value}
                                else r.flows[place].logicalIds
    requires logicalId.Some? ==> logicalId.value !in r.logicalToFlow
    ensures WellFormed(WithReplaced(r, place, flow, logicalId))
  {
    hide IdsOk, LogicalsOk, FlowsOk, KeysOk, Indexed, UdpUnique, FlowOk, Grows, WithReplaced;
    SameKey(r.flows[place], flow);
    ReplacedLogicals(r, place, flow, logicalId);
    ReplacedFlows(r, place, flow, logicalId);
    ReplacedKeys(r, place, flow, logicalId);
  }

  lemma ReplacedLogicals(r: Registry, place: nat, flow: Flow, logicalId: Option<string>)
    requires LogicalsOk(r) && place < |r.flows|
    requires flow.logicalIds == if logicalId.Some? then r.flows[place].logicalIds + {logicalId.value}
                                else r.flows[place].logicalIds
    requires logicalId.Some? ==> logicalId.value !in r.logicalToFlow
    ensures LogicalsOk(WithReplaced(r, place, flow, logicalId))
  {
  }

  lemma ReplacedFlows(r: Registry, place: nat, flow: Flow, logicalId: Option<string>)
    requires IdsOk(r) && FlowsOk(r.flows) && place < |r.flows| && FlowOk(flow) && flow.id == r.flows[place].id
    ensures IdsOk(WithReplaced(r, place, flow, logicalId)) && FlowsOk(WithReplaced(r, place, flow, logicalId).flows)
  {
    hide FlowOk;
  }

  lemma ReplacedKeys(r: Registry, place: nat, flow: Flow, logicalId: Option<string>)
    requires Indexed(r) && KeysOk(r) && UdpUnique(r.flows) && place < |r.flows|
    requires flow.Key() == r.flows[place].Key() && flow.protocol == r.flows[place].protocol
    ensures Indexed(WithReplaced(r, place, flow, logicalId)) && KeysOk(WithReplaced(r, place, flow, logicalId))
    ensures UdpUnique(WithReplaced(r, place, flow, logicalId).flows)
  {
    var r' := WithReplaced(r, place, flow, logicalId);
    hide KeysOk;
    forall i | 0 <= i < |r.flows|
      ensures r'.flows[i].Key() == r.flows[i].Key() && r'.flows[i].protocol == r.flows[i].protocol
    {
    }
    SameKeysOk(r, r');
  }

  lemma SameKey(flow: Flow, later: Flow)
    requires Grows(flow, later)
    ensures later.Key() == flow.Key() && later.id == flow.id && later.protocol == flow.protocol
  {
  }

  lemma SameKeysOk(r: Registry, r': Registry)
    requires KeysOk(r) && r'.byKey == r.byKey && |r'.flows| == |r.flows|
    requires forall i :: 0 <= i < |r.flows| ==> r'.flows[i].Key() == r.flows[i].Key()
    ensures KeysOk(r')
  {
    forall k | k in r'.byKey
      ensures Latest(r'.flows, k, r'.byKey[k])
    {
      assert Latest(r.flows, k, r.byKey[k]);
    }
  }

  lemma ObservedWellFormed(r: Registry, o: Observation)
    requires WellFormed(r)
    ensures WellFormed(Observed(r, o)) && Extends(r, Observed(r, o))
  {
    hide *;
    if Registers(r, o) {
      ObservedShape(r, o);
      PreparedWellFormed(r, o);
      var prepared, place := Prepared(r, o), Slot(r, o);
      WellFormedFlow(prepared, place);
      JoinedOk(prepared.flows[place], o);
      ReplacedWellFormed(prepared, place, Joined(prepared.flows[place], o), o.logicalId);
      ObservedExtends(r, o);
    } else {
      UnchangedExtends(r, o);
    }
  }

  lemma ObservedShape(r: Registry, o: Observation)
    requires WellFormed(r) && Registers(r, o)
    ensures Indexed(r) && o.facts.Some? && o.facts.value.protocol != OtherProtocol
    ensures Slot(r, o) < |Prepared(r, o).flows|
    ensures var prepared := Prepared(r, o); var place := Slot(r, o);
            && Observed(r, o) == WithReplaced(prepared, place, Joined(prepared.flows[place], o), o.logicalId)
            && Joined(prepared.flows[place], o).logicalIds
               == (if o.logicalId.Some? then prepared.flows[place].logicalIds + {o.logicalId.value}
                   else prepared.flows[place].logicalIds)
    ensures o.logicalId.Some? ==> o.logicalId.value !in r.logicalToFlow
  {
    assert Prepared(r, o).logicalToFlow == r.logicalToFlow;
    hide Prepared;
  }

  lemma WellFormedFlow(r: Registry, place: nat)
    requires WellFormed(r) && place < |r.flows|
    ensures FlowOk(r.flows[place])
  {
    hide FlowOk;
  }

  lemma UnchangedExtends(r: Registry, o: Observation)
    requires WellFormed(r) && !Registers(r, o)
    ensures Indexed(r) && Observed(r, o) == r && Extends(r, r)
  {
  }

  lemma ObservedExtends(r: Registry, o: Observation)
    requires WellFormed(r) && Registers(r, o)
    requires Slot(r, o) < |Prepared(r, o).flows| && |r.flows| <= |Prepared(r, o).flows|
    requires Prepared(r, o).flows[..|r.flows|] == r.flows
    requires Grows(Prepared(r, o).flows[Slot(r, o)], Joined(Prepared(r, o).flows[Slot(r, o)], o))
    ensures Extends(r, Observed(r, o))
  {
    hide FlowOk, Joined, Prepared;
    var prepared := Prepared(r, o);
    forall i | 0 <= i < |r.flows|
      ensures Grows(r.flows[i], Observed(r, o).flows[i])
    {
      assert prepared.flows[..|r.flows|][i] == r.flows[i];
    }
  }

  // ---------------------------------------------------------------- runs

  /** The registry after a whole session of observations. */
  function Run(session: seq<Observation>): (r: Registry)
    ensures Indexed(r)
  {
    if session == [] then EMPTY
    else Observed(Run(session[..|session| - 1]), session[|session| - 1])
  }

  lemma {:induction false} RunWellFormed(session: seq<Observation>)
    ensures WellFormed(Run(session))
  {
    if session != [] {
      RunWellFormed(session[..|session| - 1]);
      ObservedWellFormed(Run(session[..|session| - 1]), session[|session| - 1]);
    }
  }

  lemma GrowsThrough(a: Flow, b: Flow, c: Flow)
    requires Grows(a, b) && Grows(b, c)
    ensures Grows(a, c)
  {
  }

  /** Everything the registry ever recorded it still records at the end of the session. */
  lemma {:induction false} RunExtends(session: seq<Observation>, n: nat)
    requires n <= |session|
    ensures Extends(Run(session[..n]), Run(session))
  {
    if n == |session| {
      assert session[..n] == session;
      hide *;
      ExtendsItself(Run(session));
    } else {
      var last := |session| - 1;
      assert session[..last][..n] == session[..n] && session == session[..last] + [session[last]];
      assert session[..last + 1] == session;
      hide *;
      RunExtends(session[..last], n);
      RunStep(session, last);
      RunWellFormed(session[..last]);
      ObservedWellFormed(Run(session[..last]), session[last]);
      ExtendsThrough(Run(session[..n]), Run(session[..last]), Run(session));
    }
  }

  lemma ExtendsItself(r: Registry)
    ensures Extends(r, r)
  {
  }

  lemma ExtendsThrough(a: Registry, b: Registry, c: Registry)
    requires Extends(a, b) && Extends(b, c)
    ensures Extends(a, c)
  {
    hide Grows;
    forall i | 0 <= i < |a.flows|
      ensures Grows(a.flows[i], c.flows[i])
    {
      GrowsThrough(a.flows[i], b.flows[i], c.flows[i]);
    }
  }

  // ---------------------------------------------------------------- generations are exact

  /** Flow IDs are unique within a session and never reused later in it. */
  lemma FlowIdsUnique(session: seq<Observation>, n: nat, i: nat, j: nat)
    requires n <= |session| && i < |Run(session[..n]).flows| && j < |Run(session).flows|
    ensures Run(session[..n]).flows[i].id == Run(session).flows[j].id <==> i == j
  {
    hide *;
    RunWellFormed(session[..n]);
    RunWellFormed(session);
    IdAt(Run(session[..n]), i);
    IdAt(Run(session), j);
    if FlowId(i + 1) == FlowId(j + 1) {
      FlowIdInjective(i + 1, j + 1);
    }
  }

  lemma IdAt(r: Registry, i: nat)
    requires WellFormed(r) && i < |r.flows|
    ensures r.flows[i].id == FlowId(i + 1)
  {
    hide FlowOk;
  }

  lemma FlowIdInjective(m: nat, n: nat)
    requires FlowId(m) == FlowId(n)
    ensures m == n
  {
    assert Text.Padded(m, 6) == FlowId(m)[5..] && Text.Padded(n, 6) == FlowId(n)[5..];
    Text.PaddedInjective(m, n, 6);
  }

  /** A logical ID, once bound, is answered with the same flow ID forever. */
  lemma LogicalIdBoundForever(session: seq<Observation>, n: nat, o: Observation)
    requires n <= |session| && o.logicalId.Some? && o.facts.Some? && o.facts.value.protocol != OtherProtocol
    requires o.logicalId.value in Run(session[..n]).logicalToFlow
    ensures Answer(Run(session[..n]), o).Some?
    ensures Answer(Run(session), o) == Answer(Run(session[..n]), o)
    ensures Observed(Run(session), o) == Run(session)
  {
    hide *;
    RunExtends(session, n);
    AnswerStable(Run(session[..n]), Run(session), o);
  }

  lemma AnswerStable(r: Registry, r': Registry, o: Observation)
    requires Indexed(r) && Indexed(r') && Extends(r, r')
    requires o.logicalId.Some? && o.facts.Some? && o.facts.value.protocol != OtherProtocol
    requires o.logicalId.value in r.logicalToFlow
    ensures Answer(r, o).Some? && Answer(r', o) == Answer(r, o) && Observed(r', o) == r'
  {
  }

  /** The flow that the i-th observation was registered to. */
  function FlowAt(session: seq<Observation>, i: nat): nat
    requires i < |session| && session[i].facts.Some?
  {
    Slot(Run(session[..i]), session[i])
  }

  ghost predicate RegistersAt(session: seq<Observation>, i: nat) {
    i < |session| && Registers(Run(session[..i]), session[i])
  }

  lemma StepAt(session: seq<Observation>, i: nat)
    requires i < |session|
    ensures Run(session[..i + 1]) == Observed(Run(session[..i]), session[i])
    ensures WellFormed(Run(session[..i]))
    ensures Extends(Run(session[..i + 1]), Run(session))
  {
    hide *;
    RunStep(session, i);
    RunWellFormed(session[..i]);
    RunExtends(session, i + 1);
  }

  lemma RunStep(session: seq<Observation>, i: nat)
    requires i < |session|
    ensures Run(session[..i + 1]) == Observed(Run(session[..i]), session[i])
  {
    hide Observed, Indexed;
    assert session[..i + 1][..i] == session[..i];
  }

  /** What registering one packet leaves in its flow. */
  lemma RegisteredFacts(r: Registry, o: Observation)
    requires WellFormed(r) && Registers(r, o)
    ensures Slot(r, o) < |Observed(r, o).flows|
    ensures var facts := o.facts.value; var flow := Observed(r, o).flows[Slot(r, o)];
            && flow.Key() == KeyOf(facts)
            && facts.Orient() in flow.directions
            && (IsSyn(facts) ==> facts.Orient() in flow.synNumbers
                                 && flow.synNumbers[facts.Orient()] == Residue(facts.seqno))
            && (facts.protocol.TCP? && (facts.flags.fin || facts.flags.rst) ==> flow.closed)
            && (o.timestamp.Some? ==>
                  && flow.startedAt.Some? && flow.startedAt.value <= o.timestamp.value
                  && flow.endedAt.Some? && o.timestamp.value <= flow.endedAt.value)
  {
    PreparedWellFormed(r, o);
    JoinedOk(Prepared(r, o).flows[Slot(r, o)], o);
    hide FlowOk;
  }

  /** Whatever a packet registered stays in its flow to the end of the session: its orientation, its
      SYN number, its closing flag, and a lifetime that contains its timestamp. */
  lemma RegistrationLasts(session: seq<Observation>, i: nat)
    requires RegistersAt(session, i)
    ensures FlowAt(session, i) < |Run(session).flows|
    ensures var facts := session[i].facts.value; var flow := Run(session).flows[FlowAt(session, i)];
            && flow.Key() == KeyOf(facts)
            && facts.Orient() in flow.directions
            && (IsSyn(facts) ==> facts.Orient() in flow.synNumbers
                                 && flow.synNumbers[facts.Orient()] == Residue(facts.seqno))
            && (facts.protocol.TCP? && (facts.flags.fin || facts.flags.rst) ==> flow.closed)
            && (session[i].timestamp.Some? ==>
                  && flow.startedAt.Some? && flow.startedAt.value <= session[i].timestamp.value
                  && flow.endedAt.Some? && session[i].timestamp.value <= flow.endedAt.value)
  {
    StepAt(session, i);
    RegisteredFacts(Run(session[..i]), session[i]);
    var r', end := Run(session[..i + 1]), Run(session);
    hide WellFormed, Run;
    assert Grows(r'.flows[FlowAt(session, i)], end.flows[FlowAt(session, i)]);
  }

  /** Two registered SYNs of one orientation in one flow carry the same initial sequence number. */
  lemma OneSynNumberPerOrientation(session: seq<Observation>, i: nat, j: nat)
    requires RegistersAt(session, i) && RegistersAt(session, j)
    requires IsSyn(session[i].facts.value) && IsSyn(session[j].facts.value)
    requires FlowAt(session, i) == FlowAt(session, j)
    requires session[i].facts.value.Orient() == session[j].facts.value.Orient()
    ensures Residue(session[i].facts.value.seqno) == Residue(session[j].facts.value.seqno)
  {
    RegistrationLasts(session, i);
    RegistrationLasts(session, j);
  }

  /** The flow a packet is registered to is new if and only if its key was never seen, or it is a SYN
      after a close, or a SYN whose number contradicts the one of its orientation; so no SYN joins a
      closed generation, and nothing but a SYN ever starts a second one. */
  lemma GenerationExact(session: seq<Observation>, i: nat)
    requires RegistersAt(session, i)
    ensures var r := Run(session[..i]); var facts := session[i].facts.value; var place := FlowAt(session, i);
            && (place < |r.flows| ==>
                  && Latest(r.flows, KeyOf(facts), place)
                  && (IsSyn(facts) ==> !r.flows[place].closed)
                  && (IsSyn(facts) && facts.Orient() in r.flows[place].synNumbers ==>
                        r.flows[place].synNumbers[facts.Orient()] == Residue(facts.seqno)))
            && (place >= |r.flows| ==>
                  && place == |r.flows|
                  && forall k: nat :: Latest(r.flows, KeyOf(facts), k) ==>
                       && IsSyn(facts)
                       && (r.flows[k].closed || (facts.Orient() in r.flows[k].synNumbers
                            && r.flows[k].synNumbers[facts.Orient()] != Residue(facts.seqno))))
  {
    RunWellFormed(session[..i]);
    var r := Run(session[..i]);
    var key := KeyOf(session[i].facts.value);
    hide Run, FlowOk;
    if key in r.byKey {
      assert Latest(r.flows, key, r.byKey[key]);
      assert forall k: nat :: Latest(r.flows, key, k) ==> k == r.byKey[key];
    } else {
      assert forall k :: 0 <= k < |r.flows| ==> r.flows[k].Key() != key;
    }
  }

  /** UDP keeps one flow per canonical key. */
  lemma UdpFlowPerKey(session: seq<Observation>, i: nat, j: nat)
    requires RegistersAt(session, i) && RegistersAt(session, j)
    requires session[i].facts.value.protocol.UDP?
    ensures FlowAt(session, i) == FlowAt(session, j) <==> KeyOf(session[i].facts.value) == KeyOf(session[j].facts.value)
  {
    RegistrationLasts(session, i);
    RegistrationLasts(session, j);
    RunWellFormed(session);
    var r := Run(session);
    hide Run, FlowOk;
    var a, b := FlowAt(session, i), FlowAt(session, j);
    assert r.flows[a].protocol == r.flows[a].Key().protocol;
    assert r.flows[b].protocol == r.flows[b].Key().protocol;
  }

  // ---------------------------------------------------------------- sequence spaces stay separate

  lemma {:induction false} DirectionOfFlow(flows: seq<Flow>, place: nat, o: Orientation)
    requires place < |flows|
    requires forall i :: 0 <= i < place ==> flows[i].id != flows[place].id
    ensures DirectionIn(flows, flows[place].id, o)
         == if o in flows[place].directions then flows[place].directions[o] else Unknown
  {
    if place > 0 {
      assert flows[0].id != flows[place].id;
      forall i | 0 <= i < place - 1
        ensures flows[1..][i].id != flows[1..][place - 1].id
      {
        assert flows[i + 1].id != flows[place].id;
      }
      DirectionOfFlow(flows[1..], place - 1, o);
    }
  }

  lemma AnsweredDirection(session: seq<Observation>, place: nat, o: Orientation)
    requires place < |Run(session).flows|
    ensures DirectionIn(Run(session).flows, Run(session).flows[place].id, o)
         == if o in Run(session).flows[place].directions then Run(session).flows[place].directions[o] else Unknown
  {
    assert session[..|session|] == session;
    forall i | 0 <= i < place
      ensures Run(session).flows[i].id != Run(session).flows[place].id
    {
      FlowIdsUnique(session, |session|, i, place);
    }
    DirectionOfFlow(Run(session).flows, place, o);
  }

  /** Two packets registered to one flow and answered with the same known direction have the same
      orientation, provided both orientations of that flow are known. */
  lemma SequenceSpacesSeparate(session: seq<Observation>, i: nat, j: nat)
    requires RegistersAt(session, i) && RegistersAt(session, j)
    requires FlowAt(session, i) == FlowAt(session, j)
    ensures FlowAt(session, i) < |Run(session).flows|
    ensures var id := Run(session).flows[FlowAt(session, i)].id;
            var a, b := session[i].facts.value.Orient(), session[j].facts.value.Orient();
            var d, e := DirectionIn(Run(session).flows, id, a), DirectionIn(Run(session).flows, id, b);
            d != Unknown && e != Unknown ==> (d == e <==> a == b)
  {
    RegistrationLasts(session, i);
    RegistrationLasts(session, j);
    RunWellFormed(session);
    var place := FlowAt(session, i);
    var a, b := session[i].facts.value.Orient(), session[j].facts.value.Orient();
    AnsweredDirection(session, place, a);
    AnsweredDirection(session, place, b);
    var flow := Run(session).flows[place];
    assert FlowOk(flow);
    hide Run;
    assert a == b || a == b.Reverse();
  }

  /** A flow whose first packet had a known origin, in particular one opened by a bare SYN, knows the
      direction of every orientation it ever sees. */
  lemma KnownOriginKnowsAll(session: seq<Observation>, i: nat, j: nat)
    requires RegistersAt(session, i) && RegistersAt(session, j)
    requires FlowAt(session, i) == FlowAt(session, j) == |Run(session[..i]).flows|
    requires OriginDirection(session[i].facts.value, session[i].direction) != Unknown
    ensures FlowAt(session, i) < |Run(session).flows|
    ensures DirectionIn(Run(session).flows, Run(session).flows[FlowAt(session, i)].id,
                        session[j].facts.value.Orient()) != Unknown
  {
    StepAt(session, i);
    RegistrationLasts(session, j);
    RunWellFormed(session);
    RegisteredFacts(Run(session[..i]), session[i]);
    var place := FlowAt(session, i);
    AnsweredDirection(session, place, session[j].facts.value.Orient());
    var r', end := Run(session[..i + 1]), Run(session);
    OpenedDirection(Run(session[..i]), session[i]);
    assert Grows(r'.flows[place], end.flows[place]);
    assert FlowOk(end.flows[place]);
  }

  lemma OpenedDirection(r: Registry, o: Observation)
    requires WellFormed(r) && Registers(r, o) && Slot(r, o) == |r.flows|
    ensures |r.flows| < |Observed(r, o).flows|
    ensures var flow := Observed(r, o).flows[|r.flows|];
            && flow.Opening() in flow.directions
            && flow.directions[flow.Opening()] == OriginDirection(o.facts.value, o.direction)
  {
    hide FlowOk;
  }
}
