/** Flow ownership and connection generations over a capture session. */
module FlowRegistry {
  import opened Outcomes
  import opened TcpSegments
  import opened Packets
  import Text

  // ---------------------------------------------------------------- keys

  predicate EndpointLess(a: Endpoint, b: Endpoint) {
    Text.Less(a.ip, b.ip) || (a.ip == b.ip && a.port < b.port)
  }

  datatype FlowKey = FlowKey(protocol: Protocol, low: Endpoint, high: Endpoint, version: int)

  /** min/max of the two endpoints: both orientations share one key. */
  function CanonicalKey(protocol: Protocol, version: int, o: Orientation): FlowKey {
    FlowKey(protocol,
            if EndpointLess(o.destination, o.source) then o.destination else o.source,
            if EndpointLess(o.source, o.destination) then o.destination else o.source,
            version)
  }

  lemma EndpointOrder(a: Endpoint, b: Endpoint)
    ensures a == b || EndpointLess(a, b) || EndpointLess(b, a)
    ensures EndpointLess(a, b) ==> !EndpointLess(b, a) && a != b
  {
    Text.LessTotal(a.ip, b.ip);
    if Text.Less(a.ip, b.ip) {
      Text.LessAsymmetric(a.ip, b.ip);
    }
    if Text.Less(b.ip, a.ip) {
      Text.LessAsymmetric(b.ip, a.ip);
    }
  }

  /** A key stands for exactly the two orientations of one endpoint pair. */
  lemma KeySeparates(protocol: Protocol, version: int, o: Orientation, protocol': Protocol, version': int,
                     o': Orientation)
    ensures CanonicalKey(protocol, version, o) == CanonicalKey(protocol', version', o')
       <==> protocol == protocol' && version == version' && (o == o' || o == o'.Reverse())
  {
    EndpointOrder(o.source, o.destination);
    EndpointOrder(o'.source, o'.destination);
    EndpointOrder(o.destination, o.source);
    EndpointOrder(o'.destination, o'.source);
  }

  // ---------------------------------------------------------------- state

  datatype Flow = Flow(
    id: string, protocol: Protocol, version: int, source: Endpoint, destination: Endpoint,
    startedAt: Option<real>, endedAt: Option<real>, closed: bool,
    directions: map<Orientation, Direction>, synNumbers: map<Orientation, int>, logicalIds: set<string>)
  {
    function Opening(): Orientation {
      Orientation(source, destination)
    }

    function Key(): FlowKey {
      CanonicalKey(protocol, version, Opening())
    }
  }

  /** `byKey` and `logicalToFlow` name flows by their place in `flows`. */
  datatype Registry = Registry(nextId: nat, flows: seq<Flow>, byKey: map<FlowKey, nat>, logicalToFlow: map<string, nat>)

  const EMPTY := Registry(1, [], map[], map[])

  /** One call of observe_packet; no facts means that the packet did not parse. */
  datatype Observation = Observation(facts: Option<Facts>, direction: Direction, timestamp: Option<real>,
                                     logicalId: Option<string>)

  function FlowId(n: nat): string {
    "flow-" + Text.Padded(n, 6)
  }

  function KeyOf(facts: Facts): FlowKey {
    CanonicalKey(facts.protocol, facts.version, facts.Orient())
  }

  predicate IsSyn(facts: Facts) {
    facts.protocol.TCP? && facts.flags.syn
  }

  /** A bare SYN identifies the initiator, whose side is outbound. */
  function OriginDirection(facts: Facts, direction: Direction): Direction {
    if direction.Unknown? && IsSyn(facts) && !facts.flags.ack then Outbound else direction
  }

  /** Bound to no earlier flow and carrying a transport the registry tracks. */
  predicate Registers(r: Registry, o: Observation) {
    && o.facts.Some? && !o.facts.value.protocol.OtherProtocol?
    && (o.logicalId.Some? ==> o.logicalId.value !in r.logicalToFlow)
  }

  ghost predicate Indexed(r: Registry) {
    && (forall k :: k in r.byKey ==> r.byKey[k] < |r.flows|)
    && (forall l :: l in r.logicalToFlow ==> r.logicalToFlow[l] < |r.flows|)
  }

  /** A SYN that cannot belong to the current generation, or a first packet of its key. */
  predicate OpensFlow(r: Registry, facts: Facts)
    requires KeyOf(facts) in r.byKey ==> r.byKey[KeyOf(facts)] < |r.flows|
  {
    KeyOf(facts) in r.byKey ==>
      && IsSyn(facts)
      && var flow := r.flows[r.byKey[KeyOf(facts)]];
         flow.closed || (facts.Orient() in flow.synNumbers && flow.synNumbers[facts.Orient()] != Residue(facts.seqno))
  }

  function NewFlow(id: string, facts: Facts, timestamp: Option<real>, direction: Direction): Flow {
    Flow(id, facts.protocol, facts.version, facts.source, facts.destination, timestamp, timestamp, false,
         map[facts.Orient() := direction],
         if IsSyn(facts) then map[facts.Orient() := Residue(facts.seqno)] else map[], {})
  }

  /** The direction given to an orientation when it is first seen on a flow. */
  function FirstDirection(flow: Flow, o: Orientation, origin: Direction): Direction {
    if o.Reverse() !in flow.directions then origin
    else match flow.directions[o.Reverse()]
      case Outbound => Inbound
      case Inbound => Outbound
      case Unknown => origin
  }

  function Earlier(a: Option<real>, t: real): Option<real> {
    if a.None? || t < a.value then Some(t) else a
  }

  function Later(a: Option<real>, t: real): Option<real> {
    if a.None? || a.value < t then Some(t) else a
  }

  /** The flow after one more packet is registered to it. */
  function Joined(flow: Flow, o: Observation): Flow
    requires o.facts.Some?
  {
    var facts := o.facts.value;
    var orientation := facts.Orient();
    flow.(
      directions := if orientation in flow.directions then flow.directions
                    else flow.directions[orientation :=
                           FirstDirection(flow, orientation, OriginDirection(facts, o.direction))],
      synNumbers := if IsSyn(facts) && orientation !in flow.synNumbers
                    then flow.synNumbers[orientation := Residue(facts.seqno)] else flow.synNumbers,
      startedAt := if o.timestamp.Some? then Earlier(flow.startedAt, o.timestamp.value) else flow.startedAt,
      endedAt := if o.timestamp.Some? then Later(flow.endedAt, o.timestamp.value) else flow.endedAt,
      logicalIds := if o.logicalId.Some? then flow.logicalIds + {o.logicalId.value} else flow.logicalIds,
      closed := flow.closed || (facts.protocol.TCP? && (facts.flags.fin || facts.flags.rst)))
  }

  /** The registry with a place for the packet: opened when the packet starts a flow. */
  function Prepared(r: Registry, o: Observation): (r': Registry)
    requires Indexed(r) && o.facts.Some?
    ensures KeyOf(o.facts.value) in r'.byKey && r'.byKey[KeyOf(o.facts.value)] < |r'.flows|
  {
    var facts := o.facts.value;
    if OpensFlow(r, facts) then
      Registry(r.nextId + 1,
               r.flows + [NewFlow(FlowId(r.nextId), facts, o.timestamp, OriginDirection(facts, o.direction))],
               r.byKey[KeyOf(facts) := |r.flows|], r.logicalToFlow)
    else r
  }

  /** The flow a registering packet ends up in. */
  function Slot(r: Registry, o: Observation): nat
    requires Indexed(r) && o.facts.Some?
  {
    Prepared(r, o).byKey[KeyOf(o.facts.value)]
  }

  function Observed(r: Registry, o: Observation): (r': Registry)
    requires Indexed(r)
    ensures Indexed(r')
  {
    if !Registers(r, o) then r
    else
      var prepared := Prepared(r, o);
      var place := Slot(r, o);
      prepared.(flows := prepared.flows[place := Joined(prepared.flows[place], o)],
                logicalToFlow := if o.logicalId.Some? then r.logicalToFlow[o.logicalId.value := place]
                                 else r.logicalToFlow)
  }

  /** The flow ID handed back to the caller. */
  function Answer(r: Registry, o: Observation): Option<string>
    requires Indexed(r)
  {
    if o.facts.None? || o.facts.value.protocol.OtherProtocol? then None
    else if !Registers(r, o) then Some(r.flows[r.logicalToFlow[o.logicalId.value]].id)
    else Some(Observed(r, o).flows[Slot(r, o)].id)
  }

  // ---------------------------------------------------------------- the mutable registry

  class SessionFlowRegistry {
    var nextId: nat
    var flows: seq<Flow>
    var byKey: map<FlowKey, nat>
    var logicalToFlow: map<string, nat>

    ghost function State(): Registry
      reads this
    {
      Registry(nextId, flows, byKey, logicalToFlow)
    }

    constructor ()
      ensures State() == EMPTY
    {
      nextId, flows, byKey, logicalToFlow := 1, [], map[], map[];
    }

    method Allocate(facts: Facts, timestamp: Option<real>, direction: Direction) returns (place: nat)
      modifies this
      ensures place == old(|flows|)
      ensures nextId == old(nextId) + 1 && logicalToFlow == old(logicalToFlow)
      ensures flows == old(flows) + [NewFlow(FlowId(old(nextId)), facts, timestamp, direction)]
      ensures byKey == old(byKey)[KeyOf(facts) := place]
    {
      var id := FlowId(nextId);
      nextId := nextId + 1;
      place := |flows|;
      flows := flows + [NewFlow(id, facts, timestamp, direction)];
      byKey := byKey[KeyOf(facts) := place];
    }

    method ObservePacket(o: Observation) returns (id: Option<string>)
      requires Indexed(State())
      modifies this
      ensures State() == Observed(old(State()), o)
      ensures id == Answer(old(State()), o)
    {
      if o.facts.None? || o.facts.value.protocol.OtherProtocol? {
        return None;
      }
      var facts := o.facts.value;
      if o.logicalId.Some? && o.logicalId.value in logicalToFlow {
        return Some(flows[logicalToFlow[o.logicalId.value]].id);
      }
      var place := Select(o);
      var flow := Join(flows[place], o);
      if o.logicalId.Some? {
        logicalToFlow := logicalToFlow[o.logicalId.value := place];
      }
      flows := flows[place := flow];
      return Some(flow.id);
    }

    /** Finds the current generation of the packet's key, or allocates a new one. */
    method Select(o: Observation) returns (place: nat)
      requires Indexed(State()) && o.facts.Some?
      modifies this
      ensures State() == Prepared(old(State()), o) && place == Slot(old(State()), o)
      ensures place < |flows|
    {
      var facts := o.facts.value;
      var key, orientation := KeyOf(facts), facts.Orient();
      var syn := facts.protocol.TCP? && facts.flags.syn;
      var known := key in byKey;
      var newSynGeneration :=
        known && syn && orientation in flows[byKey[key]].synNumbers
        && flows[byKey[key]].synNumbers[orientation] != Residue(facts.seqno);
      var origin := o.direction;
      if origin.Unknown? && syn && !facts.flags.ack {
        origin := Outbound;
      }
      if !known || (facts.protocol.TCP? && flows[byKey[key]].closed && syn) || newSynGeneration {
        place := Allocate(facts, o.timestamp, origin);
      } else {
        place := byKey[key];
      }
    }

    /** The updates a registered packet makes to its flow. */
    method Join(before: Flow, o: Observation) returns (flow: Flow)
      requires o.facts.Some?
      ensures flow == Joined(before, o)
    {
      var facts := o.facts.value;
      var orientation := facts.Orient();
      var directions := before.directions;
      if orientation !in directions {
        directions := directions[orientation :=
          FirstDirection(before, orientation, OriginDirection(facts, o.direction))];
      }
      var synNumbers := before.synNumbers;
      if IsSyn(facts) && orientation !in synNumbers {
        synNumbers := synNumbers[orientation := Residue(facts.seqno)];
      }
      var startedAt, endedAt := before.startedAt, before.endedAt;
      if o.timestamp.Some? {
        var t := o.timestamp.value;
        if startedAt.None? || t < startedAt.value {
          startedAt := Some(t);
        }
        if endedAt.None? || t > endedAt.value {
          endedAt := Some(t);
        }
      }
      var logicalIds := before.logicalIds;
      if o.logicalId.Some? {
        logicalIds := logicalIds + {o.logicalId.value};
      }
      var closing := facts.protocol.TCP? && (facts.flags.fin || facts.flags.rst);
      flow := before.(directions := directions, synNumbers := synNumbers, startedAt := startedAt,
                      endedAt := endedAt, logicalIds := logicalIds, closed := before.closed || closing);
    }

    method DirectionFor(id: string, o: Orientation) returns (direction: Direction)
      ensures direction == DirectionIn(flows, id, o)
    {
      for i := 0 to |flows|
        invariant DirectionIn(flows, id, o) == DirectionIn(flows[i..], id, o)
      {
        if flows[i].id == id {
          return if o in flows[i].directions then flows[i].directions[o] else Unknown;
        }
        assert flows[i..][1..] == flows[i + 1..];
      }
      return Unknown;
    }
  }

  /** What direction_for answers: the first flow with the ID, and the direction it recorded. */
  function DirectionIn(flows: seq<Flow>, id: string, o: Orientation): Direction {
    if flows == [] then Unknown
    else if flows[0].id == id then (if o in flows[0].directions then flows[0].directions[o] else Unknown)
    else DirectionIn(flows[1..], id, o)
  }
}
