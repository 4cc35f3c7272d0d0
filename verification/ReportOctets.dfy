/** Which gathered octets a report holds: all of those that belong to flows modelled with their own protocol. */
module ReportOctets {
  import opened Outcomes
  import opened TcpSegments
  import opened TcpStreams
  import opened Packets
  import opened Keepalive
  import opened FlowRegistry
  import opened ReportModel
  import opened ReportFacts
  import opened ReportTracking
  import opened ReportBuilder
  import opened ReportTheorems

  // ---------------------------------------------------------------- distinct octets of a segment list

  function Interval(lo: int, n: nat): set<int> {
    if n == 0 then {} else Interval(lo, n - 1) + {lo + n - 1}
  }

  function Positions(segments: seq<Segment>): set<int> {
    if segments == [] then {}
    else Interval(segments[0].start, |segments[0].payload|) + Positions(segments[1..])
  }

  /** Each position counts once, however often it was sent. */
  function DistinctOctets(segments: seq<Segment>): nat {
    |Positions(segments)|
  }

  lemma {:induction false} IntervalHolds(lo: int, n: nat, p: int)
    ensures p in Interval(lo, n) <==> lo <= p < lo + n
  {
    if n > 0 {
      IntervalHolds(lo, n - 1, p);
    }
  }

  lemma {:induction false} IntervalSize(lo: int, n: nat)
    ensures |Interval(lo, n)| == n
  {
    if n > 0 {
      IntervalSize(lo, n - 1);
      IntervalHolds(lo, n - 1, lo + n - 1);
    }
  }

  lemma {:induction false} PositionsCovered(segments: seq<Segment>, p: int)
    ensures p in Positions(segments) <==> Covered(segments, p)
  {
    if segments != [] {
      var s, rest := segments[0], segments[1..];
      IntervalHolds(s.start, |s.payload|, p);
      PositionsCovered(rest, p);
      hide Interval;
      assert segments == [s] + rest;
      if Covered(rest, p) {
        var t :| t in rest && t.Holds(p);
        assert t in segments;
      }
      if s.Holds(p) {
        assert s in segments;
      }
    }
  }

  lemma NoneDistinct(segments: seq<Segment>)
    ensures DistinctOctets(segments) == 0 <==> !AnyData(segments)
  {
    if AnyData(segments) {
      var s :| s in segments && HasData(s);
      assert s.Holds(s.start);
      PositionsCovered(segments, s.start);
    }
    forall p | p in Positions(segments)
      ensures AnyData(segments)
    {
      PositionsCovered(segments, p);
      var s :| s in segments && s.Holds(p);
      assert HasData(s);
    }
  }

  /** An assembly holds every distinct octet of its segments once. */
  lemma RenderedOctets(segments: seq<Segment>, a: Assembled)
    requires Assemblable(segments) && Renders(segments, a)
    ensures |a.payload| == DistinctOctets(segments)
  {
    if AnyData(segments) {
      var lo := a.cursor.value - |a.payload|;
      assert IsFirstStart(segments, lo) && IsLastEnd(segments, a.cursor.value);
      hide Renders, Agree, FinsReached, Positions, Covered, Interval;
      forall p
        ensures p in Positions(segments) <==> p in Interval(lo, |a.payload|)
      {
        PositionsCovered(segments, p);
        InsideIsCovered(segments, lo, a.cursor.value, p);
        IntervalHolds(lo, |a.payload|, p);
      }
      assert Positions(segments) == Interval(lo, |a.payload|);
      IntervalSize(lo, |a.payload|);
    } else {
      NoneDistinct(segments);
    }
  }

  lemma InsideIsCovered(segments: seq<Segment>, lo: int, hi: int, p: int)
    requires Contiguous(segments) && IsFirstStart(segments, lo) && IsLastEnd(segments, hi)
    ensures Covered(segments, p) <==> lo <= p < hi
  {
    if lo <= p < hi {
      var s := CoveredInside(segments, lo, hi, p);
    }
    if Covered(segments, p) {
      var s :| s in segments && s.Holds(p);
      assert HasData(s);
    }
  }

  // ---------------------------------------------------------------- one direction

  /** The direction's Base64 text holds each of these segments at its position, and nothing else. */
  ghost predicate ReportsSegments(codec: Codec, m: DirectionModel, segments: seq<Segment>) {
    exists a :: Renders(segments, a) && codec.decode(m.base64) == Some(a.payload)
  }

  /** By coincidence the UDP payloads of the direction spell what its TCP segments hold. */
  ghost predicate Spelt(segments: seq<Segment>, datagrams: seq<Routed>) {
    exists a :: Renders(segments, a) && a.payload == Concatenated(datagrams)
  }

  /** The protocol a flow is modelled with decides which of its packets its directions tell: the assembled
      segments, each distinct octet once, or the datagrams alone. So the kept TCP data of a direction is in
      the report at its position if and only if the flow is modelled as TCP, coincidence apart. */
  lemma TcpDataTold(codec: Codec, report: Report, routed: seq<Routed>, known: map<string, Protocol>,
                    registered: seq<Flow>, i: nat, j: nat)
    requires codec.Lossless() && ReportTold(codec, report, routed, known, registered)
    requires i < |report.flows| && j < |report.flows[i].directions| && FlowSeen(routed, report.flows[i].id)
    ensures var id, m := report.flows[i].id, report.flows[i].directions[j];
            var segments := Normalized(Kept(routed, id, m.direction));
            var datagrams := Datagrams(routed, id, m.direction);
            && (ReportsSegments(codec, m, segments) <==> ToldAsTcp(known, routed, id) || Spelt(segments, datagrams))
            && (ToldAsTcp(known, routed, id) ==> m.bytes == DistinctOctets(segments))
            && (!ToldAsTcp(known, routed, id) ==>
                  codec.decode(m.base64) == Some(Concatenated(datagrams)) && m.bytes == |Concatenated(datagrams)|)
  {
    var flow := report.flows[i];
    var m := flow.directions[j];
    assert ProtocolTold(known, routed, flow);
    assert FlowTold(codec, flow, routed) && DirectionTold(codec, flow.protocol, m, routed, flow.id);
    hide ReportTold, FlowTold, Reflects, Renders, Assemblable, Normalized, Kept, DatagramTold, Concatenated,
        DistinctOctets;
    var segments := Normalized(Kept(routed, flow.id, m.direction));
    if flow.protocol.TCP? {
      var a :| IsAssembly(segments, Ok(a)) && Encodes(codec, m, a.payload);
      RenderedOctets(segments, a);
      assert Renders(segments, a) && codec.decode(m.base64) == Some(a.payload);
    } else {
      assert Encodes(codec, m, Concatenated(Datagrams(routed, flow.id, m.direction)));
    }
  }

  // ---------------------------------------------------------------- the whole report

  /** The byte counts of all directions of all flows modelled as TCP. */
  function ReportedTcpOctets(flows: seq<FlowModel>): int {
    if flows == [] then 0
    else
      var flow := flows[|flows| - 1];
      ReportedTcpOctets(flows[..|flows| - 1]) + if flow.protocol.TCP? then OctetsOfDirections(flow.directions) else 0
  }

  function GatheredInDirections(routed: seq<Routed>, flowId: string, directions: seq<DirectionModel>): int {
    if directions == [] then 0
    else
      var n := |directions| - 1;
      GatheredInDirections(routed, flowId, directions[..n])
      + DistinctOctets(Normalized(Kept(routed, flowId, directions[n].direction)))
  }

  /** The distinct TCP octets gathered for the directions of these flows, whatever they are modelled as. */
  function GatheredTcpOctets(routed: seq<Routed>, flows: seq<FlowModel>): int {
    if flows == [] then 0
    else
      var flow := flows[|flows| - 1];
      GatheredTcpOctets(routed, flows[..|flows| - 1]) + GatheredInDirections(routed, flow.id, flow.directions)
  }

  lemma {:induction false} GatheredSign(routed: seq<Routed>, flowId: string, directions: seq<DirectionModel>)
    ensures 0 <= GatheredInDirections(routed, flowId, directions)
    ensures GatheredInDirections(routed, flowId, directions) == 0
       <==> forall j :: 0 <= j < |directions| ==> !AnyData(Kept(routed, flowId, directions[j].direction))
  {
    hide Normalized, DistinctOctets, AnyData, Kept;
    if directions != [] {
      var n := |directions| - 1;
      GatheredSign(routed, flowId, directions[..n]);
      NoneDistinct(Normalized(Kept(routed, flowId, directions[n].direction)));
      NormalizedData(Kept(routed, flowId, directions[n].direction));
    }
  }

  lemma NormalizedData(segments: seq<Segment>)
    ensures AnyData(Normalized(segments)) <==> AnyData(segments)
  {
    var normalized := Normalized(segments);
    if AnyData(segments) {
      var s :| s in segments && HasData(s);
      var i :| 0 <= i < |segments| && segments[i] == s;
      assert normalized[i] in normalized;
    }
    if AnyData(normalized) {
      var s :| s in normalized && HasData(s);
      var i :| 0 <= i < |normalized| && normalized[i] == s;
      assert segments[i] in segments;
    }
  }

  lemma {:induction false} ToldTcpDirections(codec: Codec, flow: FlowModel, directions: seq<DirectionModel>,
                                             routed: seq<Routed>)
    requires flow.protocol.TCP?
    requires forall j :: 0 <= j < |directions| ==> DirectionTold(codec, flow.protocol, directions[j], routed, flow.id)
    ensures OctetsOfDirections(directions) == GatheredInDirections(routed, flow.id, directions)
  {
    hide *;
    SumsSplit(routed, flow.id, directions);
    if directions != [] {
      var n := |directions| - 1;
      TcpBytes(codec, flow, directions[n], routed);
      ToldTcpDirections(codec, flow, directions[..n], routed);
    }
  }

  lemma SumsSplit(routed: seq<Routed>, flowId: string, directions: seq<DirectionModel>)
    ensures directions == [] ==>
              OctetsOfDirections(directions) == 0 && GatheredInDirections(routed, flowId, directions) == 0
    ensures directions != [] ==>
              var n := |directions| - 1;
              && OctetsOfDirections(directions) == OctetsOfDirections(directions[..n]) + directions[n].bytes
              && GatheredInDirections(routed, flowId, directions)
                 == GatheredInDirections(routed, flowId, directions[..n])
                    + DistinctOctets(Normalized(Kept(routed, flowId, directions[n].direction)))
  {
    hide DistinctOctets, Normalized, Kept;
  }

  lemma TcpBytes(codec: Codec, flow: FlowModel, m: DirectionModel, routed: seq<Routed>)
    requires flow.protocol.TCP? && DirectionTold(codec, flow.protocol, m, routed, flow.id)
    ensures m.bytes == DistinctOctets(Normalized(Kept(routed, flow.id, m.direction)))
  {
    hide Reflects, Renders, Assemblable, Normalized, Kept, DistinctOctets;
    var segments := Normalized(Kept(routed, flow.id, m.direction));
    var a :| IsAssembly(segments, Ok(a)) && Encodes(codec, m, a.payload);
    RenderedOctets(segments, a);
  }

  /** The flows modelled as something else whose directions gathered TCP data. */
  ghost predicate Drops(routed: seq<Routed>, flow: FlowModel) {
    !flow.protocol.TCP? && exists j :: 0 <= j < |flow.directions|
                                       && AnyData(Kept(routed, flow.id, flow.directions[j].direction))
  }

  lemma {:induction false} ReportedOrDropped(codec: Codec, flows: seq<FlowModel>, routed: seq<Routed>)
    requires forall i :: 0 <= i < |flows| ==> FlowTold(codec, flows[i], routed)
    ensures ReportedTcpOctets(flows) <= GatheredTcpOctets(routed, flows)
    ensures ReportedTcpOctets(flows) == GatheredTcpOctets(routed, flows)
       <==> NoneDrops(routed, flows)
  {
    if flows != [] {
      var n := |flows| - 1;
      assert FlowTold(codec, flows[n], routed);
      assert forall i :: 0 <= i < n ==> flows[..n][i] == flows[i];
      NoneDropsLast(routed, flows);
      OneReported(codec, flows[n], routed);
      hide FlowTold, Drops, NoneDrops, GatheredInDirections, OctetsOfDirections;
      ReportedOrDropped(codec, flows[..n], routed);
    }
  }

  ghost predicate NoneDrops(routed: seq<Routed>, flows: seq<FlowModel>) {
    forall i :: 0 <= i < |flows| ==> !Drops(routed, flows[i])
  }

  lemma NoneDropsLast(routed: seq<Routed>, flows: seq<FlowModel>)
    requires flows != []
    ensures var n := |flows| - 1;
            NoneDrops(routed, flows) <==> NoneDrops(routed, flows[..n]) && !Drops(routed, flows[n])
  {
    hide Drops;
    assert forall i :: 0 <= i < |flows| - 1 ==> flows[..|flows| - 1][i] == flows[i];
  }

  lemma OneReported(codec: Codec, flow: FlowModel, routed: seq<Routed>)
    requires FlowTold(codec, flow, routed)
    ensures var gathered := GatheredInDirections(routed, flow.id, flow.directions);
            && 0 <= gathered
            && (flow.protocol.TCP? ==> OctetsOfDirections(flow.directions) == gathered)
            && (Drops(routed, flow) <==> !flow.protocol.TCP? && gathered != 0)
  {
    hide DirectionTold, AnyData, Kept;
    GatheredSign(routed, flow.id, flow.directions);
    if flow.protocol.TCP? {
      ToldTcpDirections(codec, flow, flow.directions, routed);
    }
  }

  // ---------------------------------------------------------------- which packets are dropped

  lemma {:induction false} MarkMeansData(routed: seq<Routed>, side: Side)
    requires side in After(routed).sentEnds
    ensures exists p :: p in routed && p.facts.protocol.TCP? && p.facts.payload != [] && p.flowId == side.flowId
  {
    var n := |routed| - 1;
    assert routed[n] in routed && forall p :: p in routed[..n] ==> p in routed;
    if side in After(routed[..n]).sentEnds {
      MarkMeansData(routed[..n], side);
    }
  }

  /** The first TCP data of a flow is never taken for a probe, so some direction of the flow keeps data. */
  lemma {:induction false} DataIsKept(routed: seq<Routed>, p: Routed) returns (q: Routed)
    requires p in routed && p.facts.protocol.TCP? && p.facts.payload != []
    ensures q in routed && q.flowId == p.flowId && AnyData(Kept(routed, q.flowId, q.direction))
  {
    var n := |routed| - 1;
    assert routed[n] in routed && forall x :: x in routed[..n] ==> x in routed;
    if p in routed[..n] {
      q := DataIsKept(routed[..n], p);
      KeptGrows(routed, q.flowId, q.direction);
    } else if IsProbe(After(routed[..n]), p) {
      MarkMeansData(routed[..n], SideOf(p));
      var earlier :| earlier in routed[..n] && earlier.facts.protocol.TCP? && earlier.facts.payload != []
                     && earlier.flowId == p.flowId;
      q := DataIsKept(routed[..n], earlier);
      KeptGrows(routed, q.flowId, q.direction);
    } else {
      q := p;
      LastIsKept(routed);
    }
  }

  lemma KeptGrows(routed: seq<Routed>, flowId: string, d: Direction)
    requires routed != [] && AnyData(Kept(routed[..|routed| - 1], flowId, d))
    ensures AnyData(Kept(routed, flowId, d))
  {
    var s :| s in Kept(routed[..|routed| - 1], flowId, d) && HasData(s);
    hide KeptSegment;
    assert s in Kept(routed, flowId, d);
  }

  lemma LastIsKept(routed: seq<Routed>)
    requires routed != []
    requires var p := routed[|routed| - 1];
             p.facts.protocol.TCP? && p.facts.payload != [] && !IsProbe(After(routed[..|routed| - 1]), p)
    ensures var p := routed[|routed| - 1]; AnyData(Kept(routed, p.flowId, p.direction))
  {
    var n := |routed| - 1;
    var p := routed[n];
    var s := KeptSegment(After(routed[..n]), p);
    assert HasData(s) && Kept(routed, p.flowId, p.direction)[|Kept(routed[..n], p.flowId, p.direction)|] == s;
    assert s in Kept(routed, p.flowId, p.direction);
  }

  lemma {:induction false} KeptMeansData(routed: seq<Routed>, flowId: string, d: Direction) returns (p: Routed)
    requires AnyData(Kept(routed, flowId, d))
    ensures p in routed && p.flowId == flowId && p.facts.protocol.TCP? && p.facts.payload != []
  {
    var n := |routed| - 1;
    var s :| s in Kept(routed, flowId, d) && HasData(s);
    if s in Kept(routed[..n], flowId, d) {
      p := KeptMeansData(routed[..n], flowId, d);
    } else {
      p := routed[n];
    }
  }

  /** TCP octets are never counted twice, and none is lost exactly when no TCP packet with data belongs to a
      flow that is modelled as something else. */
  lemma TcpOctetsConserved(codec: Codec, report: Report, routed: seq<Routed>, known: map<string, Protocol>,
                           registered: seq<Flow>)
    requires ReportTold(codec, report, routed, known, registered)
    ensures ReportedTcpOctets(report.flows) <= GatheredTcpOctets(routed, report.flows)
    ensures ReportedTcpOctets(report.flows) == GatheredTcpOctets(routed, report.flows)
       <==> forall p :: p in routed && p.facts.protocol.TCP? && p.facts.payload != [] ==>
           ToldAsTcp(known, routed, p.flowId)
  {
    assert forall i :: 0 <= i < |report.flows| ==> FlowTold(codec, report.flows[i], routed);
    hide ReportTold, FlowTold, ToldAsTcp;
    ReportedOrDropped(codec, report.flows, routed);
    forall p | p in routed && p.facts.protocol.TCP? && p.facts.payload != [] && !ToldAsTcp(known, routed, p.flowId)
      ensures exists i :: 0 <= i < |report.flows| && Drops(routed, report.flows[i])
    {
      var i := DroppedBy(codec, report, routed, known, registered, p);
    }
    forall i: nat | i < |report.flows| && Drops(routed, report.flows[i])
      ensures exists p ::
                p in routed && p.facts.protocol.TCP? && p.facts.payload != [] && !ToldAsTcp(known, routed, p.flowId)
    {
      var p := DroppedPacket(codec, report, routed, known, registered, i);
    }
    hide Drops;
  }

  lemma DroppedBy(codec: Codec, report: Report, routed: seq<Routed>, known: map<string, Protocol>,
                  registered: seq<Flow>, p: Routed) returns (i: nat)
    requires ReportTold(codec, report, routed, known, registered)
    requires p in routed && p.facts.protocol.TCP? && p.facts.payload != [] && !ToldAsTcp(known, routed, p.flowId)
    ensures i < |report.flows| && Drops(routed, report.flows[i])
  {
    hide FlowTold, AnyData, Kept;
    var q := DataIsKept(routed, p);
    assert Mentions(report, q.flowId, q.direction);
    i :| 0 <= i < |report.flows| && report.flows[i].id == q.flowId
        && HasDirection(report.flows[i].directions, q.direction);
    assert FlowSeen(routed, report.flows[i].id) && ProtocolTold(known, routed, report.flows[i]);
    var j :| 0 <= j < |report.flows[i].directions| && report.flows[i].directions[j].direction == q.direction;
    assert AnyData(Kept(routed, report.flows[i].id, report.flows[i].directions[j].direction));
  }

  lemma DroppedPacket(codec: Codec, report: Report, routed: seq<Routed>, known: map<string, Protocol>,
                      registered: seq<Flow>, i: nat) returns (p: Routed)
    requires ReportTold(codec, report, routed, known, registered) && i < |report.flows|
              && Drops(routed, report.flows[i])
    ensures p in routed && p.facts.protocol.TCP? && p.facts.payload != [] && !ToldAsTcp(known, routed, p.flowId)
  {
    hide FlowTold, AnyData, Kept;
    var flow := report.flows[i];
    var j :| 0 <= j < |flow.directions| && AnyData(Kept(routed, flow.id, flow.directions[j].direction));
    p := KeptMeansData(routed, flow.id, flow.directions[j].direction);
    assert FlowSeen(routed, flow.id) && ProtocolTold(known, routed, flow);
  }

  /** No gathered octet is lost, of either protocol, exactly when every packet with data belongs to a flow
      that is modelled with the packet's own protocol. */
  lemma NoOctetLost(codec: Codec, report: Report, routed: seq<Routed>, known: map<string, Protocol>,
                    registered: seq<Flow>)
    requires ReportTold(codec, report, routed, known, registered)
    ensures ReportedUdpOctets(report.flows) == UdpOctets(routed)
            && ReportedTcpOctets(report.flows) == GatheredTcpOctets(routed, report.flows)
       <==> forall p :: p in routed && p.facts.payload != [] ==>
              (ToldAsTcp(known, routed, p.flowId) <==> p.facts.protocol.TCP?)
  {
    hide *;
    UdpOctetsConserved(codec, report, routed, known, registered);
    TcpOctetsConserved(codec, report, routed, known, registered);
  }
}
