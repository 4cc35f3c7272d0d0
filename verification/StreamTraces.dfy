/** From a connection's packets to the report: the sender's stream comes back. */
module StreamTraces {
  import opened Outcomes
  import opened TcpSegments
  import opened TcpStreams
  import opened Packets
  import opened Keepalive
  import opened FlowRegistry
  import opened ReportModel
  import opened ReportFacts
  import opened ReportTracking
  import opened ReportBuilder
  import opened ReportTheorems

  // ---------------------------------------------------------------- which packets make a list

  predicate InLane(p: Routed, flowId: string, d: Direction) {
    p.facts.protocol.TCP? && p.flowId == flowId && p.direction == d
  }

  /** Places of the TCP packets of one flow direction, in capture order. */
  function Lane(routed: seq<Routed>, flowId: string, d: Direction): (places: seq<nat>)
    ensures forall m :: 0 <= m < |places| ==> places[m] < |routed|
  {
    if routed == [] then []
    else
      var n := |routed| - 1;
      var before := Lane(routed[..n], flowId, d);
      if InLane(routed[n], flowId, d) then before + [n] else before
  }

  /** The lane lists exactly those packets, each once, in capture order. */
  lemma {:induction false} LaneAt(routed: seq<Routed>, flowId: string, d: Direction, m: nat, n: nat)
    requires m <= n < |Lane(routed, flowId, d)|
    ensures InLane(routed[Lane(routed, flowId, d)[m]], flowId, d)
    ensures m < n ==> Lane(routed, flowId, d)[m] < Lane(routed, flowId, d)[n]
  {
    var k := |routed| - 1;
    LaneLast(routed, flowId, d);
    var before := Lane(routed[..k], flowId, d);
    if n < |before| {
      LaneAt(routed[..k], flowId, d, m, n);
    } else if m < |before| {
      LaneAt(routed[..k], flowId, d, m, m);
    }
  }

  lemma {:induction false} LaneHas(routed: seq<Routed>, flowId: string, d: Direction, i: nat) returns (m: nat)
    requires i < |routed| && InLane(routed[i], flowId, d)
    ensures m < |Lane(routed, flowId, d)| && Lane(routed, flowId, d)[m] == i
  {
    var k := |routed| - 1;
    LaneLast(routed, flowId, d);
    m := |Lane(routed[..k], flowId, d)|;
    if i < k {
      m := LaneHas(routed[..k], flowId, d, i);
    }
  }

  /** What the assembler gets of the i-th packet: the sequence field, plus one behind a SYN, the payload unless it
      is a probe's, the FIN flag and the ordinal. */
  predicate KeptAs(routed: seq<Routed>, i: nat, s: Segment)
    requires i < |routed|
  {
    var p := routed[i];
    && s.start == p.facts.seqno + (if p.facts.flags.syn then 1 else 0)
    && s.payload == (if Probe(routed, i) then [] else p.facts.payload)
    && s.fin == p.facts.flags.fin && s.ordinal == p.ordinal
  }

  /** The segments handed to the assembler are the lane's packets in capture order. */
  lemma {:induction false} KeptIsLane(routed: seq<Routed>, flowId: string, d: Direction)
    ensures |Kept(routed, flowId, d)| == |Lane(routed, flowId, d)|
    ensures forall m :: 0 <= m < |Lane(routed, flowId, d)| ==>
              KeptAs(routed, Lane(routed, flowId, d)[m], Kept(routed, flowId, d)[m])
  {
    KeptNone(flowId, d);
    if routed != [] {
      var n := |routed| - 1;
      KeptIsLane(routed[..n], flowId, d);
      LastKept(routed, flowId, d);
      LaneLast(routed, flowId, d);
      var lane, kept := Lane(routed[..n], flowId, d), Kept(routed[..n], flowId, d);
      hide Kept, Lane, KeptAs, InLane;
      forall m | 0 <= m < |lane|
        ensures KeptAs(routed, lane[m], kept[m])
      {
        KeptAsPrefix(routed, n, lane[m], kept[m]);
      }
    }
  }

  lemma KeptNone(flowId: string, d: Direction)
    ensures Kept([], flowId, d) == [] && Lane([], flowId, d) == []
  {
  }

  lemma KeptAsPrefix(routed: seq<Routed>, n: nat, i: nat, s: Segment)
    requires i < n <= |routed| && KeptAs(routed[..n], i, s)
    ensures KeptAs(routed, i, s)
  {
    hide After;
    assert routed[..n][..i] == routed[..i];
  }

  lemma LaneLast(routed: seq<Routed>, flowId: string, d: Direction)
    requires routed != []
    ensures var n := |routed| - 1;
            Lane(routed, flowId, d) == Lane(routed[..n], flowId, d) + if InLane(routed[n], flowId, d) then [n] else []
  {
  }

  lemma LastKept(routed: seq<Routed>, flowId: string, d: Direction)
    requires routed != []
    ensures var n := |routed| - 1; var before, kept := Kept(routed[..n], flowId, d), Kept(routed, flowId, d);
            if !InLane(routed[n], flowId, d) then kept == before
            else |kept| == |before| + 1 && kept[..|before|] == before && KeptAs(routed, n, kept[|before|])
  {
  }

  // ---------------------------------------------------------------- a sender's trace

  /** The i-th packet carries stream[at..] of a connection whose initial number is `isn`; a keepalive probe may
      carry anything. A SYN stands before the first octet, a FIN after the last. */
  predicate Carries(routed: seq<Routed>, i: nat, isn: int, stream: seq<Octet>, at: int)
    requires i < |routed|
  {
    var f := routed[i].facts;
    && 0 <= at <= |stream|
    && (if f.flags.syn then at == 0 && f.seqno % 0x1_0000_0000 == isn % 0x1_0000_0000
        else f.seqno % 0x1_0000_0000 == (isn + 1 + at) % 0x1_0000_0000)
    && (!Probe(routed, i) ==> at + |f.payload| <= |stream| && f.payload == stream[at..at + |f.payload|])
    && (f.flags.fin ==> at + |f.payload| == |stream|)
  }

  predicate HasOctet(routed: seq<Routed>, i: nat, at: int, k: int)
    requires i < |routed|
  {
    !Probe(routed, i) && at <= k < at + |routed[i].facts.payload|
  }

  /** Some packet of the lane holds the k-th octet. */
  ghost predicate Sent(routed: seq<Routed>, flowId: string, d: Direction, at: seq<int>, k: int)
    requires |at| == |routed|
  {
    exists i :: 0 <= i < |routed| && InLane(routed[i], flowId, d) && HasOctet(routed, i, at[i], k)
  }

  /** The packets of one flow direction are a trace of this stream: in any order, with any repetition, overlap
      or wrap of the sequence field, but all of it, and within the half window that sequence numbers allow. */
  ghost predicate Traces(routed: seq<Routed>, flowId: string, d: Direction, isn: int, stream: seq<Octet>,
                         at: seq<int>) {
    && |at| == |routed|
    && (forall i :: 0 <= i < |routed| && InLane(routed[i], flowId, d) ==> Carries(routed, i, isn, stream, at[i]))
    && (forall k :: 0 <= k < |stream| ==> Sent(routed, flowId, d, at, k))
    && (forall i, j ::
          0 <= i < |routed| && 0 <= j < |routed| && InLane(routed[i], flowId, d) && InLane(routed[j], flowId, d)
          && (routed[i].facts.payload != [] || routed[i].facts.flags.fin) ==>
            -0x8000_0000 <= at[i] - at[j] < 0x8000_0000)
  }

  /** True positions of the lane's segments: the octet after the SYN is isn + 1. */
  function TruePositions(routed: seq<Routed>, flowId: string, d: Direction, isn: int, at: seq<int>): seq<int>
    requires |at| == |routed|
  {
    var lane := Lane(routed, flowId, d);
    seq(|lane|, m requires 0 <= m < |lane| => isn + 1 + at[lane[m]])
  }

  /** One packet: its true position behind the field, and its octets in the stream. */
  lemma PacketPosition(routed: seq<Routed>, i: nat, s: Segment, isn: int, stream: seq<Octet>, k: int)
    requires i < |routed| && KeptAs(routed, i, s) && Carries(routed, i, isn, stream, k)
    ensures Residue(isn + 1 + k) == Residue(s.start)
    ensures HasData(s) ==> 0 <= k && k + |s.payload| <= |stream| && s.payload == stream[k..k + |s.payload|]
    ensures s.fin ==> k + |s.payload| <= |stream|
  {
    hide Probe, Residue;
    SamePosition(routed[i].facts, isn, k);
  }

  lemma LanePosition(routed: seq<Routed>, flowId: string, d: Direction, isn: int, stream: seq<Octet>, at: seq<int>,
                     m: nat)
    requires Traces(routed, flowId, d, isn, stream, at) && m < |Lane(routed, flowId, d)|
    ensures |Kept(routed, flowId, d)| == |Lane(routed, flowId, d)| && |at| == |routed|
    ensures TruePositions(routed, flowId, d, isn, at)[m] == isn + 1 + at[Lane(routed, flowId, d)[m]]
    ensures var s, k := Kept(routed, flowId, d)[m], at[Lane(routed, flowId, d)[m]];
            && Residue(isn + 1 + k) == Residue(s.start)
            && (HasData(s) ==> 0 <= k && k + |s.payload| <= |stream| && s.payload == stream[k..k + |s.payload|])
            && (s.fin ==> k + |s.payload| <= |stream|)
  {
    var i := Lane(routed, flowId, d)[m];
    LaneAt(routed, flowId, d, m, m);
    TraceCarries(routed, flowId, d, isn, stream, at, i);
    KeptIsLane(routed, flowId, d);
    hide Traces, Kept, Lane, Residue, KeptAs, Carries, InLane, HasData;
    PacketPosition(routed, i, Kept(routed, flowId, d)[m], isn, stream, at[i]);
  }

  lemma TraceCarries(routed: seq<Routed>, flowId: string, d: Direction, isn: int, stream: seq<Octet>, at: seq<int>,
                     i: nat)
    requires Traces(routed, flowId, d, isn, stream, at) && i < |routed| && InLane(routed[i], flowId, d)
    ensures |at| == |routed| && Carries(routed, i, isn, stream, at[i])
  {
    hide Carries, Sent, InLane;
  }

  lemma LaneDistance(routed: seq<Routed>, flowId: string, d: Direction, isn: int, stream: seq<Octet>, at: seq<int>,
                     m: nat, n: nat)
    requires Traces(routed, flowId, d, isn, stream, at)
    requires m < |Lane(routed, flowId, d)| && n < |Lane(routed, flowId, d)|
    ensures |Kept(routed, flowId, d)| == |Lane(routed, flowId, d)|
    ensures Positioned(Kept(routed, flowId, d)[m]) ==>
              -SEQUENCE_HALF <= at[Lane(routed, flowId, d)[m]] - at[Lane(routed, flowId, d)[n]] < SEQUENCE_HALF
  {
    KeptIsLane(routed, flowId, d);
    var i, j := Lane(routed, flowId, d)[m], Lane(routed, flowId, d)[n];
    LaneAt(routed, flowId, d, m, m);
    LaneAt(routed, flowId, d, n, n);
    assert InLane(routed[i], flowId, d) && InLane(routed[j], flowId, d);
    hide Probe, Kept, Lane, Carries, Sent, InLane;
  }

  lemma PositionsCount(routed: seq<Routed>, flowId: string, d: Direction, isn: int, stream: seq<Octet>, at: seq<int>)
    requires Traces(routed, flowId, d, isn, stream, at)
    ensures |at| == |routed| && |Kept(routed, flowId, d)| == |Lane(routed, flowId, d)|
    ensures |TruePositions(routed, flowId, d, isn, at)| == |Lane(routed, flowId, d)|
  {
    hide Carries, Sent, InLane;
    KeptIsLane(routed, flowId, d);
  }

  lemma LaneWithinWindow(routed: seq<Routed>, flowId: string, d: Direction, isn: int, stream: seq<Octet>, at: seq<int>)
    requires Traces(routed, flowId, d, isn, stream, at)
    ensures WithinWindow(Kept(routed, flowId, d), TruePositions(routed, flowId, d, isn, at))
  {
    hide *;
    PositionsCount(routed, flowId, d, isn, stream, at);
    var kept, offsets := Kept(routed, flowId, d), TruePositions(routed, flowId, d, isn, at);
    forall m | 0 <= m < |kept|
      ensures Residue(offsets[m]) == Residue(kept[m].start)
    {
      LanePosition(routed, flowId, d, isn, stream, at, m);
    }
    forall m, k | 0 <= m < |kept| && 0 <= k < |kept| && Positioned(kept[m])
      ensures -SEQUENCE_HALF <= offsets[m] - offsets[k] < SEQUENCE_HALF
    {
      LanePosition(routed, flowId, d, isn, stream, at, m);
      LanePosition(routed, flowId, d, isn, stream, at, k);
      LaneDistance(routed, flowId, d, isn, stream, at, m, k);
    }
    AllWithin(kept, offsets);
  }

  lemma AllWithin(segments: seq<Segment>, offsets: seq<int>)
    requires |offsets| == |segments|
    requires forall m :: 0 <= m < |segments| ==> Residue(offsets[m]) == Residue(segments[m].start)
    requires forall m, k :: 0 <= m < |segments| && 0 <= k < |segments| && Positioned(segments[m]) ==>
               -SEQUENCE_HALF <= offsets[m] - offsets[k] < SEQUENCE_HALF
    ensures WithinWindow(segments, offsets)
  {
    hide Residue, Positioned;
  }

  lemma SamePosition(f: Facts, isn: int, at: int)
    requires if f.flags.syn then at == 0 && f.seqno % 0x1_0000_0000 == isn % 0x1_0000_0000
             else f.seqno % 0x1_0000_0000 == (isn + 1 + at) % 0x1_0000_0000
    ensures Residue(isn + 1 + at) == Residue(f.seqno + if f.flags.syn then 1 else 0)
  {
  }

  lemma LaneSlices(routed: seq<Routed>, flowId: string, d: Direction, isn: int, stream: seq<Octet>, at: seq<int>)
    requires Traces(routed, flowId, d, isn, stream, at)
    ensures |TruePositions(routed, flowId, d, isn, at)| == |Kept(routed, flowId, d)|
    ensures SlicesOf(Lifted(Kept(routed, flowId, d), TruePositions(routed, flowId, d, isn, at)), stream,
                     isn + 1, isn + 1, isn + 1 + |stream|)
  {
    hide *;
    PositionsCount(routed, flowId, d, isn, stream, at);
    var kept, offsets := Kept(routed, flowId, d), TruePositions(routed, flowId, d, isn, at);
    forall m | 0 <= m < |kept|
      ensures PieceOf(kept[m], offsets[m], stream, isn + 1)
    {
      LanePosition(routed, flowId, d, isn, stream, at, m);
      IsPiece(kept[m], at[Lane(routed, flowId, d)[m]], stream, isn + 1);
    }
    forall p | isn + 1 <= p < isn + 1 + |stream|
      ensures Covered(Lifted(kept, offsets), p)
    {
      SentIsCovered(routed, flowId, d, isn, stream, at, p - (isn + 1));
    }
    PiecesSlice(kept, offsets, stream, isn + 1);
  }

  /** The segment at this position holds its part of the stream that begins at `first`. */
  predicate PieceOf(s: Segment, offset: int, stream: seq<Octet>, first: int) {
    && (HasData(s) ==>
          && first <= offset && offset + |s.payload| <= first + |stream|
          && s.payload == stream[offset - first..offset - first + |s.payload|])
    && (s.fin ==> offset + |s.payload| <= first + |stream|)
  }

  lemma IsPiece(s: Segment, k: int, stream: seq<Octet>, first: int)
    requires HasData(s) ==> 0 <= k && k + |s.payload| <= |stream| && s.payload == stream[k..k + |s.payload|]
    requires s.fin ==> k + |s.payload| <= |stream|
    ensures PieceOf(s, first + k, stream, first)
  {
  }

  lemma PiecesSlice(segments: seq<Segment>, offsets: seq<int>, stream: seq<Octet>, first: int)
    requires |offsets| == |segments|
    requires forall m :: 0 <= m < |segments| ==> PieceOf(segments[m], offsets[m], stream, first)
    requires forall p :: first <= p < first + |stream| ==> Covered(Lifted(segments, offsets), p)
    ensures SlicesOf(Lifted(segments, offsets), stream, first, first, first + |stream|)
  {
    hide Covered;
    var lifted := Lifted(segments, offsets);
    forall s | s in lifted
      ensures PieceOf(s, s.start, stream, first)
    {
      var m :| 0 <= m < |segments| && lifted[m] == s;
      assert PieceOf(segments[m], offsets[m], stream, first);
    }
  }

  lemma SentIsCovered(routed: seq<Routed>, flowId: string, d: Direction, isn: int, stream: seq<Octet>, at: seq<int>,
                      k: int)
    requires Traces(routed, flowId, d, isn, stream, at) && 0 <= k < |stream|
    requires |TruePositions(routed, flowId, d, isn, at)| == |Kept(routed, flowId, d)|
    ensures Covered(Lifted(Kept(routed, flowId, d), TruePositions(routed, flowId, d, isn, at)), isn + 1 + k)
  {
    KeptIsLane(routed, flowId, d);
    assert Sent(routed, flowId, d, at, k);
    hide Traces, Kept, Probe;
    var lane, kept, offsets :=
        Lane(routed, flowId, d), Kept(routed, flowId, d), TruePositions(routed, flowId, d, isn, at);
    var i :| 0 <= i < |routed| && InLane(routed[i], flowId, d) && HasOctet(routed, i, at[i], k);
    var m := LaneHas(routed, flowId, d, i);
    assert KeptAs(routed, lane[m], kept[m]);
    var lifted := Lifted(kept, offsets);
    assert lifted[m] in lifted && lifted[m].Holds(isn + 1 + k);
  }

  /** End to end, from the packets' own fields: if the packets of a direction trace a stream, the report's Base64
      text for that direction decodes to exactly that stream. */
  lemma ReportTellsTrace(codec: Codec, report: Report, routed: seq<Routed>, known: map<string, Protocol>,
                         registered: seq<Flow>, flowId: string, d: Direction, isn: int, stream: seq<Octet>,
                         at: seq<int>)
    requires codec.Lossless() && ReportTold(codec, report, routed, known, registered)
    requires DirectionSeen(routed, flowId, d) && ToldAsTcp(known, routed, flowId)
    requires Traces(routed, flowId, d, isn, stream, at)
    ensures Mentions(report, flowId, d)
    ensures forall i, j :: 0 <= i < |report.flows| && report.flows[i].id == flowId
                           && 0 <= j < |report.flows[i].directions| && report.flows[i].directions[j].direction == d
              ==> codec.decode(report.flows[i].directions[j].base64) == Some(stream)
  {
    hide *;
    PositionsCount(routed, flowId, d, isn, stream, at);
    LaneWithinWindow(routed, flowId, d, isn, stream, at);
    LaneSlices(routed, flowId, d, isn, stream, at);
    var first, end := isn + 1, isn + 1 + |stream|;
    ReportTellsStream(codec, report, routed, known, registered, flowId, d, TruePositions(routed, flowId, d, isn, at),
                      stream, first, first, end);
    assert stream[first - first..end - first] == stream;
  }

  /** Such a direction always assembles, so it never stands in the way of a report. */
  lemma TraceAssembles(routed: seq<Routed>, flowId: string, d: Direction, isn: int, stream: seq<Octet>, at: seq<int>)
    requires Traces(routed, flowId, d, isn, stream, at)
    ensures Assemblable(Normalized(Kept(routed, flowId, d)))
  {
    hide *;
    PositionsCount(routed, flowId, d, isn, stream, at);
    LaneWithinWindow(routed, flowId, d, isn, stream, at);
    LaneSlices(routed, flowId, d, isn, stream, at);
    var kept, offsets := Kept(routed, flowId, d), TruePositions(routed, flowId, d, isn, at);
    SlicesAccepted(kept, offsets, stream, isn + 1, isn + 1, isn + 1 + |stream|);
  }

  lemma SlicesAccepted(segments: seq<Segment>, offsets: seq<int>, stream: seq<Octet>, origin: int, lo: int, hi: int)
    requires WithinWindow(segments, offsets) && SlicesOf(Lifted(segments, offsets), stream, origin, lo, hi)
    ensures Assemblable(Normalized(segments))
  {
    hide *;
    OffsetsMatch(segments, offsets);
    var lifted := Lifted(segments, offsets);
    SlicesRendered(lifted, stream, origin, lo, hi);
    SliceResultMeans(lifted, stream, origin, lo, hi);
    AcceptedMeans(lifted, SliceResult(lifted, stream, origin, lo, hi));
    if segments == [] {
      NormalizedLength(segments);
      LiftedData(segments, offsets);
    } else {
      NormalizedCarries(segments, offsets);
      CarriedAssemblable(Normalized(segments), lifted, -Displacement(segments, offsets));
    }
  }
}
