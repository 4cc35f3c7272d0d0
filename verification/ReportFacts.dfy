/** What a report must say about the packets it was built from. */
module ReportFacts {
  import opened Outcomes
  import opened TcpSegments
  import opened Packets
  import opened Keepalive
  import opened ReportModel
  import Text

  function NameOf(d: Direction): string {
    match d
    case Outbound => "outbound"
    case Inbound => "inbound"
    case Unknown => "unknown"
  }

  function DirectionId(flowId: string, d: Direction): string {
    flowId + "-" + NameOf(d)
  }

  predicate InDirection(p: Routed, flowId: string, d: Direction) {
    p.flowId == flowId && p.direction == d
  }

  ghost predicate FlowSeen(routed: seq<Routed>, flowId: string) {
    exists p :: p in routed && p.flowId == flowId
  }

  ghost predicate DirectionSeen(routed: seq<Routed>, flowId: string, d: Direction) {
    exists p :: p in routed && InDirection(p, flowId, d)
  }

  /** The UDP packets of one flow direction, in order. */
  function Datagrams(routed: seq<Routed>, flowId: string, d: Direction): seq<Routed> {
    if routed == [] then []
    else
      var n := |routed| - 1;
      var before := Datagrams(routed[..n], flowId, d);
      if InDirection(routed[n], flowId, d) && !routed[n].facts.protocol.TCP? then before + [routed[n]] else before
  }

  /** Ordinals of the packets classified as keepalive probes, in order. */
  function ProbeOrdinals(routed: seq<Routed>, flowId: string, d: Direction): seq<int> {
    if routed == [] then []
    else
      var n := |routed| - 1;
      var before := ProbeOrdinals(routed[..n], flowId, d);
      if InDirection(routed[n], flowId, d) && Probe(routed, n) then before + [routed[n].ordinal] else before
  }

  function Concatenated(datagrams: seq<Routed>): seq<Octet> {
    if datagrams == [] then []
    else Concatenated(datagrams[..|datagrams| - 1]) + datagrams[|datagrams| - 1].facts.payload
  }

  // ---------------------------------------------------------------- what an entry tells

  /** The lifetime is exactly that of the direction's packets. */
  ghost predicate Spans(m: DirectionModel, routed: seq<Routed>, flowId: string) {
    && (forall p :: p in routed && InDirection(p, flowId, m.direction) ==>
          && m.startedAt.Some? && m.startedAt.value <= p.timestamp
          && m.endedAt.Some? && p.timestamp <= m.endedAt.value)
    && (DirectionSeen(routed, flowId, m.direction) && m.startedAt.Some? && m.endedAt.Some? ==>
          && (exists p :: p in routed && InDirection(p, flowId, m.direction) && p.timestamp == m.startedAt.value)
          && (exists p :: p in routed && InDirection(p, flowId, m.direction) && p.timestamp == m.endedAt.value))
  }

  /** The endpoints are those of the direction's first packet. */
  ghost predicate FromFirst(m: DirectionModel, routed: seq<Routed>, flowId: string) {
    forall i :: 0 <= i < |routed| && InDirection(routed[i], flowId, m.direction)
                && (forall k :: 0 <= k < i ==> !InDirection(routed[k], flowId, m.direction))
      ==> m.source == routed[i].facts.source && m.destination == routed[i].facts.destination
  }

  /** Identity, endpoints, lifetime and probe list of a direction entry. */
  ghost predicate Reflects(m: DirectionModel, routed: seq<Routed>, flowId: string) {
    && m.id == DirectionId(flowId, m.direction)
    && FromFirst(m, routed, flowId)
    && m.probes == ProbeOrdinals(routed, flowId, m.direction)
    && Spans(m, routed, flowId)
  }

  ghost predicate Encodes(codec: Codec, m: DirectionModel, payload: seq<Octet>) {
    m.bytes == |payload| && m.sha256 == codec.sha256(payload) && m.base64 == codec.encode(payload)
  }

  function DatagramId(flowId: string, d: Direction, number: nat): string {
    DirectionId(flowId, d) + "-datagram-" + Text.Padded(number, 6)
  }

  /** The k-th datagram entry names the k-th packet and its range of the concatenated payload. */
  ghost predicate DatagramTold(codec: Codec, m: DirectionModel, flowId: string, packets: seq<Routed>, k: nat)
    requires k < |packets| && |m.datagrams| == |packets|
  {
    var entry, payload := m.datagrams[k], packets[k].facts.payload;
    && entry.id == DatagramId(flowId, m.direction, k + 1)
    && entry.ordinal == packets[k].ordinal
    && entry.offset == |Concatenated(packets[..k])|
    && entry.length == entry.bytes == |payload|
    && entry.sha256 == codec.sha256(payload)
    && entry.reference == Range(m.id, entry.offset, entry.length)
  }

  ghost predicate TellsUdp(codec: Codec, m: DirectionModel, routed: seq<Routed>, flowId: string) {
    var packets := Datagrams(routed, flowId, m.direction);
    && |m.datagrams| == |packets|
    && Encodes(codec, m, Concatenated(packets))
    && forall k :: 0 <= k < |packets| ==> DatagramTold(codec, m, flowId, packets, k)
  }

  ghost predicate TellsTcp(codec: Codec, m: DirectionModel, routed: seq<Routed>, flowId: string) {
    exists a: Assembled ::
      && IsAssembly(Normalized(Kept(routed, flowId, m.direction)), Ok(a))
      && Encodes(codec, m, a.payload)
  }

  ghost predicate DirectionTold(codec: Codec, protocol: Protocol, m: DirectionModel, routed: seq<Routed>,
                                flowId: string) {
    && Reflects(m, routed, flowId)
    && (if protocol.TCP? then TellsTcp(codec, m, routed, flowId) else TellsUdp(codec, m, routed, flowId))
  }

  ghost predicate FlowTold(codec: Codec, flow: FlowModel, routed: seq<Routed>) {
    && flow.owner != ""
    && (forall i, j :: 0 <= i < j < |flow.directions| ==> flow.directions[i].direction != flow.directions[j].direction)
    && (forall j :: 0 <= j < |flow.directions| ==>
        DirectionTold(codec, flow.protocol, flow.directions[j], routed, flow.id))
  }

  // ---------------------------------------------------------------- a told flow is a valid flow

  lemma {:induction false} ConcatenatedPrefix(datagrams: seq<Routed>, k: nat)
    requires k < |datagrams|
    ensures |Concatenated(datagrams[..k])| + |datagrams[k].facts.payload| <= |Concatenated(datagrams)|
    ensures var from := |Concatenated(datagrams[..k])|;
            Concatenated(datagrams)[from..from + |datagrams[k].facts.payload|] == datagrams[k].facts.payload
  {
    var n := |datagrams| - 1;
    var from := |Concatenated(datagrams[..k])|;
    var to := from + |datagrams[k].facts.payload|;
    assert Concatenated(datagrams) == Concatenated(datagrams[..n]) + datagrams[n].facts.payload;
    hide Concatenated;
    if k < n {
      ConcatenatedPrefix(datagrams[..n], k);
      assert datagrams[..n][..k] == datagrams[..k];
      SlicePrefix(Concatenated(datagrams[..n]), datagrams[n].facts.payload, from, to);
    }
  }

  lemma SlicePrefix(front: seq<Octet>, back: seq<Octet>, from: nat, to: nat)
    requires from <= to <= |front|
    ensures (front + back)[from..to] == front[from..to]
  {
  }

  lemma {:induction false} OffsetsTold(codec: Codec, m: DirectionModel, routed: seq<Routed>, flowId: string, k: nat)
    requires TellsUdp(codec, m, routed, flowId) && k <= |m.datagrams|
    ensures OffsetOf(m.datagrams, k) == |Concatenated(Datagrams(routed, flowId, m.direction)[..k])|
  {
    if k > 0 {
      OffsetsTold(codec, m, routed, flowId, k - 1);
      var packets := Datagrams(routed, flowId, m.direction);
      assert packets[..k][..k - 1] == packets[..k - 1];
      assert DatagramTold(codec, m, flowId, packets, k - 1);
    }
  }

  lemma DatagramIdsDiffer(flowId: string, d: Direction, i: nat, j: nat)
    requires i != j
    ensures DatagramId(flowId, d, i) != DatagramId(flowId, d, j) && DatagramId(flowId, d, i) != ""
  {
    var stem := DirectionId(flowId, d) + "-datagram-";
    assert DatagramId(flowId, d, i)[|stem|..] == Text.Padded(i, 6);
    assert DatagramId(flowId, d, j)[|stem|..] == Text.Padded(j, 6);
    if Text.Padded(i, 6) == Text.Padded(j, 6) {
      Text.PaddedInjective(i, j, 6);
    }
  }

  /** Every datagram entry slices the direction's payload back to its packet. */
  lemma DatagramSlice(codec: Codec, m: DirectionModel, routed: seq<Routed>, flowId: string, k: nat)
    requires TellsUdp(codec, m, routed, flowId) && k < |m.datagrams|
    ensures var packets := Datagrams(routed, flowId, m.direction);
            && |packets| == |m.datagrams|
            && 0 <= m.datagrams[k].offset
            && 0 <= m.datagrams[k].length
            && m.datagrams[k].offset + m.datagrams[k].length <= |Concatenated(packets)|
            && Concatenated(packets)[m.datagrams[k].offset..m.datagrams[k].offset + m.datagrams[k].length]
               == packets[k].facts.payload
  {
    var packets := Datagrams(routed, flowId, m.direction);
    assert DatagramTold(codec, m, flowId, packets, k);
    ConcatenatedPrefix(packets, k);
  }

  lemma ToldAt(codec: Codec, m: DirectionModel, routed: seq<Routed>, flowId: string, i: nat)
    requires TellsUdp(codec, m, routed, flowId) && i < |m.datagrams|
    ensures var packets := Datagrams(routed, flowId, m.direction);
            && |packets| == |m.datagrams| && DatagramTold(codec, m, flowId, packets, i)
            && OffsetOf(m.datagrams, i) == |Concatenated(packets[..i])|
  {
    OffsetsTold(codec, m, routed, flowId, i);
  }

  /** A told entry, at the offset where the entries before it end, is a valid one. */
  lemma EntryIsValid(codec: Codec, m: DirectionModel, flowId: string, packets: seq<Routed>, payload: seq<Octet>, i: nat)
    requires i < |packets| == |m.datagrams| && DatagramTold(codec, m, flowId, packets, i)
    requires OffsetOf(m.datagrams, i) == |Concatenated(packets[..i])|
    requires var d := m.datagrams[i];
             d.offset + d.length <= |payload| && payload[d.offset..d.offset + d.length] == packets[i].facts.payload
    ensures DatagramValid(codec, m.id, m.datagrams, i, payload)
    ensures m.datagrams[i].id == DatagramId(flowId, m.direction, i + 1)
  {
    hide Concatenated, OffsetOf, DatagramId;
  }

  lemma DatagramToldIsValid(codec: Codec, m: DirectionModel, routed: seq<Routed>, flowId: string, i: nat)
    requires TellsUdp(codec, m, routed, flowId) && i < |m.datagrams|
    ensures DatagramValid(codec, m.id, m.datagrams, i, Concatenated(Datagrams(routed, flowId, m.direction)))
    ensures m.datagrams[i].id == DatagramId(flowId, m.direction, i + 1) && m.datagrams[i].id != ""
  {
    hide *;
    ToldAt(codec, m, routed, flowId, i);
    DatagramSlice(codec, m, routed, flowId, i);
    var packets := Datagrams(routed, flowId, m.direction);
    EntryIsValid(codec, m, flowId, packets, Concatenated(packets), i);
    DatagramIdsDiffer(flowId, m.direction, i + 1, i + 2);
  }

  lemma AllOctetsTold(codec: Codec, m: DirectionModel, routed: seq<Routed>, flowId: string)
    requires TellsUdp(codec, m, routed, flowId)
    ensures OffsetOf(m.datagrams, |m.datagrams|) == |Concatenated(Datagrams(routed, flowId, m.direction))|
  {
    OffsetsTold(codec, m, routed, flowId, |m.datagrams|);
    var packets := Datagrams(routed, flowId, m.direction);
    assert packets[..|packets|] == packets;
  }

  /** How directions are named. */
  lemma DirectionNames(flowId: string)
    ensures DirectionId(flowId, Outbound) == flowId + "-outbound"
    ensures DirectionId(flowId, Inbound) == flowId + "-inbound"
    ensures DirectionId(flowId, Unknown) == flowId + "-unknown"
  {
  }

  /** Each classified probe of a direction is listed once, behind exactly those captured before it. */
  lemma {:induction false} ProbePlace(routed: seq<Routed>, flowId: string, d: Direction, i: nat)
    requires i < |routed| && Probe(routed, i) && routed[i].flowId == flowId && routed[i].direction == d
    ensures |ProbeOrdinals(routed[..i], flowId, d)| < |ProbeOrdinals(routed, flowId, d)|
    ensures ProbeOrdinals(routed, flowId, d)[|ProbeOrdinals(routed[..i], flowId, d)|] == routed[i].ordinal
  {
    var n := |routed| - 1;
    if i < n {
      assert routed[..n][..i] == routed[..i];
      ProbePlace(routed[..n], flowId, d, i);
    }
  }

  lemma {:induction false} ProbeSource(routed: seq<Routed>, flowId: string, d: Direction, k: nat) returns (i: nat)
    requires k < |ProbeOrdinals(routed, flowId, d)|
    ensures i < |routed| && Probe(routed, i) && routed[i].flowId == flowId && routed[i].direction == d
    ensures |ProbeOrdinals(routed[..i], flowId, d)| == k
  {
    var n := |routed| - 1;
    i := n;
    if k < |ProbeOrdinals(routed[..n], flowId, d)| {
      i := ProbeSource(routed[..n], flowId, d, k);
      assert routed[..n][..i] == routed[..i];
    }
  }

  /** Each UDP packet of a direction is listed once, behind exactly those that were captured before it. */
  lemma {:induction false} DatagramPlace(routed: seq<Routed>, flowId: string, d: Direction, i: nat)
    requires i < |routed| && !routed[i].facts.protocol.TCP? && routed[i].flowId == flowId && routed[i].direction == d
    ensures |Datagrams(routed[..i], flowId, d)| < |Datagrams(routed, flowId, d)|
    ensures Datagrams(routed, flowId, d)[|Datagrams(routed[..i], flowId, d)|] == routed[i]
  {
    var n := |routed| - 1;
    if i < n {
      DatagramPlace(routed[..n], flowId, d, i);
      assert routed[..n][..i] == routed[..i];
    }
  }

  lemma {:induction false} DatagramSource(routed: seq<Routed>, flowId: string, d: Direction, k: nat) returns (i: nat)
    requires k < |Datagrams(routed, flowId, d)|
    ensures i < |routed| && !routed[i].facts.protocol.TCP? && routed[i].flowId == flowId && routed[i].direction == d
    ensures |Datagrams(routed[..i], flowId, d)| == k
  {
    var n := |routed| - 1;
    i := n;
    if k < |Datagrams(routed[..n], flowId, d)| {
      i := DatagramSource(routed[..n], flowId, d, k);
      assert routed[..n][..i] == routed[..i];
    }
  }

  /** The entries of a direction tell its UDP packets in capture order, none twice and none left out. */
  lemma DatagramsInOrder(codec: Codec, m: DirectionModel, routed: seq<Routed>, flowId: string, i: nat)
    requires TellsUdp(codec, m, routed, flowId) && i < |routed|
    requires !routed[i].facts.protocol.TCP? && routed[i].flowId == flowId && routed[i].direction == m.direction
    ensures var k := |Datagrams(routed[..i], flowId, m.direction)|;
            && k < |m.datagrams|
            && m.datagrams[k].ordinal == routed[i].ordinal
            && m.datagrams[k].length == |routed[i].facts.payload|
            && m.datagrams[k].sha256 == codec.sha256(routed[i].facts.payload)
    ensures |m.datagrams| == |Datagrams(routed, flowId, m.direction)|
  {
    DatagramPlace(routed, flowId, m.direction, i);
    var k := |Datagrams(routed[..i], flowId, m.direction)|;
    assert DatagramTold(codec, m, flowId, Datagrams(routed, flowId, m.direction), k);
    hide Datagrams, Concatenated, Encodes;
  }

  lemma UdpTiled(codec: Codec, m: DirectionModel, routed: seq<Routed>, flowId: string)
    requires TellsUdp(codec, m, routed, flowId)
    ensures Tiled(codec, m.id, m.datagrams, Concatenated(Datagrams(routed, flowId, m.direction)))
  {
    hide TellsUdp, DatagramValid, Datagrams, Concatenated, OffsetOf, DatagramId;
    AllOctetsTold(codec, m, routed, flowId);
    forall i | 0 <= i < |m.datagrams|
      ensures DatagramValid(codec, m.id, m.datagrams, i, Concatenated(Datagrams(routed, flowId, m.direction)))
      ensures m.datagrams[i].id == DatagramId(flowId, m.direction, i + 1) && m.datagrams[i].id != ""
    {
      DatagramToldIsValid(codec, m, routed, flowId, i);
    }
    forall i, j | 0 <= i < j < |m.datagrams|
      ensures m.datagrams[i].id != m.datagrams[j].id
    {
      DatagramIdsDiffer(flowId, m.direction, i + 1, j + 1);
    }
  }

  lemma DirectionIdsDiffer(flowId: string, d: Direction, d': Direction)
    requires d != d'
    ensures DirectionId(flowId, d) != DirectionId(flowId, d')
  {
    assert DirectionId(flowId, d)[|flowId| + 1..] == NameOf(d);
    assert DirectionId(flowId, d')[|flowId| + 1..] == NameOf(d');
    assert NameOf(d)[0] != NameOf(d')[0];
  }

  lemma ToldIsValid(codec: Codec, flow: FlowModel, routed: seq<Routed>)
    requires codec.Lossless() && FlowTold(codec, flow, routed)
    ensures FlowValid(codec, flow)
  {
    forall j | 0 <= j < |flow.directions|
      ensures flow.directions[j].id == DirectionId(flow.id, flow.directions[j].direction)
      ensures DirectionValid(codec, flow.protocol, flow.directions[j])
    {
      DirectionToldIsValid(codec, flow.protocol, flow.directions[j], routed, flow.id);
    }
    hide DirectionTold, DirectionValid;
    forall i, j | 0 <= i < j < |flow.directions|
      ensures flow.directions[i].id != flow.directions[j].id
    {
      DirectionIdsDiffer(flow.id, flow.directions[i].direction, flow.directions[j].direction);
    }
  }

  lemma DirectionToldIsValid(codec: Codec, protocol: Protocol, m: DirectionModel, routed: seq<Routed>, flowId: string)
    requires codec.Lossless() && DirectionTold(codec, protocol, m, routed, flowId)
    ensures m.id == DirectionId(flowId, m.direction) && DirectionValid(codec, protocol, m)
  {
    hide Tiled, IsAssembly, DatagramTold, Spans;
    if !protocol.TCP? {
      UdpTiled(codec, m, routed, flowId);
    }
  }
}
