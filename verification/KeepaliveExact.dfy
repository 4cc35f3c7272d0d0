/** Which packets are keepalive probes, told by the packets' own fields and their true positions. */
module KeepaliveExact {
  import opened Outcomes
  import opened TcpSegments
  import opened Packets
  import opened Keepalive

  /** `p` runs on the same flow in the same orientation as `q`. */
  predicate FromSide(p: Routed, q: Routed) {
    && p.facts.protocol.TCP? && p.flowId == q.flowId
    && p.facts.source == q.facts.source && p.facts.destination == q.facts.destination
  }

  /** `p` runs on the same flow the other way. */
  predicate FromPeer(p: Routed, q: Routed) {
    && p.facts.protocol.TCP? && p.flowId == q.flowId
    && p.facts.source == q.facts.destination && p.facts.destination == q.facts.source
  }

  /** The 32-bit field that carries a position, and the field of the packet's first octet: a SYN takes one number. */
  predicate Fields(p: Routed, offset: int) {
    offset % 0x1_0000_0000 == (p.facts.seqno + if p.facts.flags.syn then 1 else 0) % 0x1_0000_0000
  }

  /** The highest true end of data, probes included, on the side of `q`. */
  function TopEnd(packets: seq<Routed>, offsets: seq<int>, q: Routed): Option<int>
    requires |offsets| == |packets|
  {
    if packets == [] then None
    else
      var n := |packets| - 1;
      var before := TopEnd(packets[..n], offsets[..n], q);
      var end := offsets[n] + |packets[n].facts.payload|;
      if FromSide(packets[n], q) && packets[n].facts.payload != [] && (before.Some? ==> before.value < end)
      then Some(end) else before
  }

  /** All data on the side of `q` is at its true position, and ends within 2^31 of the highest end before it. */
  ghost predicate Reaches(packets: seq<Routed>, offsets: seq<int>, q: Routed)
    requires |offsets| == |packets|
  {
    forall i :: 0 <= i < |packets| && FromSide(packets[i], q) && packets[i].facts.payload != [] ==>
      && Fields(packets[i], offsets[i])
      && var top := TopEnd(packets[..i], offsets[..i], q);
         top.Some? ==> -0x8000_0000 <= offsets[i] + |packets[i].facts.payload| - top.value < 0x8000_0000
  }

  /** The j-th packet is the last one of the peer of `q` that acknowledges anything. */
  ghost predicate LastAck(packets: seq<Routed>, q: Routed, j: nat) {
    && j < |packets| && FromPeer(packets[j], q) && packets[j].facts.flags.ack
    && forall k :: j < k < |packets| ==> !(FromPeer(packets[k], q) && packets[k].facts.flags.ack)
  }

  // ---------------------------------------------------------------- the marks, told by packets

  lemma {:induction false} AckRecorded(packets: seq<Routed>, q: Routed)
    ensures SideOf(q) in After(packets).peerAcks <==> exists j: nat :: LastAck(packets, q, j)
    ensures forall j: nat :: LastAck(packets, q, j) ==>
              SideOf(q) in After(packets).peerAcks && After(packets).peerAcks[SideOf(q)] == packets[j].facts.ack
  {
    if packets != [] {
      var n := |packets| - 1;
      AckRecorded(packets[..n], q);
      AckStep(packets, q);
      if FromPeer(packets[n], q) && packets[n].facts.flags.ack {
        assert LastAck(packets, q, n);
      } else {
        hide After;
        forall j: nat
          ensures LastAck(packets, q, j) <==> LastAck(packets[..n], q, j)
          ensures LastAck(packets, q, j) ==> packets[..n][j] == packets[j]
        {
        }
      }
    }
  }

  lemma AckStep(packets: seq<Routed>, q: Routed)
    requires packets != []
    ensures var n := |packets| - 1;
            var before, after := After(packets[..n]).peerAcks, After(packets).peerAcks;
            if FromPeer(packets[n], q) && packets[n].facts.flags.ack
            then SideOf(q) in after && after[SideOf(q)] == packets[n].facts.ack
            else (SideOf(q) in after <==> SideOf(q) in before)
                 && (SideOf(q) in before ==> after[SideOf(q)] == before[SideOf(q)])
  {
  }

  lemma ReachesPrefix(packets: seq<Routed>, offsets: seq<int>, q: Routed, n: nat)
    requires |offsets| == |packets| && n <= |packets| && Reaches(packets, offsets, q)
    ensures Reaches(packets[..n], offsets[..n], q)
  {
    hide TopEnd, Fields;
    forall i | 0 <= i < n
      ensures packets[..n][..i] == packets[..i] && offsets[..n][..i] == offsets[..i]
    {
    }
  }

  /** Probes do not count: they end exactly at the mark. So the mark is the highest end of all data. */
  lemma {:induction false} TopIsHighest(packets: seq<Routed>, offsets: seq<int>, q: Routed)
    requires |offsets| == |packets| && Reaches(packets, offsets, q)
    ensures InReach(packets, offsets, SideOf(q)) && Highest(packets, offsets, SideOf(q)) == TopEnd(packets, offsets, q)
  {
    if packets != [] {
      var n := |packets| - 1;
      ReachesPrefix(packets, offsets, q, n);
      TopIsHighest(packets[..n], offsets[..n], q);
      TopStep(packets, offsets, q);
      ReachStep(packets, offsets, q);
    }
  }

  lemma TopStep(packets: seq<Routed>, offsets: seq<int>, q: Routed)
    requires |offsets| == |packets| && packets != [] && Reaches(packets, offsets, q)
    requires var n := |packets| - 1;
             InReach(packets[..n], offsets[..n], SideOf(q))
             && Highest(packets[..n], offsets[..n], SideOf(q)) == TopEnd(packets[..n], offsets[..n], q)
    ensures Highest(packets, offsets, SideOf(q)) == TopEnd(packets, offsets, q)
  {
    var n := |packets| - 1;
    var p := packets[n];
    hide Reaches, InReach, After, IsProbe;
    if FromSide(p, q) && p.facts.payload != [] {
      ReachedLast(packets, offsets, q);
      if Probe(packets, n) {
        ProbeSize(packets, n);
        ProbeBelowMaximum(packets, offsets, n);
      }
    }
  }

  lemma ProbeSize(packets: seq<Routed>, i: nat)
    requires i < |packets| && Probe(packets, i)
    ensures |packets[i].facts.payload| == 1
  {
  }

  lemma ReachedLast(packets: seq<Routed>, offsets: seq<int>, q: Routed)
    requires |offsets| == |packets| && packets != [] && Reaches(packets, offsets, q)
    requires FromSide(packets[|packets| - 1], q) && packets[|packets| - 1].facts.payload != []
    ensures var n := |packets| - 1; var p := packets[n];
            && Residue(offsets[n]) == Residue(p.facts.Start())
            && var top := TopEnd(packets[..n], offsets[..n], q);
               top.Some? ==> -SEQUENCE_HALF <= offsets[n] + |p.facts.payload| - top.value < SEQUENCE_HALF
  {
    hide TopEnd;
  }

  lemma ReachStep(packets: seq<Routed>, offsets: seq<int>, q: Routed)
    requires |offsets| == |packets| && packets != [] && Reaches(packets, offsets, q)
    requires var n := |packets| - 1;
             InReach(packets[..n], offsets[..n], SideOf(q))
             && Highest(packets[..n], offsets[..n], SideOf(q)) == TopEnd(packets[..n], offsets[..n], q)
    ensures InReach(packets, offsets, SideOf(q))
  {
    var n, side := |packets| - 1, SideOf(q);
    if FromSide(packets[n], q) && packets[n].facts.payload != [] {
      ReachedLast(packets, offsets, q);
    }
    hide Reaches, TopEnd, Highest, Probe, Fields;
    forall i | 0 <= i < |packets| && SendsData(packets, i, side)
      ensures Residue(offsets[i]) == Residue(packets[i].facts.Start())
      ensures var high := Highest(packets[..i], offsets[..i], side);
              high.Some? ==> -SEQUENCE_HALF <= offsets[i] + |packets[i].facts.payload| - high.value < SEQUENCE_HALF
    {
      if i < n {
        SendsBefore(packets, n, i, side);
        assert packets[..n][..i] == packets[..i] && offsets[..n][..i] == offsets[..i];
        assert SendsData(packets[..n], i, side);
      }
    }
  }

  lemma SendsBefore(packets: seq<Routed>, n: nat, i: nat, side: Side)
    requires i < n <= |packets|
    ensures SendsData(packets[..n], i, side) <==> SendsData(packets, i, side)
  {
    assert packets[..n][..i] == packets[..i];
  }

  // ---------------------------------------------------------------- the classification

  /** A TCP packet in reach is a probe if and only if it carries one octet with ACK as its only flag, at the last
      position its side has sent so far, and the last acknowledgement its peer sent before it acknowledges
      exactly everything sent. A one-octet overlap alone waives nothing. */
  lemma ProbeExactly(packets: seq<Routed>, offsets: seq<int>, i: nat)
    requires |offsets| == |packets| && i < |packets| && packets[i].facts.protocol.TCP?
    requires Reaches(packets[..i + 1], offsets[..i + 1], packets[i])
    ensures var p, top := packets[i], TopEnd(packets[..i], offsets[..i], packets[i]);
            Probe(packets, i) <==>
              && |p.facts.payload| == 1 && p.facts.flags == Flags(false, true, false, false, false)
              && top.Some? && offsets[i] == top.value - 1
              && exists j: nat :: LastAck(packets[..i], p, j)
                                  && packets[j].facts.ack == top.value % 0x1_0000_0000
  {
    var p, side := packets[i], SideOf(packets[i]);
    var before, at := packets[..i], offsets[..i];
    assert packets[..i + 1][..i] == before && offsets[..i + 1][..i] == at;
    ReachesPrefix(packets[..i + 1], offsets[..i + 1], p, i);
    TopIsHighest(before, at, p);
    HighWaterMark(before, at, side);
    AckRecorded(before, p);
    if |p.facts.payload| == 1 {
      ReachedLast(packets[..i + 1], offsets[..i + 1], p);
      var top := TopEnd(before, at, p);
      if top.Some? {
        OnLastOctet(offsets[i], p.facts.Start(), top.value);
      }
    }
    hide Reaches, TopEnd, Highest, After, Residue;
  }

  lemma OnLastOctet(offset: int, start: int, top: int)
    requires Residue(offset) == Residue(start) && -SEQUENCE_HALF <= offset + 1 - top < SEQUENCE_HALF
    ensures Residue(start) == Residue(Residue(top) - 1) <==> offset == top - 1
    ensures Residue(top) == top % 0x1_0000_0000
  {
    if Residue(start) == Residue(Residue(top) - 1) {
      assert (offset - (top - 1)) % SEQUENCE_MODULUS == 0;
    }
  }
}
