/** The high-water mark, the peer's acknowledgement, and the keepalive waiver they justify. */
module Keepalive {
  import opened Outcomes
  import opened TcpSegments
  import opened Packets

  datatype Side = Side(flowId: string, orientation: Orientation)

  /** Per side: the highest data end sent so far (mod 2^32) and the peer's latest acknowledgement. */
  datatype Marks = Marks(sentEnds: map<Side, int>, peerAcks: map<Side, int>)

  const NO_MARKS := Marks(map[], map[])

  function SideOf(p: Routed): Side {
    Side(p.flowId, p.facts.Orient())
  }

  function PeerOf(p: Routed): Side {
    Side(p.flowId, p.facts.Orient().Reverse())
  }

  /** One pure-ACK octet just below the side's own mark, when the peer acknowledged exactly that mark. */
  predicate IsProbe(marks: Marks, p: Routed) {
    var side := SideOf(p);
    && |p.facts.payload| == 1
    && p.facts.flags == ONLY_ACK
    && side in marks.sentEnds
    && Residue(p.facts.Start()) == Residue(marks.sentEnds[side] - 1)
    && side in marks.peerAcks && marks.peerAcks[side] == marks.sentEnds[side]
  }

  predicate Advances(marks: Marks, p: Routed) {
    var side := SideOf(p);
    && !IsProbe(marks, p) && p.facts.payload != []
    && (side in marks.sentEnds ==>
          0 < Residue(DataEnd(p) - marks.sentEnds[side]) < SEQUENCE_HALF)
  }

  function DataEnd(p: Routed): int {
    Residue(p.facts.Start() + |p.facts.payload|)
  }

  function Mark(marks: Marks, p: Routed): Marks {
    var sent := if Advances(marks, p) then marks.sentEnds[SideOf(p) := DataEnd(p)] else marks.sentEnds;
    var acks := if p.facts.flags.ack then marks.peerAcks[PeerOf(p) := p.facts.ack] else marks.peerAcks;
    Marks(sent, acks)
  }

  /** The marks after a run of packets; only TCP packets leave any. */
  function After(packets: seq<Routed>): Marks {
    if packets == [] then NO_MARKS
    else
      var n := |packets| - 1;
      var marks := After(packets[..n]);
      if packets[n].facts.protocol.TCP? then Mark(marks, packets[n]) else marks
  }

  predicate Probe(packets: seq<Routed>, i: nat)
    requires i < |packets|
  {
    packets[i].facts.protocol.TCP? && IsProbe(After(packets[..i]), packets[i])
  }

  predicate SendsData(packets: seq<Routed>, i: nat, side: Side)
    requires i < |packets|
  {
    && packets[i].facts.protocol.TCP? && SideOf(packets[i]) == side
    && packets[i].facts.payload != [] && !Probe(packets, i)
  }

  // ---------------------------------------------------------------- the mark is the running maximum

  function Higher(a: Option<int>, end: int): int {
    if a.None? || a.value < end then end else a.value
  }

  /** The highest true data end of `side` so far. */
  function Highest(packets: seq<Routed>, offsets: seq<int>, side: Side): Option<int>
    requires |offsets| == |packets|
  {
    if packets == [] then None
    else
      var n := |packets| - 1;
      var before := Highest(packets[..n], offsets[..n], side);
      if SendsData(packets, n, side) then Some(Higher(before, offsets[n] + |packets[n].facts.payload|)) else before
  }

  /** Every data end of `side` stays within the half window of the running maximum. */
  ghost predicate InReach(packets: seq<Routed>, offsets: seq<int>, side: Side)
    requires |offsets| == |packets|
  {
    forall i :: 0 <= i < |packets| && SendsData(packets, i, side) ==>
      && Residue(offsets[i]) == Residue(packets[i].facts.Start())
      && var high := Highest(packets[..i], offsets[..i], side);
         high.Some? ==> -SEQUENCE_HALF <= offsets[i] + |packets[i].facts.payload| - high.value < SEQUENCE_HALF
  }

  lemma PrefixInReach(packets: seq<Routed>, offsets: seq<int>, side: Side, n: nat)
    requires |offsets| == |packets| && n <= |packets| && InReach(packets, offsets, side)
    ensures InReach(packets[..n], offsets[..n], side)
  {
    forall i | 0 <= i < n && SendsData(packets[..n], i, side)
      ensures SendsData(packets, i, side)
      ensures packets[..n][..i] == packets[..i] && offsets[..n][..i] == offsets[..i]
    {
      assert packets[..n][..i] == packets[..i];
    }
  }

  lemma AdvanceIsMaximum(end: int, mark: int)
    requires -SEQUENCE_HALF <= end - mark < SEQUENCE_HALF
    ensures 0 < Residue(Residue(end) - Residue(mark)) < SEQUENCE_HALF <==> mark < end
  {
    assert Residue(Residue(end) - Residue(mark)) == Residue(end - mark);
  }

  lemma ResidueSum(a: int, b: int, n: int)
    requires Residue(a) == Residue(b)
    ensures Residue(a + n) == Residue(b + n)
  {
  }

  /** While data stays in reach, the 32-bit mark is exactly the true running maximum. */
  lemma {:induction false} HighWaterMark(packets: seq<Routed>, offsets: seq<int>, side: Side)
    requires |offsets| == |packets| && InReach(packets, offsets, side)
    ensures side in After(packets).sentEnds <==> Highest(packets, offsets, side).Some?
    ensures side in After(packets).sentEnds ==>
              After(packets).sentEnds[side] == Residue(Highest(packets, offsets, side).value)
  {
    if packets == [] {
    } else {
      var n := |packets| - 1;
      var p, marks := packets[n], After(packets[..n]);
      PrefixInReach(packets, offsets, side, n);
      HighWaterMark(packets[..n], offsets[..n], side);
      if SendsData(packets, n, side) {
        var high := Highest(packets[..n], offsets[..n], side);
        ResidueSum(offsets[n], p.facts.Start(), |p.facts.payload|);
        if high.Some? {
          AdvanceIsMaximum(offsets[n] + |p.facts.payload|, high.value);
        }
      }
    }
  }

  /** A probe in reach sits on the very last octet the side has sent. */
  lemma ProbeBelowMaximum(packets: seq<Routed>, offsets: seq<int>, i: nat)
    requires |offsets| == |packets| && i < |packets| && Probe(packets, i)
    requires InReach(packets[..i], offsets[..i], SideOf(packets[i]))
    requires Residue(offsets[i]) == Residue(packets[i].facts.Start())
    ensures Highest(packets[..i], offsets[..i], SideOf(packets[i])).Some?
    ensures var high := Highest(packets[..i], offsets[..i], SideOf(packets[i])).value;
            -SEQUENCE_HALF <= offsets[i] + 1 - high < SEQUENCE_HALF ==> offsets[i] == high - 1
  {
    var side := SideOf(packets[i]);
    HighWaterMark(packets[..i], offsets[..i], side);
    hide After, InReach, Highest, Residue;
    OneBelow(offsets[i], packets[i].facts.Start(), Highest(packets[..i], offsets[..i], side).value);
  }

  lemma OneBelow(offset: int, start: int, high: int)
    requires Residue(offset) == Residue(start) && Residue(start) == Residue(Residue(high) - 1)
    ensures -SEQUENCE_HALF <= offset + 1 - high < SEQUENCE_HALF ==> offset == high - 1
  {
    assert (offset - (high - 1)) % SEQUENCE_MODULUS == 0;
  }

  // ---------------------------------------------------------------- the segment lists

  predicate Belongs(p: Routed, flowId: string, direction: Direction) {
    p.facts.protocol.TCP? && p.flowId == flowId && p.direction == direction
  }

  /** The segment handed to the assembler: a probe keeps its place but loses its octet. */
  function KeptSegment(marks: Marks, p: Routed): Segment {
    Segment(p.facts.Start(), if IsProbe(marks, p) then [] else p.facts.payload, p.facts.flags.fin, p.ordinal)
  }

  function CapturedSegment(p: Routed): Segment {
    Segment(p.facts.Start(), p.facts.payload, p.facts.flags.fin, p.ordinal)
  }

  /** The assembler's input for one flow direction. */
  function Kept(packets: seq<Routed>, flowId: string, direction: Direction): seq<Segment> {
    if packets == [] then []
    else
      var n := |packets| - 1;
      var kept := Kept(packets[..n], flowId, direction);
      if Belongs(packets[n], flowId, direction) then kept + [KeptSegment(After(packets[..n]), packets[n])] else kept
  }

  /** The same list with every octet as captured. */
  function Captured(packets: seq<Routed>, flowId: string, direction: Direction): seq<Segment> {
    if packets == [] then []
    else
      var n := |packets| - 1;
      var captured := Captured(packets[..n], flowId, direction);
      if Belongs(packets[n], flowId, direction) then captured + [CapturedSegment(packets[n])] else captured
  }

  /** All TCP packets of the flow with this orientation were given this direction. */
  ghost predicate Stable(packets: seq<Routed>, side: Side, direction: Direction) {
    forall i :: 0 <= i < |packets| && packets[i].facts.protocol.TCP? && SideOf(packets[i]) == side
      ==> packets[i].direction == direction
  }

  /** `j` holds the unwaived data whose last octet has the 32-bit position `last`. */
  predicate EndsAt(kept: seq<Segment>, captured: seq<Segment>, j: nat, last: int)
    requires |kept| == |captured|
  {
    j < |kept| && kept[j] == captured[j] && HasData(kept[j]) && Residue(kept[j].End() - 1) == Residue(last)
  }

  ghost predicate HeldAt(kept: seq<Segment>, captured: seq<Segment>, last: int) {
    |kept| == |captured| && exists j: nat :: EndsAt(kept, captured, j, last)
  }

  /** Each segment is as captured, or is a waived octet already held by the end of other data. */
  ghost predicate Waived(kept: seq<Segment>, captured: seq<Segment>) {
    && |kept| == |captured|
    && forall i :: 0 <= i < |kept| ==>
         || kept[i] == captured[i]
         || (&& kept[i] == captured[i].(payload := [])
             && |captured[i].payload| == 1 && !captured[i].fin
             && HeldAt(kept, captured, captured[i].start))
  }

  lemma HeldGrows(kept: seq<Segment>, captured: seq<Segment>, last: int, s: Segment, s': Segment)
    requires HeldAt(kept, captured, last)
    ensures HeldAt(kept + [s], captured + [s'], last)
  {
    var j: nat :| EndsAt(kept, captured, j, last);
    assert EndsAt(kept + [s], captured + [s'], j, last);
  }

  lemma HeldCongruent(kept: seq<Segment>, captured: seq<Segment>, last: int, last': int)
    requires HeldAt(kept, captured, last) && Residue(last) == Residue(last')
    ensures HeldAt(kept, captured, last')
  {
    var j: nat :| EndsAt(kept, captured, j, last);
    assert EndsAt(kept, captured, j, last');
  }

  lemma {:induction false} SameLength(packets: seq<Routed>, flowId: string, direction: Direction)
    ensures |Kept(packets, flowId, direction)| == |Captured(packets, flowId, direction)|
  {
    if packets != [] {
      SameLength(packets[..|packets| - 1], flowId, direction);
    }
  }

  /** Whatever the windows, a recorded mark is the end of unwaived data in the side's own list. */
  lemma {:induction false} MarkIsHeld(packets: seq<Routed>, side: Side, direction: Direction)
    requires Stable(packets, side, direction) && side in After(packets).sentEnds
    ensures HeldAt(Kept(packets, side.flowId, direction), Captured(packets, side.flowId, direction),
                   After(packets).sentEnds[side] - 1)
  {
    SameLength(packets, side.flowId, direction);
    var n := |packets| - 1;
    var p, marks := packets[n], After(packets[..n]);
    var kept, captured := Kept(packets[..n], side.flowId, direction), Captured(packets[..n], side.flowId, direction);
    SameLength(packets[..n], side.flowId, direction);
    if p.facts.protocol.TCP? && Advances(marks, p) && SideOf(p) == side {
      assert Belongs(p, side.flowId, direction);
      var grown, grown' := kept + [KeptSegment(marks, p)], captured + [CapturedSegment(p)];
      assert Kept(packets, side.flowId, direction) == grown && Captured(packets, side.flowId, direction) == grown';
      assert Residue(grown[|kept|].End() - 1) == Residue(DataEnd(p) - 1);
      assert EndsAt(grown, grown', |kept|, DataEnd(p) - 1);
    } else {
      assert Stable(packets[..n], side, direction);
      MarkIsHeld(packets[..n], side, direction);
      if Belongs(p, side.flowId, direction) {
        HeldGrows(kept, captured, marks.sentEnds[side] - 1, KeptSegment(marks, p), CapturedSegment(p));
      }
    }
  }

  /** Every run of packets waives only octets that the same list already holds. */
  lemma {:induction false} RunWaives(packets: seq<Routed>, flowId: string, direction: Direction)
    requires forall i :: 0 <= i < |packets| && Belongs(packets[i], flowId, direction)
               ==> Stable(packets, SideOf(packets[i]), direction)
    ensures Waived(Kept(packets, flowId, direction), Captured(packets, flowId, direction))
  {
    if packets != [] {
      var n := |packets| - 1;
      var p, marks := packets[n], After(packets[..n]);
      forall i | 0 <= i < n && Belongs(packets[..n][i], flowId, direction)
        ensures Stable(packets[..n], SideOf(packets[..n][i]), direction)
      {
        assert Stable(packets, SideOf(packets[i]), direction);
      }
      RunWaives(packets[..n], flowId, direction);
      var kept, captured := Kept(packets[..n], flowId, direction), Captured(packets[..n], flowId, direction);
      if Belongs(p, flowId, direction) {
        var s, s' := KeptSegment(marks, p), CapturedSegment(p);
        if IsProbe(marks, p) {
          assert Stable(packets, SideOf(p), direction);
          assert Stable(packets[..n], SideOf(p), direction);
          MarkIsHeld(packets[..n], SideOf(p), direction);
          HeldCongruent(kept, captured, marks.sentEnds[SideOf(p)] - 1, s'.start);
        }
        WaivedGrows(kept, captured, s, s');
      }
    }
  }

  lemma WaivedGrows(kept: seq<Segment>, captured: seq<Segment>, s: Segment, s': Segment)
    requires Waived(kept, captured)
    requires || s == s'
             || (&& s == s'.(payload := []) && |s'.payload| == 1 && !s'.fin
                 && HeldAt(kept, captured, s'.start))
    ensures Waived(kept + [s], captured + [s'])
  {
    var grown, grown' := kept + [s], captured + [s'];
    forall i | 0 <= i < |grown| && grown[i] != grown'[i]
      ensures HeldAt(grown, grown', grown'[i].start)
    {
      HeldGrows(kept, captured, grown'[i].start, s, s');
    }
  }
}
