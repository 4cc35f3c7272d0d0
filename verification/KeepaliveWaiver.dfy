/** Blanking acknowledged keepalive octets never loses or changes stream bytes. */
module KeepaliveWaiver {
  import opened Outcomes
  import opened TcpSegments
  import opened Packets
  import opened Keepalive

  /** Every captured data octet unwraps inside the half window of the first observed segment. */
  ghost predicate OctetsInWindow(captured: seq<Segment>) {
    forall s :: s in Normalized(captured) && HasData(s) ==> s.End() <= Reference(captured) + SEQUENCE_HALF
  }

  /** `p` is the last position of data present on both sides. */
  ghost predicate LastOctetKept(kept: seq<Segment>, captured: seq<Segment>, p: int) {
    exists s :: s in kept && s in captured && HasData(s) && s.End() - 1 == p
  }

  /** Waived, at exact positions. */
  ghost predicate Blanked(kept: seq<Segment>, captured: seq<Segment>) {
    && |kept| == |captured|
    && forall i :: 0 <= i < |kept| && kept[i] != captured[i] ==>
         && kept[i] == captured[i].(payload := [])
         && |captured[i].payload| == 1 && !captured[i].fin
         && LastOctetKept(kept, captured, captured[i].start)
  }

  /** Every waived octet equals the octet other data holds at its position. */
  ghost predicate Truthful(kept: seq<Segment>, captured: seq<Segment>) {
    |kept| == |captured| &&
    forall i, s :: 0 <= i < |captured| && s in kept && kept[i] != captured[i]
                   && captured[i].Holds(captured[i].start) && s.Holds(captured[i].start)
      ==> s.At(captured[i].start) == captured[i].At(captured[i].start)
  }

  // ---------------------------------------------------------------- from 32-bit to exact positions

  lemma SameFirst(kept: seq<Segment>, captured: seq<Segment>)
    requires Waived(kept, captured) && kept != []
    ensures FirstObserved(kept) == FirstObserved(captured) && Reference(kept) == Reference(captured)
  {
    var k, k' := FirstObserved(kept), FirstObserved(captured);
    assert forall i :: 0 <= i < |kept| ==> kept[i].ordinal == captured[i].ordinal && kept[i].start == captured[i].start;
    assert kept[k].ordinal <= kept[k'].ordinal && captured[k'].ordinal <= captured[k].ordinal;
  }

  lemma LastOctetExact(captured: seq<Segment>, i: nat, j: nat)
    requires i < |captured| && j < |captured| && HasData(captured[j]) && OctetsInWindow(captured)
    requires Residue(captured[j].End() - 1) == Residue(captured[i].start)
    ensures Normalized(captured)[j].End() - 1 == Normalized(captured)[i].start
  {
    var t := Normalized(captured)[j];
    assert t in Normalized(captured) && HasData(t);
    assert Residue(t.End() - 1) == Residue(captured[i].start) by {
      ResidueSum(t.start, captured[j].start, |t.payload| - 1);
    }
    UnwrapUnique(captured[i].start, Reference(captured), t.End() - 1);
  }

  lemma NormalizedBlanked(kept: seq<Segment>, captured: seq<Segment>)
    requires Waived(kept, captured) && OctetsInWindow(captured)
    ensures Blanked(Normalized(kept), Normalized(captured))
  {
    if kept != [] {
      SameFirst(kept, captured);
      var K, R := Normalized(kept), Normalized(captured);
      forall i | 0 <= i < |K| && K[i] != R[i]
        ensures kept[i] == captured[i].(payload := []) && |captured[i].payload| == 1 && !captured[i].fin
        ensures LastOctetKept(K, R, R[i].start)
      {
        assert kept[i] != captured[i];
        var j: nat :| EndsAt(kept, captured, j, captured[i].start);
        LastOctetExact(captured, i, j);
        assert K[j] == R[j] && K[j] in K && R[j] in R;
      }
    }
  }

  // ---------------------------------------------------------------- what blanking keeps

  /** Data of the captured list, or the kept data that ends at the same octet. */
  lemma Keeper(kept: seq<Segment>, captured: seq<Segment>, s: Segment) returns (t: Segment)
    requires Blanked(kept, captured) && s in captured && HasData(s)
    ensures t in kept && t in captured && HasData(t) && t.End() == s.End() && t.start <= s.start
    ensures s in kept ==> t == s
  {
    if s in kept {
      t := s;
    } else {
      var i :| 0 <= i < |captured| && captured[i] == s;
      assert kept[i] in kept;
      t :| t in kept && t in captured && HasData(t) && t.End() - 1 == s.start;
    }
  }

  lemma KeptIsCaptured(kept: seq<Segment>, captured: seq<Segment>, s: Segment)
    requires Blanked(kept, captured) && s in kept && HasData(s)
    ensures s in captured
  {
    var i :| 0 <= i < |kept| && kept[i] == s;
    assert captured[i] in captured;
  }

  lemma SameCover(kept: seq<Segment>, captured: seq<Segment>, p: int)
    requires Blanked(kept, captured)
    ensures Covered(kept, p) <==> Covered(captured, p)
  {
    if Covered(kept, p) {
      var s :| s in kept && s.Holds(p);
      hide Blanked;
      KeptIsCaptured(kept, captured, s);
    }
    if Covered(captured, p) {
      var s :| s in captured && s.Holds(p);
      hide Blanked;
      var t := Keeper(kept, captured, s);
      assert t.Holds(p);
    }
  }

  lemma SameAnyData(kept: seq<Segment>, captured: seq<Segment>)
    requires Blanked(kept, captured)
    ensures AnyData(kept) <==> AnyData(captured)
  {
    if AnyData(kept) {
      var s :| s in kept && HasData(s);
      hide Blanked;
      KeptIsCaptured(kept, captured, s);
    }
    if AnyData(captured) {
      var s :| s in captured && HasData(s);
      hide Blanked;
      var t := Keeper(kept, captured, s);
    }
  }

  /** Blanking neither opens nor closes a gap. */
  lemma SameContiguity(kept: seq<Segment>, captured: seq<Segment>)
    requires Blanked(kept, captured)
    ensures Contiguous(kept) <==> Contiguous(captured)
  {
    hide Blanked, Covered;
    if Contiguous(captured) {
      forall s, t, p | s in kept && t in kept && HasData(s) && HasData(t) && s.start <= p < t.End()
        ensures Covered(kept, p)
      {
        KeptIsCaptured(kept, captured, s);
        KeptIsCaptured(kept, captured, t);
        SameCover(kept, captured, p);
      }
    }
    if Contiguous(kept) {
      forall s, t, p | s in captured && t in captured && HasData(s) && HasData(t) && s.start <= p < t.End()
        ensures Covered(captured, p)
      {
        var s' := Keeper(kept, captured, s);
        var t' := Keeper(kept, captured, t);
        SameCover(kept, captured, p);
      }
    }
  }

  lemma FinUntouched(kept: seq<Segment>, captured: seq<Segment>, s: Segment)
    requires Blanked(kept, captured) && s.fin
    ensures s in kept <==> s in captured
  {
    if s in kept {
      var i :| 0 <= i < |kept| && kept[i] == s;
      assert captured[i] in captured;
    }
    if s in captured {
      var i :| 0 <= i < |captured| && captured[i] == s;
      assert kept[i] in kept;
    }
  }

  lemma SameFins(kept: seq<Segment>, captured: seq<Segment>)
    requires Blanked(kept, captured)
    ensures FinsReached(kept) <==> FinsReached(captured)
  {
    hide Blanked;
    if FinsReached(kept) {
      forall s | s in captured && s.fin
        ensures exists t :: t in captured && HasData(t) && s.End() <= t.End()
      {
        FinUntouched(kept, captured, s);
        var t :| t in kept && HasData(t) && s.End() <= t.End();
        KeptIsCaptured(kept, captured, t);
      }
    }
    if FinsReached(captured) {
      forall s | s in kept && s.fin
        ensures exists t :: t in kept && HasData(t) && s.End() <= t.End()
      {
        FinUntouched(kept, captured, s);
        var t :| t in captured && HasData(t) && s.End() <= t.End();
        var t' := Keeper(kept, captured, t);
      }
    }
  }

  lemma AgreeNarrows(kept: seq<Segment>, captured: seq<Segment>)
    requires Blanked(kept, captured) && Agree(captured)
    ensures Agree(kept)
  {
    hide Blanked;
    forall s, t, p | s in kept && t in kept && s.Holds(p) && t.Holds(p)
      ensures s.At(p) == t.At(p)
    {
      KeptIsCaptured(kept, captured, s);
      KeptIsCaptured(kept, captured, t);
    }
  }

  /** A captured octet at `p` also appears in kept data, if the waived octets are truthful. */
  lemma SameOctet(kept: seq<Segment>, captured: seq<Segment>, s: Segment, p: int) returns (t: Segment)
    requires Blanked(kept, captured) && Truthful(kept, captured) && s in captured && s.Holds(p)
    ensures t in kept && t.Holds(p) && t.At(p) == s.At(p)
  {
    t := Keeper(kept, captured, s);
    if s !in kept {
      var i :| 0 <= i < |captured| && captured[i] == s;
      assert kept[i] in kept;
      assert t in kept && kept[i] != captured[i] && captured[i].Holds(captured[i].start) && t.Holds(captured[i].start);
    }
  }

  lemma AgreeWidens(kept: seq<Segment>, captured: seq<Segment>)
    requires Blanked(kept, captured) && Truthful(kept, captured) && Agree(kept)
    ensures Agree(captured)
  {
    hide Blanked, Truthful;
    forall s, t, p | s in captured && t in captured && s.Holds(p) && t.Holds(p)
      ensures s.At(p) == t.At(p)
    {
      var s' := SameOctet(kept, captured, s, p);
      var t' := SameOctet(kept, captured, t, p);
    }
  }

  lemma AgreeMeansTruthful(kept: seq<Segment>, captured: seq<Segment>)
    requires Blanked(kept, captured) && Agree(captured)
    ensures Truthful(kept, captured)
  {
    forall i, s | 0 <= i < |captured| && s in kept && kept[i] != captured[i]
                  && captured[i].Holds(captured[i].start) && s.Holds(captured[i].start)
      ensures s.At(captured[i].start) == captured[i].At(captured[i].start)
    {
      KeptIsCaptured(kept, captured, s);
      assert captured[i] in captured;
    }
  }

  lemma RendersNarrows(kept: seq<Segment>, captured: seq<Segment>, a: Assembled)
    requires Blanked(kept, captured) && AnyData(captured) && Renders(captured, a)
    ensures Renders(kept, a)
  {
    SameAnyData(kept, captured);
    var last :| last in captured && HasData(last) && last.End() == a.cursor.value;
    var first :| first in captured && HasData(first) && first.start == a.cursor.value - |a.payload|;
    hide Blanked;
    var last' := Keeper(kept, captured, last);
    var first' := Keeper(kept, captured, first);
    forall s | s in kept && HasData(s)
      ensures s in captured
    {
      KeptIsCaptured(kept, captured, s);
    }
    assert IsLastEnd(kept, a.cursor.value);
    assert IsFirstStart(kept, a.cursor.value - |a.payload|);
  }

  lemma KeptAssemblable(kept: seq<Segment>, captured: seq<Segment>)
    requires Blanked(kept, captured) && Assemblable(captured)
    ensures Assemblable(kept)
  {
    hide Blanked, Agree, Contiguous, FinsReached, AnyData;
    SameAnyData(kept, captured);
    SameContiguity(kept, captured);
    SameFins(kept, captured);
    if AnyData(captured) {
      AgreeNarrows(kept, captured);
    }
  }

  lemma CapturedAssemblable(kept: seq<Segment>, captured: seq<Segment>)
    requires Blanked(kept, captured) && Assemblable(kept)
    ensures Assemblable(captured) <==> (AnyData(captured) ==> Truthful(kept, captured))
  {
    hide Blanked, Agree, Contiguous, FinsReached, AnyData, Truthful;
    SameAnyData(kept, captured);
    SameContiguity(kept, captured);
    SameFins(kept, captured);
    if AnyData(captured) {
      if Truthful(kept, captured) {
        AgreeWidens(kept, captured);
      }
      if Assemblable(captured) {
        AgreeMeansTruthful(kept, captured);
      }
    }
  }

  lemma OkWith(segments: seq<Segment>, a: Assembled)
    requires Assemblable(segments) && Renders(segments, a)
    ensures IsAssembly(segments, Ok(a))
  {
    hide Assemblable, Renders;
  }

  lemma VerdictOf(segments: seq<Segment>, r: Result<Assembled, AssemblyError>)
    requires IsAssembly(segments, r)
    ensures r.Ok? <==> Assemblable(segments)
    ensures r.Ok? ==> Renders(segments, r.value)
    ensures r.Ok? && !AnyData(segments) ==> r.value == Assembled([], None)
  {
    hide Assemblable, Explains, AnyData, IsLastEnd, IsFirstStart;
  }

  lemma BlankingSafe(kept: seq<Segment>, captured: seq<Segment>,
                     r: Result<Assembled, AssemblyError>, r': Result<Assembled, AssemblyError>)
    requires Blanked(kept, captured)
    requires IsAssembly(kept, r) && IsAssembly(captured, r')
    ensures r'.Ok? ==> r == r'
    ensures r.Ok? && AnyData(captured) ==> (r'.Ok? <==> Truthful(kept, captured))
    ensures Contiguous(kept) <==> Contiguous(captured)
  {
    hide *;
    VerdictOf(kept, r);
    VerdictOf(captured, r');
    SameAnyData(kept, captured);
    SameContiguity(kept, captured);
    if r'.Ok? {
      KeptAssemblable(kept, captured);
      if AnyData(captured) {
        RendersNarrows(kept, captured, r'.value);
        OkWith(kept, r'.value);
        AssemblyUnique(kept, r, Ok(r'.value));
      }
    }
    if r.Ok? {
      CapturedAssemblable(kept, captured);
    }
  }

  /** On every run: waiving the probes of a flow direction neither opens nor closes a gap, leaves
      every stream that was acceptable with the probes' octets byte for byte as it was, and the two
      readings part only where a probe's octet was untruthful. */
  lemma WaiverSafe(packets: seq<Routed>, flowId: string, direction: Direction,
                   r: Result<Assembled, AssemblyError>, r': Result<Assembled, AssemblyError>)
    requires forall i :: 0 <= i < |packets| && Belongs(packets[i], flowId, direction)
               ==> Stable(packets, SideOf(packets[i]), direction)
    requires OctetsInWindow(Captured(packets, flowId, direction))
    requires IsAssembly(Normalized(Kept(packets, flowId, direction)), r)
    requires IsAssembly(Normalized(Captured(packets, flowId, direction)), r')
    ensures Contiguous(Normalized(Kept(packets, flowId, direction)))
       <==> Contiguous(Normalized(Captured(packets, flowId, direction)))
    ensures r'.Ok? ==> r == r'
    ensures r.Ok? && AnyData(Normalized(Captured(packets, flowId, direction))) ==>
              (r'.Ok? <==> Truthful(Normalized(Kept(packets, flowId, direction)),
                                    Normalized(Captured(packets, flowId, direction))))
  {
    hide *;
    RunWaives(packets, flowId, direction);
    var kept, captured := Kept(packets, flowId, direction), Captured(packets, flowId, direction);
    NormalizedBlanked(kept, captured);
    BlankingSafe(Normalized(kept), Normalized(captured), r, r');
  }
}
