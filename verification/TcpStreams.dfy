/** What reassembly gives back: the true stream, whatever the arrival order. */
module TcpStreams {
  import opened Outcomes
  import opened TcpSegments

  /** A segment whose position matters: control packets without data or FIN leave no trace. */
  predicate Positioned(s: Segment) {
    HasData(s) || s.fin
  }

  /** `offsets` are true unbounded positions behind the 32-bit fields, and every segment that
      matters lies within the half window of the first observed one. */
  ghost predicate WithinWindow(segments: seq<Segment>, offsets: seq<int>) {
    && |offsets| == |segments|
    && (forall i :: 0 <= i < |segments| ==> Residue(offsets[i]) == Residue(segments[i].start))
    && (segments != [] ==>
          var k := FirstObserved(segments);
          forall i :: 0 <= i < |segments| && Positioned(segments[i])
            ==> -SEQUENCE_HALF <= offsets[i] - offsets[k] < SEQUENCE_HALF)
  }

  lemma OffsetsMatch(segments: seq<Segment>, offsets: seq<int>)
    requires WithinWindow(segments, offsets)
    ensures |offsets| == |segments|
  {
  }

  /** How far unwrapping moves every segment from its true position. */
  ghost function Displacement(segments: seq<Segment>, offsets: seq<int>): int
    requires segments != [] && |offsets| == |segments|
  {
    Reference(segments) - offsets[FirstObserved(segments)]
  }

  lemma NormalizedPosition(segments: seq<Segment>, offsets: seq<int>, i: nat)
    requires WithinWindow(segments, offsets) && i < |segments| && Positioned(segments[i])
    ensures Residue(Displacement(segments, offsets)) == 0
    ensures Normalized(segments)[i] == segments[i].(start := offsets[i] + Displacement(segments, offsets))
  {
    var k := FirstObserved(segments);
    hide Unwrap, Residue;
    OffsetMoves(segments[k].start, offsets[k], segments[i].start, offsets[i]);
  }

  /** Unwrapping relative to the reference keeps the distance between true offsets. */
  lemma OffsetMoves(first: int, firstOffset: int, start: int, offset: int)
    requires Residue(firstOffset) == Residue(first) && Residue(offset) == Residue(start)
    requires -SEQUENCE_HALF <= offset - firstOffset < SEQUENCE_HALF
    ensures Residue(Residue(first) - firstOffset) == 0
    ensures Unwrap(start, Residue(first)) == offset + (Residue(first) - firstOffset)
  {
    hide Unwrap;
    ResidueShift(first, firstOffset);
    CongruentTo(offset, Residue(first) - firstOffset);
    UnwrapUnique(start, Residue(first), offset + (Residue(first) - firstOffset));
  }

  lemma ResidueShift(first: int, firstOffset: int)
    requires Residue(firstOffset) == Residue(first)
    ensures Residue(Residue(first) - firstOffset) == 0
  {
  }

  lemma CongruentTo(position: int, shift: int)
    requires Residue(shift) == 0
    ensures Residue(position + shift) == Residue(position)
  {
  }

  /** The segments at their true offsets. */
  ghost function Lifted(segments: seq<Segment>, offsets: seq<int>): seq<Segment>
    requires |offsets| == |segments|
  {
    seq(|segments|, i requires 0 <= i < |segments| => segments[i].(start := offsets[i]))
  }

  // ---------------------------------------------------------------- invariance under moving

  /** Every segment of `from` that matters appears in `to`, moved by `shift`. */
  ghost predicate Carried(from: seq<Segment>, to: seq<Segment>, shift: int) {
    forall s :: s in from && Positioned(s)
      ==> exists t :: t in to && t.payload == s.payload && t.fin == s.fin && t.start == s.start + shift
  }

  lemma CarriedOne(from: seq<Segment>, to: seq<Segment>, shift: int, s: Segment) returns (t: Segment)
    requires Carried(from, to, shift) && s in from && Positioned(s)
    ensures t in to && t.payload == s.payload && t.fin == s.fin && t.start == s.start + shift
  {
    t :| t in to && t.payload == s.payload && t.fin == s.fin && t.start == s.start + shift;
  }

  lemma CarriedCover(from: seq<Segment>, to: seq<Segment>, shift: int, p: int)
    requires Carried(from, to, shift) && Covered(from, p)
    ensures Covered(to, p + shift)
  {
    var s :| s in from && s.Holds(p);
    hide Carried;
    var t := CarriedOne(from, to, shift, s);
    assert t.Holds(p + shift);
  }

  lemma CarriedData(from: seq<Segment>, to: seq<Segment>, shift: int)
    requires Carried(from, to, shift) && AnyData(from)
    ensures AnyData(to)
  {
    var s :| s in from && HasData(s);
    var t := CarriedOne(from, to, shift, s);
    assert HasData(t);
  }

  lemma CarriedAgree(from: seq<Segment>, to: seq<Segment>, shift: int)
    requires Carried(from, to, shift) && Agree(to)
    ensures Agree(from)
  {
    hide Carried;
    forall s, t, p | s in from && t in from && s.Holds(p) && t.Holds(p)
      ensures s.At(p) == t.At(p)
    {
      var s' := CarriedOne(from, to, shift, s);
      var t' := CarriedOne(from, to, shift, t);
      assert s'.Holds(p + shift) && t'.Holds(p + shift);
      assert s'.At(p + shift) == s.At(p) && t'.At(p + shift) == t.At(p);
    }
  }

  lemma CarriedContiguous(from: seq<Segment>, to: seq<Segment>, shift: int)
    requires Carried(from, to, shift) && Carried(to, from, -shift) && Contiguous(to)
    ensures Contiguous(from)
  {
    hide Carried, Covered;
    forall s, t, p | s in from && t in from && HasData(s) && HasData(t) && s.start <= p < t.End()
      ensures Covered(from, p)
    {
      var s' := CarriedOne(from, to, shift, s);
      var t' := CarriedOne(from, to, shift, t);
      assert HasData(s') && HasData(t') && s'.start <= p + shift < t'.End();
      assert Covered(to, p + shift);
      CarriedCover(to, from, -shift, p + shift);
    }
  }

  lemma CarriedFins(from: seq<Segment>, to: seq<Segment>, shift: int)
    requires Carried(from, to, shift) && Carried(to, from, -shift) && FinsReached(to)
    ensures FinsReached(from)
  {
    hide Carried;
    forall s | s in from && s.fin
      ensures exists t :: t in from && HasData(t) && s.End() <= t.End()
    {
      var s' := CarriedOne(from, to, shift, s);
      var t' :| t' in to && HasData(t') && s'.End() <= t'.End();
      var t := CarriedOne(to, from, -shift, t');
      assert HasData(t) && s.End() <= t.End();
    }
  }

  lemma CarriedAssemblable(from: seq<Segment>, to: seq<Segment>, shift: int)
    requires Carried(from, to, shift) && Carried(to, from, -shift) && Assemblable(to)
    ensures Assemblable(from)
  {
    hide Agree, Contiguous, FinsReached, Carried;
    if AnyData(from) {
      CarriedData(from, to, shift);
      CarriedAgree(from, to, shift);
      CarriedContiguous(from, to, shift);
      CarriedFins(from, to, shift);
    }
  }

  /** Moving all segments together changes neither the verdict nor the bytes. */
  lemma AssemblyMoves(from: seq<Segment>, to: seq<Segment>, shift: int,
                      r: Result<Assembled, AssemblyError>, r': Result<Assembled, AssemblyError>)
    requires Carried(from, to, shift) && Carried(to, from, -shift)
    requires IsAssembly(from, r) && IsAssembly(to, r')
    ensures r.Ok? == r'.Ok?
    ensures r.Ok? ==> r'.value.payload == r.value.payload
    ensures r.Ok? ==> match r.value.cursor
                      case None => r'.value.cursor == None
                      case Some(c) => r'.value.cursor == Some(c + shift)
  {
    hide *;
    AcceptedMeans(from, r);
    AcceptedMeans(to, r');
    if r.Ok? {
      CarriedAssemblable(to, from, -shift);
    }
    if r'.Ok? {
      CarriedAssemblable(from, to, shift);
    }
    if r.Ok? && AnyData(from) {
      CarriedData(from, to, shift);
      CarriedMoved(from, to, shift);
      CarriedMoved(to, from, -shift);
      RendersMoved(from, to, shift, r.value, r'.value);
      RendersEnd(from, r.value);
    } else if r.Ok? && AnyData(to) {
      CarriedData(to, from, -shift);
    }
  }

  lemma AcceptedMeans(segments: seq<Segment>, r: Result<Assembled, AssemblyError>)
    requires IsAssembly(segments, r)
    ensures r.Ok? <==> Assemblable(segments)
    ensures r.Ok? ==> Renders(segments, r.value)
    ensures r.Ok? && !AnyData(segments) ==> r.value == Assembled([], None)
    ensures r.Ok? && AnyData(segments) ==> Contiguous(segments) && r.value.cursor.Some?
  {
    hide Agree, Contiguous, FinsReached, IsLastEnd, IsFirstStart, Explains, AnyData;
  }

  lemma CarriedMoved(from: seq<Segment>, to: seq<Segment>, shift: int)
    requires Carried(from, to, shift)
    ensures Moved(from, to, shift)
  {
    forall s | s in from && HasData(s)
      ensures exists t :: t in to && t.payload == s.payload && t.start == s.start + shift
    {
      var t := CarriedOne(from, to, shift, s);
    }
  }

  lemma NormalizedCarries(segments: seq<Segment>, offsets: seq<int>)
    requires WithinWindow(segments, offsets) && segments != []
    ensures Carried(Lifted(segments, offsets), Normalized(segments), Displacement(segments, offsets))
    ensures Carried(Normalized(segments), Lifted(segments, offsets), -Displacement(segments, offsets))
  {
    var lifted, normalized, shift := Lifted(segments, offsets), Normalized(segments), Displacement(segments, offsets);
    forall s | s in lifted && Positioned(s)
      ensures exists t :: t in normalized && t.payload == s.payload && t.fin == s.fin && t.start == s.start + shift
    {
      var i :| 0 <= i < |segments| && lifted[i] == s;
      NormalizedPosition(segments, offsets, i);
      assert normalized[i] in normalized;
    }
    forall t | t in normalized && Positioned(t)
      ensures exists s :: s in lifted && s.payload == t.payload && s.fin == t.fin && s.start == t.start + -shift
    {
      var i :| 0 <= i < |segments| && normalized[i] == t;
      NormalizedPosition(segments, offsets, i);
      assert lifted[i] in lifted;
    }
  }

  // ---------------------------------------------------------------- the true stream comes back

  /** Segments at true offsets that are slices of `stream` (whose first octet sits at `origin`),
      jointly cover `lo..hi`, and close no later than `hi`. */
  ghost predicate SlicesOf(lifted: seq<Segment>, stream: seq<Octet>, origin: int, lo: int, hi: int) {
    && origin <= lo <= hi <= origin + |stream|
    && (forall s :: s in lifted && HasData(s)
         ==> lo <= s.start && s.End() <= hi && s.payload == stream[s.start - origin..s.End() - origin])
    && (forall p :: lo <= p < hi ==> Covered(lifted, p))
    && (forall s :: s in lifted && s.fin ==> s.End() <= hi)
  }

  lemma SliceAt(lifted: seq<Segment>, stream: seq<Octet>, origin: int, lo: int, hi: int, s: Segment, p: int)
    requires SlicesOf(lifted, stream, origin, lo, hi) && s in lifted && s.Holds(p)
    ensures lo <= p < hi && s.At(p) == stream[p - origin]
  {
  }

  lemma SlicesAssemblable(lifted: seq<Segment>, stream: seq<Octet>, origin: int, lo: int, hi: int)
    requires SlicesOf(lifted, stream, origin, lo, hi) && AnyData(lifted)
    ensures lo < hi && IsLastEnd(lifted, hi) && IsFirstStart(lifted, lo)
    ensures Agree(lifted) && Contiguous(lifted) && FinsReached(lifted)
  {
    assert Covered(lifted, lo) && Covered(lifted, hi - 1);
    var first :| first in lifted && first.Holds(lo);
    var last :| last in lifted && last.Holds(hi - 1);
    assert first.start == lo && last.End() == hi;
    forall s, t, p | s in lifted && t in lifted && s.Holds(p) && t.Holds(p)
      ensures s.At(p) == t.At(p)
    {
      SliceAt(lifted, stream, origin, lo, hi, s, p);
      SliceAt(lifted, stream, origin, lo, hi, t, p);
    }
  }

  lemma RoomNeedsData(lifted: seq<Segment>, stream: seq<Octet>, origin: int, lo: int, hi: int)
    requires SlicesOf(lifted, stream, origin, lo, hi)
    ensures lo < hi ==> AnyData(lifted)
  {
    if lo < hi {
      assert Covered(lifted, lo);
      var s :| s in lifted && s.Holds(lo);
      assert HasData(s);
    }
  }

  ghost function SliceResult(lifted: seq<Segment>, stream: seq<Octet>, origin: int, lo: int, hi: int)
    : Result<Assembled, AssemblyError>
    requires SlicesOf(lifted, stream, origin, lo, hi)
  {
    Ok(Assembled(stream[lo - origin..hi - origin], if AnyData(lifted) then Some(hi) else None))
  }

  lemma SliceResultMeans(lifted: seq<Segment>, stream: seq<Octet>, origin: int, lo: int, hi: int)
    requires SlicesOf(lifted, stream, origin, lo, hi)
    ensures var r := SliceResult(lifted, stream, origin, lo, hi);
            && r.Ok? && r.value.payload == stream[lo - origin..hi - origin]
            && r.value.cursor == if AnyData(lifted) then Some(hi) else None
  {
  }

  lemma SlicesRendered(lifted: seq<Segment>, stream: seq<Octet>, origin: int, lo: int, hi: int)
    requires SlicesOf(lifted, stream, origin, lo, hi)
    ensures IsAssembly(lifted, SliceResult(lifted, stream, origin, lo, hi))
  {
    if AnyData(lifted) {
      SlicesAssemblable(lifted, stream, origin, lo, hi);
      var a := Assembled(stream[lo - origin..hi - origin], Some(hi));
      hide Agree, Contiguous, FinsReached, IsLastEnd, IsFirstStart;
      forall s, p | s in lifted && s.Holds(p)
        ensures lo <= p < hi && a.payload[p - lo] == s.At(p)
      {
        SliceAt(lifted, stream, origin, lo, hi, s, p);
      }
      assert Renders(lifted, a);
    } else {
      RoomNeedsData(lifted, stream, origin, lo, hi);
    }
  }

  /** Slices of one true stream, observed in any order, with any overlap or duplication and any
      wrap of the 32-bit field, assemble to exactly the bytes they cover. */
  lemma ReconstructsTrueStream(segments: seq<Segment>, offsets: seq<int>,
                               stream: seq<Octet>, origin: int, lo: int, hi: int,
                               r: Result<Assembled, AssemblyError>)
    requires WithinWindow(segments, offsets)
    requires SlicesOf(Lifted(segments, offsets), stream, origin, lo, hi)
    requires IsAssembly(Normalized(segments), r)
    ensures r.Ok? && r.value.payload == stream[lo - origin..hi - origin]
    ensures r.value.cursor.Some? <==> AnyData(segments)
    ensures r.value.cursor.Some? ==> Residue(r.value.cursor.value) == Residue(hi)
  {
    hide *;
    OffsetsMatch(segments, offsets);
    var lifted := Lifted(segments, offsets);
    var expected := SliceResult(lifted, stream, origin, lo, hi);
    SlicesRendered(lifted, stream, origin, lo, hi);
    LiftedData(segments, offsets);
    SliceResultMeans(lifted, stream, origin, lo, hi);
    if segments == [] {
      NormalizedLength(segments);
      AssemblyUnique(lifted, r, expected);
    } else {
      FirstDisplaced(segments, offsets);
      NormalizedCarries(segments, offsets);
      AssemblyMoves(lifted, Normalized(segments), Displacement(segments, offsets), expected, r);
      CongruentTo(hi, Displacement(segments, offsets));
    }
  }

  lemma FirstDisplaced(segments: seq<Segment>, offsets: seq<int>)
    requires WithinWindow(segments, offsets) && segments != []
    ensures Residue(Displacement(segments, offsets)) == 0
  {
    var k := FirstObserved(segments);
    assert Residue(offsets[k]) == Residue(segments[k].start);
  }

  lemma LiftedData(segments: seq<Segment>, offsets: seq<int>)
    requires |offsets| == |segments|
    ensures |Lifted(segments, offsets)| == |segments|
    ensures AnyData(Lifted(segments, offsets)) <==> AnyData(segments)
  {
    var lifted := Lifted(segments, offsets);
    if AnyData(segments) {
      var s :| s in segments && HasData(s);
      var i :| 0 <= i < |segments| && segments[i] == s;
      assert lifted[i] in lifted;
    }
    if AnyData(lifted) {
      var s :| s in lifted && HasData(s);
      var i :| 0 <= i < |lifted| && lifted[i] == s;
      assert segments[i] in segments;
    }
  }

  // ---------------------------------------------------------------- order independence

  /** A choice of true offsets, one per 32-bit residue, whose pairwise distances over these
      segments fit the half window. */
  ghost predicate FitsPairwise(segments: seq<Segment>, lift: int -> int) {
    && (forall s :: s in segments ==> Residue(lift(Residue(s.start))) == Residue(s.start))
    && (forall s, t :: s in segments && t in segments
         ==> lift(Residue(s.start)) - lift(Residue(t.start)) < SEQUENCE_HALF)
  }

  /** `other` repeats all the evidence in `segments`, at any index and under any ordinal. */
  ghost predicate Repeats(segments: seq<Segment>, other: seq<Segment>) {
    forall s :: s in segments ==> exists t :: t in other && SameEvidence(s, t)
  }

  predicate SameEvidence(s: Segment, t: Segment) {
    && Residue(s.start) == Residue(t.start)
    && s.payload == t.payload && s.fin == t.fin
  }

  ghost function OffsetsBy(segments: seq<Segment>, lift: int -> int): seq<int> {
    seq(|segments|, i requires 0 <= i < |segments| => lift(Residue(segments[i].start)))
  }

  lemma PairwiseWindow(segments: seq<Segment>, lift: int -> int)
    requires FitsPairwise(segments, lift)
    ensures WithinWindow(segments, OffsetsBy(segments, lift))
  {
    var offsets := OffsetsBy(segments, lift);
    forall i | 0 <= i < |segments|
      ensures Residue(offsets[i]) == Residue(segments[i].start)
      ensures -SEQUENCE_HALF <= offsets[i] - offsets[FirstObserved(segments)] < SEQUENCE_HALF
    {
      var k := FirstObserved(segments);
      assert segments[i] in segments && segments[k] in segments;
    }
  }

  lemma LiftedRepeats(segments: seq<Segment>, other: seq<Segment>, lift: int -> int)
    requires Repeats(segments, other)
    ensures Carried(Lifted(segments, OffsetsBy(segments, lift)), Lifted(other, OffsetsBy(other, lift)), 0)
  {
    var from, to := Lifted(segments, OffsetsBy(segments, lift)), Lifted(other, OffsetsBy(other, lift));
    forall s | s in from
      ensures exists t :: t in to && t.payload == s.payload && t.fin == s.fin && t.start == s.start + 0
    {
      var i :| 0 <= i < |segments| && from[i] == s;
      assert segments[i] in segments;
      var t :| t in other && SameEvidence(segments[i], t);
      var j :| 0 <= j < |other| && other[j] == t;
      assert to[j] in to;
    }
  }

  lemma CarriedThrough(a: seq<Segment>, b: seq<Segment>, c: seq<Segment>, shift: int, further: int)
    requires Carried(a, b, shift) && Carried(b, c, further)
    ensures Carried(a, c, shift + further)
  {
    forall s | s in a && Positioned(s)
      ensures exists t :: t in c && t.payload == s.payload && t.fin == s.fin && t.start == s.start + (shift + further)
    {
      hide Carried;
      var m := CarriedOne(a, b, shift, s);
      var t := CarriedOne(b, c, further, m);
    }
  }

  lemma NormalizedAgain(segments: seq<Segment>, other: seq<Segment>, lift: int -> int, shift: int, shift': int)
    requires segments != [] && other != []
    requires FitsPairwise(segments, lift) && FitsPairwise(other, lift)
    requires Repeats(segments, other)
    requires shift == Displacement(segments, OffsetsBy(segments, lift))
    requires shift' == Displacement(other, OffsetsBy(other, lift))
    ensures Carried(Normalized(segments), Normalized(other), shift' - shift)
  {
    hide *;
    PairwiseWindow(segments, lift);
    PairwiseWindow(other, lift);
    var lifted, lifted' := Lifted(segments, OffsetsBy(segments, lift)), Lifted(other, OffsetsBy(other, lift));
    NormalizedCarries(segments, OffsetsBy(segments, lift));
    NormalizedCarries(other, OffsetsBy(other, lift));
    LiftedRepeats(segments, other, lift);
    CarriedThrough(Normalized(segments), lifted, lifted', -shift, 0);
    CarriedThrough(Normalized(segments), lifted', Normalized(other), -shift, shift');
  }

  /** The verdict, the bytes and the cursor modulo 2^32 depend only on the evidence: not on list
      order, not on capture ordinals, not on how often a segment was seen. */
  lemma OrderIndependent(segments: seq<Segment>, other: seq<Segment>, lift: int -> int,
                         r: Result<Assembled, AssemblyError>, r': Result<Assembled, AssemblyError>)
    requires FitsPairwise(segments, lift)
    requires Repeats(segments, other) && Repeats(other, segments)
    requires IsAssembly(Normalized(segments), r) && IsAssembly(Normalized(other), r')
    ensures r.Ok? == r'.Ok?
    ensures r.Ok? ==> r'.value.payload == r.value.payload
    ensures r.Ok? ==> match r.value.cursor
                      case None => r'.value.cursor == None
                      case Some(c) => r'.value.cursor.Some?
                                      && Residue(r'.value.cursor.value) == Residue(c)
  {
    hide *;
    FitsBoth(segments, other, lift);
    EmptyTogether(segments, other);
    NormalizedLength(segments);
    NormalizedLength(other);
    if segments == [] {
      AssemblyUnique(Normalized(segments), r, r');
    } else {
      PairwiseWindow(segments, lift);
      PairwiseWindow(other, lift);
      FirstDisplaced(segments, OffsetsBy(segments, lift));
      FirstDisplaced(other, OffsetsBy(other, lift));
      var shift := Displacement(segments, OffsetsBy(segments, lift));
      var shift' := Displacement(other, OffsetsBy(other, lift));
      NormalizedAgain(segments, other, lift, shift, shift');
      NormalizedAgain(other, segments, lift, shift', shift);
      assert shift - shift' == -(shift' - shift);
      AssemblyMoves(Normalized(segments), Normalized(other), shift' - shift, r, r');
      if r.Ok? && r.value.cursor.Some? {
        CongruentDifference(r.value.cursor.value, shift, shift');
      }
    }
  }

  lemma CongruentDifference(position: int, shift: int, shift': int)
    requires Residue(shift) == 0 && Residue(shift') == 0
    ensures Residue(position + (shift' - shift)) == Residue(position)
  {
  }

  lemma EmptyTogether(segments: seq<Segment>, other: seq<Segment>)
    requires Repeats(segments, other) && Repeats(other, segments)
    ensures segments == [] <==> other == []
  {
    hide Repeats, SameEvidence;
    if segments != [] {
      var t := RepeatedOne(segments, other, segments[0]);
    }
    if other != [] {
      var t := RepeatedOne(other, segments, other[0]);
    }
  }

  lemma RepeatedOne(segments: seq<Segment>, other: seq<Segment>, s: Segment) returns (t: Segment)
    requires Repeats(segments, other) && s in segments
    ensures t in other && SameEvidence(s, t)
  {
    t :| t in other && SameEvidence(s, t);
  }

  lemma FitsBoth(segments: seq<Segment>, other: seq<Segment>, lift: int -> int)
    requires FitsPairwise(segments, lift) && Repeats(other, segments)
    ensures FitsPairwise(other, lift)
  {
    forall s | s in other
      ensures Residue(lift(Residue(s.start))) == Residue(s.start)
    {
      var s' :| s' in segments && SameEvidence(s, s');
    }
    forall s, t | s in other && t in other
      ensures lift(Residue(s.start)) - lift(Residue(t.start)) < SEQUENCE_HALF
    {
      var s' :| s' in segments && SameEvidence(s, s');
      var t' :| t' in segments && SameEvidence(t, t');
    }
  }
}
