/** Exactly when slices of one stream come back: which segments the half window can carry. */
module TcpWindow {
  import opened Outcomes
  import opened TcpSegments
  import opened TcpStreams

  /** `offsets` are true unbounded positions behind the 32-bit fields, wherever they lie. */
  ghost predicate TrueOffsets(segments: seq<Segment>, offsets: seq<int>) {
    |offsets| == |segments| && forall i :: 0 <= i < |segments| ==> Residue(offsets[i]) == Residue(segments[i].start)
  }

  /** The offsets that unwrapping sees: folded into the half window around the first observed segment. */
  function Folded(segments: seq<Segment>, offsets: seq<int>): (folded: seq<int>)
    requires segments != [] && |offsets| == |segments|
    ensures |folded| == |segments|
  {
    seq(|segments|, i requires 0 <= i < |segments| => Unwrap(offsets[i], offsets[FirstObserved(segments)]))
  }

  lemma FoldedOffsets(segments: seq<Segment>, offsets: seq<int>, i: nat)
    requires TrueOffsets(segments, offsets) && i < |segments|
    ensures var k, folded := FirstObserved(segments), Folded(segments, offsets);
            && Residue(folded[i]) == Residue(offsets[i]) && folded[k] == offsets[k]
            && -SEQUENCE_HALF <= folded[i] - offsets[k] < SEQUENCE_HALF
            && (folded[i] == offsets[i] <==> -SEQUENCE_HALF <= offsets[i] - offsets[k] < SEQUENCE_HALF)
            && (-SEQUENCE_HALF <= offsets[i] - offsets[k] ==> folded[i] <= offsets[i])
  {
    var k := FirstObserved(segments);
    hide Unwrap, TrueOffsets, Residue;
    assert |offsets| == |segments| by { Counted(segments, offsets); }
    FoldOne(offsets[k], offsets[k]);
    FoldOne(offsets[i], offsets[k]);
  }

  lemma Counted(segments: seq<Segment>, offsets: seq<int>)
    requires TrueOffsets(segments, offsets)
    ensures |offsets| == |segments|
  {
  }

  lemma FoldOne(offset: int, reference: int)
    ensures var folded := Unwrap(offset, reference);
            && Residue(folded) == Residue(offset)
            && -SEQUENCE_HALF <= folded - reference < SEQUENCE_HALF
            && (folded == offset <==> -SEQUENCE_HALF <= offset - reference < SEQUENCE_HALF)
            && (-SEQUENCE_HALF <= offset - reference ==> folded <= offset)
  {
    hide Unwrap;
    if -SEQUENCE_HALF <= offset - reference {
      NoHigher(offset, reference);
    }
    if -SEQUENCE_HALF <= offset - reference < SEQUENCE_HALF {
      UnwrapUnique(offset, reference, offset);
    }
  }

  lemma NoHigher(offset: int, reference: int)
    requires -SEQUENCE_HALF <= offset - reference
    ensures Unwrap(offset, reference) <= offset
  {
    var folded := Unwrap(offset, reference);
    assert (folded - offset) % SEQUENCE_MODULUS == 0;
  }

  lemma FoldedWithin(segments: seq<Segment>, offsets: seq<int>)
    requires TrueOffsets(segments, offsets) && segments != []
    ensures WithinWindow(segments, Folded(segments, offsets))
  {
    hide Unwrap, Folded;
    forall i | 0 <= i < |segments|
      ensures var k, folded := FirstObserved(segments), Folded(segments, offsets);
              Residue(folded[i]) == Residue(segments[i].start)
                  && -SEQUENCE_HALF <= folded[i] - folded[k] < SEQUENCE_HALF
    {
      FoldedOffsets(segments, offsets, i);
    }
  }

  /** The assembler judges the segments at their folded offsets. */
  lemma FoldedVerdict(segments: seq<Segment>, offsets: seq<int>, r: Result<Assembled, AssemblyError>)
    requires TrueOffsets(segments, offsets) && segments != [] && IsAssembly(Normalized(segments), r)
    ensures r.Ok? <==> Assemblable(Lifted(segments, Folded(segments, offsets)))
  {
    hide *;
    Counted(segments, offsets);
    var folded := Folded(segments, offsets);
    var lifted, shift := Lifted(segments, folded), Displacement(segments, folded);
    FoldedWithin(segments, offsets);
    NormalizedCarries(segments, folded);
    AcceptedMeans(Normalized(segments), r);
    if Assemblable(lifted) {
      CarriedAssemblable(Normalized(segments), lifted, -shift);
    }
    if Assemblable(Normalized(segments)) {
      CarriedAssemblable(lifted, Normalized(segments), shift);
    }
  }

  // ---------------------------------------------------------------- one fold for all data

  /** All data folds by the same amount `shift`, and no FIN folds beyond the end of the data. */
  ghost predicate FoldsBy(segments: seq<Segment>, offsets: seq<int>, hi: int, shift: int)
    requires segments != [] && |offsets| == |segments|
  {
    var folded := Folded(segments, offsets);
    && (forall i :: 0 <= i < |segments| && HasData(segments[i]) ==> folded[i] == offsets[i] + shift)
    && (forall i :: 0 <= i < |segments| && segments[i].fin ==> folded[i] + |segments[i].payload| <= hi + shift)
  }

  /** A folded data segment sits inside a copy of the interval, some multiple of 2^32 away. */
  lemma InSomeCopy(segments: seq<Segment>, offsets: seq<int>, stream: seq<Octet>, origin: int, lo: int, hi: int, i: nat)
    requires TrueOffsets(segments, offsets) && i < |segments| && HasData(segments[i])
    requires SlicesOf(Lifted(segments, offsets), stream, origin, lo, hi)
    ensures var u := Folded(segments, offsets)[i] - offsets[i];
            && Residue(u) == 0 && lo + u <= Folded(segments, offsets)[i]
            && Folded(segments, offsets)[i] + |segments[i].payload| <= hi + u
  {
    FoldedOffsets(segments, offsets, i);
    var s := Lifted(segments, offsets)[i];
    assert s in Lifted(segments, offsets);
    hide SlicesOf, Unwrap, Folded;
    SliceInside(Lifted(segments, offsets), stream, origin, lo, hi, s);
    Congruent(Folded(segments, offsets)[i], offsets[i]);
  }

  lemma SliceInside(lifted: seq<Segment>, stream: seq<Octet>, origin: int, lo: int, hi: int, s: Segment)
    requires SlicesOf(lifted, stream, origin, lo, hi) && s in lifted && HasData(s)
    ensures lo <= s.start && s.End() <= hi && s.payload == stream[s.start - origin..s.End() - origin]
  {
  }

  lemma Congruent(a: int, b: int)
    requires Residue(a) == Residue(b)
    ensures Residue(a - b) == 0
  {
  }

  /** Copies of an interval shorter than 2^32 do not touch: the first octet after a copy is in no copy. */
  lemma CopiesApart(lo: int, hi: int, u: int, v: int)
    requires lo <= hi < lo + SEQUENCE_MODULUS && Residue(u) == 0 && Residue(v) == 0
    ensures !(lo + v <= hi + u < hi + v)
  {
    if u < v {
      MultiplesApart(u, v);
    }
  }

  /** Data folded by different amounts leaves a hole behind the lower copy. */
  lemma TwoFoldsLeaveHole(segments: seq<Segment>, offsets: seq<int>, stream: seq<Octet>, origin: int, lo: int, hi: int,
                          i: nat, j: nat)
    requires TrueOffsets(segments, offsets) && hi - lo < SEQUENCE_MODULUS
    requires SlicesOf(Lifted(segments, offsets), stream, origin, lo, hi)
    requires i < |segments| && j < |segments| && HasData(segments[i]) && HasData(segments[j])
    requires Folded(segments, offsets)[i] - offsets[i] < Folded(segments, offsets)[j] - offsets[j]
    ensures !Assemblable(Lifted(segments, Folded(segments, offsets)))
  {
    var folded := Folded(segments, offsets);
    var lifted := Lifted(segments, folded);
    var u, v := folded[i] - offsets[i], folded[j] - offsets[j];
    var p := hi + u;
    hide SlicesOf, Folded, Unwrap, TrueOffsets, Agree, FinsReached, Residue;
    IntervalOrdered(Lifted(segments, offsets), stream, origin, lo, hi);
    InSomeCopy(segments, offsets, stream, origin, lo, hi, i);
    InSomeCopy(segments, offsets, stream, origin, lo, hi, j);
    MultiplesApart(u, v);
    BetweenCopies(segments, offsets, stream, origin, lo, hi, u);
    assert lifted[i] in lifted && lifted[j] in lifted;
    assert lifted[i].start <= p < lifted[j].End();
  }

  lemma BetweenCopies(segments: seq<Segment>, offsets: seq<int>, stream: seq<Octet>, origin: int, lo: int, hi: int,
                      u: int)
    requires TrueOffsets(segments, offsets) && segments != [] && lo <= hi < lo + SEQUENCE_MODULUS && Residue(u) == 0
    requires SlicesOf(Lifted(segments, offsets), stream, origin, lo, hi)
    ensures !Covered(Lifted(segments, Folded(segments, offsets)), hi + u)
  {
    hide SlicesOf, Folded, Unwrap, TrueOffsets, Residue;
    assert |offsets| == |segments| by { Counted(segments, offsets); }
    var folded := Folded(segments, offsets);
    var lifted := Lifted(segments, folded);
    forall s | s in lifted
      ensures !s.Holds(hi + u)
    {
      var n :| 0 <= n < |segments| && lifted[n] == s;
      if HasData(segments[n]) {
        InSomeCopy(segments, offsets, stream, origin, lo, hi, n);
        CopiesApart(lo, hi, u, folded[n] - offsets[n]);
      }
    }
  }

  lemma IntervalOrdered(lifted: seq<Segment>, stream: seq<Octet>, origin: int, lo: int, hi: int)
    requires SlicesOf(lifted, stream, origin, lo, hi)
    ensures lo <= hi
  {
  }

  lemma MultiplesApart(u: int, v: int)
    requires Residue(u) == 0 && Residue(v) == 0 && u < v
    ensures u + SEQUENCE_MODULUS <= v
  {
    assert (v - u) % SEQUENCE_MODULUS == 0;
  }

  /** With one fold, a FIN folded beyond the data leaves a terminal gap. */
  lemma FarFinRefused(segments: seq<Segment>, offsets: seq<int>, stream: seq<Octet>, origin: int, lo: int, hi: int,
                      shift: int, i: nat, j: nat)
    requires TrueOffsets(segments, offsets) && SlicesOf(Lifted(segments, offsets), stream, origin, lo, hi)
    requires i < |segments| && segments[i].fin && j < |segments| && HasData(segments[j])
    requires forall n :: 0 <= n < |segments| && HasData(segments[n]) ==>
              Folded(segments, offsets)[n] == offsets[n] + shift
    requires hi + shift < Folded(segments, offsets)[i] + |segments[i].payload|
    ensures !Assemblable(Lifted(segments, Folded(segments, offsets)))
  {
    var folded := Folded(segments, offsets);
    var lifted := Lifted(segments, folded);
    hide SlicesOf, Folded, TrueOffsets, Agree, Contiguous;
    assert lifted[i] in lifted && lifted[i].fin && lifted[j] in lifted;
    forall t | t in lifted && HasData(t)
      ensures t.End() < lifted[i].End()
    {
      var n :| 0 <= n < |segments| && lifted[n] == t;
      InSomeCopy(segments, offsets, stream, origin, lo, hi, n);
    }
  }

  lemma MovedSlice(segments: seq<Segment>, offsets: seq<int>, stream: seq<Octet>, origin: int, lo: int, hi: int, i: nat)
    requires |offsets| == |segments| && SlicesOf(Lifted(segments, offsets), stream, origin, lo, hi)
    requires i < |segments| && HasData(segments[i])
    ensures origin <= lo <= offsets[i] && offsets[i] + |segments[i].payload| <= hi <= origin + |stream|
    ensures segments[i].payload == stream[offsets[i] - origin..offsets[i] + |segments[i].payload| - origin]
  {
    assert Lifted(segments, offsets)[i] in Lifted(segments, offsets);
  }

  lemma MovedCover(segments: seq<Segment>, offsets: seq<int>, folded: seq<int>, shift: int, p: int)
    requires |offsets| == |segments| == |folded| && Covered(Lifted(segments, offsets), p)
    requires forall i :: 0 <= i < |segments| && HasData(segments[i]) ==> folded[i] == offsets[i] + shift
    ensures Covered(Lifted(segments, folded), p + shift)
  {
    var lifted, base := Lifted(segments, folded), Lifted(segments, offsets);
    var t :| t in base && t.Holds(p);
    var n :| 0 <= n < |segments| && base[n] == t;
    assert lifted[n] in lifted && lifted[n].Holds(p + shift);
  }

  /** With one fold and no FIN beyond the data, the folded segments are slices of the moved stream. */
  lemma OneFoldSlices(segments: seq<Segment>, offsets: seq<int>, stream: seq<Octet>, origin: int, lo: int, hi: int,
                      shift: int)
    requires segments != [] && TrueOffsets(segments, offsets) && FoldsBy(segments, offsets, hi, shift)
    requires SlicesOf(Lifted(segments, offsets), stream, origin, lo, hi)
    ensures SlicesOf(Lifted(segments, Folded(segments, offsets)), stream, origin + shift, lo + shift, hi + shift)
  {
    var folded := Folded(segments, offsets);
    var lifted, base := Lifted(segments, folded), Lifted(segments, offsets);
    hide Folded, TrueOffsets, Covered;
    forall s | s in lifted && HasData(s)
      ensures lo + shift <= s.start && s.End() <= hi + shift
      ensures s.payload == stream[s.start - (origin + shift)..s.End() - (origin + shift)]
    {
      var n :| 0 <= n < |segments| && lifted[n] == s;
      MovedSlice(segments, offsets, stream, origin, lo, hi, n);
    }
    forall p | lo + shift <= p < hi + shift
      ensures Covered(lifted, p)
    {
      MovedCover(segments, offsets, folded, shift, p - shift);
    }
    forall s | s in lifted && s.fin
      ensures s.End() <= hi + shift
    {
      var n :| 0 <= n < |segments| && lifted[n] == s;
    }
  }

  /** Slices of one stream over fewer than 2^32 octets assemble exactly when all data folds by one amount
      and no FIN folds beyond it; then the result is the stream. Nothing else is assumed of the window. */
  lemma OneFoldExact(segments: seq<Segment>, offsets: seq<int>, stream: seq<Octet>, origin: int, lo: int, hi: int,
                     r: Result<Assembled, AssemblyError>)
    requires TrueOffsets(segments, offsets) && SlicesOf(Lifted(segments, offsets), stream, origin, lo, hi)
    requires hi - lo < SEQUENCE_MODULUS && AnyData(segments) && IsAssembly(Normalized(segments), r)
    ensures segments != [] && (r.Ok? <==> exists shift :: FoldsBy(segments, offsets, hi, shift))
    ensures r.Ok? ==> r.value.payload == stream[lo - origin..hi - origin]
  {
    var s :| s in segments && HasData(s);
    var j :| 0 <= j < |segments| && segments[j] == s;
    var shift := Folded(segments, offsets)[j] - offsets[j];
    hide *;
    if FoldsBy(segments, offsets, hi, shift) {
      OneFoldAccepted(segments, offsets, stream, origin, lo, hi, shift, r);
    } else {
      OtherFoldsRefused(segments, offsets, stream, origin, lo, hi, j, r);
      forall other
        ensures !FoldsBy(segments, offsets, hi, other)
      {
        FoldOf(segments, offsets, hi, other, j);
      }
    }
  }

  lemma FoldOf(segments: seq<Segment>, offsets: seq<int>, hi: int, shift: int, j: nat)
    requires j < |segments| == |offsets| && HasData(segments[j])
    ensures FoldsBy(segments, offsets, hi, shift) ==> shift == Folded(segments, offsets)[j] - offsets[j]
  {
    hide Folded;
  }

  lemma OneFoldAccepted(segments: seq<Segment>, offsets: seq<int>, stream: seq<Octet>, origin: int, lo: int, hi: int,
                        shift: int, r: Result<Assembled, AssemblyError>)
    requires segments != [] && TrueOffsets(segments, offsets) && FoldsBy(segments, offsets, hi, shift)
    requires SlicesOf(Lifted(segments, offsets), stream, origin, lo, hi) && IsAssembly(Normalized(segments), r)
    ensures r.Ok? && r.value.payload == stream[lo - origin..hi - origin]
  {
    hide *;
    Counted(segments, offsets);
    FoldedWithin(segments, offsets);
    OneFoldSlices(segments, offsets, stream, origin, lo, hi, shift);
    ReconstructsTrueStream(segments, Folded(segments, offsets), stream, origin + shift, lo + shift, hi + shift, r);
  }

  lemma OtherFoldsRefused(segments: seq<Segment>, offsets: seq<int>, stream: seq<Octet>, origin: int, lo: int, hi: int,
                          j: nat, r: Result<Assembled, AssemblyError>)
    requires TrueOffsets(segments, offsets) && SlicesOf(Lifted(segments, offsets), stream, origin, lo, hi)
    requires hi - lo < SEQUENCE_MODULUS && IsAssembly(Normalized(segments), r)
    requires j < |segments| && HasData(segments[j])
    requires !FoldsBy(segments, offsets, hi, Folded(segments, offsets)[j] - offsets[j])
    ensures r.Err?
  {
    var folded := Folded(segments, offsets);
    var shift := folded[j] - offsets[j];
    hide Folded, SlicesOf, TrueOffsets, Lifted, Assemblable, Normalized, IsAssembly;
    FoldedVerdict(segments, offsets, r);
    if i: nat :| i < |segments| && HasData(segments[i]) && folded[i] != offsets[i] + shift {
      if folded[i] - offsets[i] < shift {
        TwoFoldsLeaveHole(segments, offsets, stream, origin, lo, hi, i, j);
      } else {
        TwoFoldsLeaveHole(segments, offsets, stream, origin, lo, hi, j, i);
      }
    } else {
      var i: nat :| i < |segments| && segments[i].fin && hi + shift < folded[i] + |segments[i].payload|;
      FarFinRefused(segments, offsets, stream, origin, lo, hi, shift, i, j);
    }
  }

  // ---------------------------------------------------------------- the window around a first data segment

  predicate InWindow(offset: int, reference: int) {
    -SEQUENCE_HALF <= offset - reference < SEQUENCE_HALF
  }

  /** When the first observed segment carries data and no FIN lies more than 2^31 below it, slices of one
      stream over fewer than 2^32 octets assemble if and only if all their data starts within
      [-2^31, 2^31) of that segment; then the result is the stream. */
  lemma HalfWindowIsTight(segments: seq<Segment>, offsets: seq<int>, stream: seq<Octet>, origin: int, lo: int, hi: int,
                          r: Result<Assembled, AssemblyError>)
    requires TrueOffsets(segments, offsets) && SlicesOf(Lifted(segments, offsets), stream, origin, lo, hi)
    requires hi - lo < SEQUENCE_MODULUS && IsAssembly(Normalized(segments), r)
    requires segments != [] && HasData(segments[FirstObserved(segments)])
    requires forall i :: 0 <= i < |segments| && segments[i].fin ==>
              -SEQUENCE_HALF <= offsets[i] - offsets[FirstObserved(segments)]
    ensures r.Ok? <==> forall i :: 0 <= i < |segments| && HasData(segments[i])
                         ==> InWindow(offsets[i], offsets[FirstObserved(segments)])
    ensures r.Ok? ==> r.value.payload == stream[lo - origin..hi - origin]
  {
    var k := FirstObserved(segments);
    assert segments[k] in segments;
    OneFoldExact(segments, offsets, stream, origin, lo, hi, r);
    hide Folded, SlicesOf, Lifted, Normalized, IsAssembly, TrueOffsets, InWindow, Positioned;
    forall i | 0 <= i < |segments|
      ensures HasData(segments[i]) ==>
                (Folded(segments, offsets)[i] == offsets[i] <==> InWindow(offsets[i], offsets[k]))
      ensures segments[i].fin ==> Folded(segments, offsets)[i] + |segments[i].payload| <= hi
      ensures Folded(segments, offsets)[k] == offsets[k]
    {
      FoldedOffsets(segments, offsets, i);
      if segments[i].fin {
        FinInside(segments, offsets, stream, origin, lo, hi, i);
      }
    }
    assert (forall i :: 0 <= i < |segments| && HasData(segments[i]) ==> InWindow(offsets[i], offsets[k]))
      <==> FoldsBy(segments, offsets, hi, 0);
    forall shift | FoldsBy(segments, offsets, hi, shift)
      ensures shift == 0
    {
      assert Folded(segments, offsets)[k] == offsets[k] + shift;
    }
  }

  lemma FinInside(segments: seq<Segment>, offsets: seq<int>, stream: seq<Octet>, origin: int, lo: int, hi: int, i: nat)
    requires TrueOffsets(segments, offsets) && SlicesOf(Lifted(segments, offsets), stream, origin, lo, hi)
    requires i < |segments| && segments[i].fin
    ensures offsets[i] + |segments[i].payload| <= hi
  {
    assert Lifted(segments, offsets)[i] in Lifted(segments, offsets);
  }

  // ---------------------------------------------------------------- the bound is met by ordinary packets

  const CHUNK := 0x8000

  /** A stream of equal octets cut into n packets of 32 KiB, captured in order. */
  function Chunks(octet: Octet, n: nat): seq<Segment> {
    seq(n, i => Segment(i * CHUNK, seq(CHUNK, _ => octet), false, i))
  }

  function Starts(n: nat): seq<int> {
    seq(n, i => i * CHUNK)
  }

  lemma ChunkSlices(octet: Octet, n: nat)
    requires n > 0
    ensures TrueOffsets(Chunks(octet, n), Starts(n))
    ensures SlicesOf(Lifted(Chunks(octet, n), Starts(n)), seq(n * CHUNK, _ => octet), 0, 0, n * CHUNK)
    ensures FirstObserved(Chunks(octet, n)) == 0
  {
    var chunks, lifted, stream := Chunks(octet, n), Lifted(Chunks(octet, n), Starts(n)), seq(n * CHUNK, _ => octet);
    assert chunks[0].ordinal == 0;
    assert lifted == chunks;
    forall s | s in lifted
      ensures 0 <= s.start && s.End() <= n * CHUNK && s.payload == stream[s.start..s.End()]
    {
      var i :| 0 <= i < n && chunks[i] == s;
      assert (i + 1) * CHUNK <= n * CHUNK;
    }
    forall p | 0 <= p < n * CHUNK
      ensures Covered(lifted, p)
    {
      var i := p / CHUNK;
      assert 0 <= i < n && i * CHUNK <= p < (i + 1) * CHUNK;
      assert lifted[i] in lifted && lifted[i].Holds(p);
    }
  }

  /** The window matters for packets of ordinary size: 2^31 octets sent in order in 32 KiB packets come
      back, and one packet more makes the report refuse the stream. */
  lemma OnePacketTooMany(octet: Octet, n: nat, r: Result<Assembled, AssemblyError>)
    requires n > 0 && n * CHUNK < SEQUENCE_MODULUS && IsAssembly(Normalized(Chunks(octet, n)), r)
    ensures forall s :: s in Chunks(octet, n) ==> |s.payload| == CHUNK
    ensures r.Ok? <==> n * CHUNK <= SEQUENCE_HALF
  {
    ChunkSlices(octet, n);
    var chunks, starts := Chunks(octet, n), Starts(n);
    hide SlicesOf, Lifted, TrueOffsets, Normalized, IsAssembly;
    HalfWindowIsTight(chunks, starts, seq(n * CHUNK, _ => octet), 0, 0, n * CHUNK, r);
    if n * CHUNK > SEQUENCE_HALF {
      assert n >= 0x1_0001 && starts[0x1_0000] == SEQUENCE_HALF;
      assert !InWindow(starts[0x1_0000], starts[0]);
    } else {
      assert n <= 0x1_0000;
    }
  }
}
