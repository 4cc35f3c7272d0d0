/** Sequence unwrapping and cursor-based reassembly of one TCP direction. */
module TcpSegments {
  import opened Outcomes
  import Sorting

  type Octet = bv8

  const SEQUENCE_MODULUS := 0x1_0000_0000
  const SEQUENCE_HALF := 0x8000_0000

  /** One captured segment; `start` is the raw 32-bit field (plus one for a SYN) before
      normalization and an unwrapped integer after it. */
  datatype Segment = Segment(start: int, payload: seq<Octet>, fin: bool, ordinal: int) {
    function End(): int {
      start + |payload|
    }

    predicate Holds(p: int) {
      start <= p < End()
    }

    function At(p: int): Octet
      requires Holds(p)
    {
      payload[p - start]
    }
  }

  // ---------------------------------------------------------------- unwrapping

  /** The first of the segments with the lowest ordinal. */
  function FirstObserved(segments: seq<Segment>): (k: nat)
    requires segments != []
    ensures k < |segments|
    ensures forall i :: 0 <= i < |segments| ==> segments[k].ordinal <= segments[i].ordinal
    ensures forall i :: 0 <= i < k ==> segments[k].ordinal < segments[i].ordinal
  {
    var last := |segments| - 1;
    if last == 0 then 0
    else
      var k := FirstObserved(segments[..last]);
      assert forall i :: 0 <= i < last ==> segments[..last][i] == segments[i];
      if segments[last].ordinal < segments[k].ordinal then last else k
  }

  /** The 32-bit field that carries a position. */
  function Residue(position: int): int {
    position % SEQUENCE_MODULUS
  }

  /** The signed modular distance from `reference`, added back to it. */
  function Unwrap(raw: int, reference: int): (position: int)
    ensures Residue(position) == Residue(raw)
    ensures -SEQUENCE_HALF <= position - reference < SEQUENCE_HALF
  {
    reference + (Residue(raw) - reference + SEQUENCE_HALF) % SEQUENCE_MODULUS - SEQUENCE_HALF
  }

  lemma UnwrapUnique(raw: int, reference: int, position: int)
    requires Residue(position) == Residue(raw)
    requires -SEQUENCE_HALF <= position - reference < SEQUENCE_HALF
    ensures Unwrap(raw, reference) == position
  {
    var other := Unwrap(raw, reference);
    assert (other - position) % SEQUENCE_MODULUS == 0;
  }

  function Reference(segments: seq<Segment>): int
    requires segments != []
  {
    Residue(segments[FirstObserved(segments)].start)
  }

  function Normalized(segments: seq<Segment>): seq<Segment> {
    seq(|segments|, i requires 0 <= i < |segments| =>
      segments[i].(start := Unwrap(segments[i].start, Reference(segments))))
  }

  lemma NormalizedLength(segments: seq<Segment>)
    ensures |Normalized(segments)| == |segments|
  {
  }

  method NormalizeTcpSegments(segments: seq<Segment>) returns (normalized: seq<Segment>)
    ensures normalized == Normalized(segments)
  {
    if segments == [] {
      return [];
    }
    var first := segments[FirstObserved(segments)];
    var reference := Residue(first.start);
    normalized := [];
    for i := 0 to |segments|
      invariant normalized == Normalized(segments)[..i]
    {
      var raw := Residue(segments[i].start);
      var delta := (raw - reference + SEQUENCE_HALF) % SEQUENCE_MODULUS - SEQUENCE_HALF;
      normalized := normalized + [segments[i].(start := reference + delta)];
    }
  }

  // ---------------------------------------------------------------- what a faithful assembly is

  predicate HasData(s: Segment) {
    s.payload != []
  }

  ghost predicate AnyData(segments: seq<Segment>) {
    exists s :: s in segments && HasData(s)
  }

  ghost predicate Covered(segments: seq<Segment>, p: int) {
    exists s :: s in segments && s.Holds(p)
  }

  /** Every two segments hold the same octet at every shared position. */
  ghost predicate Agree(segments: seq<Segment>) {
    forall s, t, p :: s in segments && t in segments && s.Holds(p) && t.Holds(p) ==> s.At(p) == t.At(p)
  }

  /** No position between two data segments is missing. */
  ghost predicate Contiguous(segments: seq<Segment>) {
    forall s, t, p :: s in segments && t in segments && HasData(s) && HasData(t) && s.start <= p < t.End()
      ==> Covered(segments, p)
  }

  /** No FIN lies beyond the last data octet. */
  ghost predicate FinsReached(segments: seq<Segment>) {
    forall s :: s in segments && s.fin ==> exists t :: t in segments && HasData(t) && s.End() <= t.End()
  }

  ghost predicate Assemblable(segments: seq<Segment>) {
    AnyData(segments) ==> Agree(segments) && Contiguous(segments) && FinsReached(segments)
  }

  datatype Assembled = Assembled(payload: seq<Octet>, cursor: Option<int>)

  datatype AssemblyError =
    | Gap(after: int, before: int)
    | ConflictingOverlap(at: int)
    | ConflictingRetransmission(at: int)
    | TerminalGap(after: int, before: int)

  ghost predicate IsLastEnd(segments: seq<Segment>, end: int) {
    && (exists s :: s in segments && HasData(s) && s.End() == end)
    && (forall s :: s in segments && HasData(s) ==> s.End() <= end)
  }

  ghost predicate IsFirstStart(segments: seq<Segment>, start: int) {
    && (exists s :: s in segments && HasData(s) && s.start == start)
    && (forall s :: s in segments && HasData(s) ==> start <= s.start)
  }

  /** The payload spans exactly the data segments and holds each of them at its position. */
  ghost predicate Renders(segments: seq<Segment>, a: Assembled) {
    if !AnyData(segments) then a == Assembled([], None)
    else
      && a.cursor.Some?
      && IsLastEnd(segments, a.cursor.value)
      && IsFirstStart(segments, a.cursor.value - |a.payload|)
      && (forall s, p :: s in segments && s.Holds(p)
           ==> a.payload[p - (a.cursor.value - |a.payload|)] == s.At(p))
  }

  ghost predicate Differ(segments: seq<Segment>, s: Segment, p: int) {
    exists t :: t in segments && t.Holds(p) && s.Holds(p) && t.At(p) != s.At(p)
  }

  /** The segment starts earlier, or was captured earlier at the same position. */
  predicate Ahead(t: Segment, s: Segment) {
    t.start < s.start || (t.start == s.start && t.ordinal < s.ordinal)
  }

  /** The segment contradicts one that is not behind it, at the p-th position. */
  ghost predicate Contradicts(segments: seq<Segment>, s: Segment, p: int) {
    exists t :: t in segments && !Ahead(s, t) && t.Holds(p) && s.Holds(p) && t.At(p) != s.At(p)
  }

  /** The segment carries data beyond everything ahead of it. */
  ghost predicate Outreaches(segments: seq<Segment>, s: Segment) {
    forall t :: t in segments && HasData(t) && Ahead(t, s) ==> t.End() < s.End()
  }

  /** The segment lies inside the reach of another one that is not behind it. */
  ghost predicate Repeated(segments: seq<Segment>, s: Segment) {
    exists t :: t in segments && t != s && HasData(t) && !Ahead(s, t) && s.End() <= t.End()
  }

  /** Everything ahead of the segment agrees and leaves no hole. */
  ghost predicate FlawlessAhead(segments: seq<Segment>, s: Segment) {
    && (forall t, u, p :: t in segments && u in segments && Ahead(t, s) && Ahead(u, s) && t.Holds(p) && u.Holds(p)
          ==> t.At(p) == u.At(p))
    && (forall t, u, p :: t in segments && u in segments && HasData(t) && HasData(u) && Ahead(t, s) && Ahead(u, s)
                          && t.start <= p < u.End()
          ==> Covered(segments, p))
  }

  /** The reported error names a real defect of the segments, the first one in the order of position and capture. */
  ghost predicate Explains(segments: seq<Segment>, e: AssemblyError) {
    match e
    case Gap(after, before) =>
      && after < before
      && (exists s :: s in segments && HasData(s) && s.End() == after)
      && (exists s :: s in segments && HasData(s) && s.start == before && FlawlessAhead(segments, s))
      && (forall p :: after <= p < before ==> !Covered(segments, p))
    case ConflictingOverlap(at) =>
      exists s, p :: s in segments && s.start == at && Contradicts(segments, s, p) && Outreaches(segments, s)
                                                       && FlawlessAhead(segments, s)
    case ConflictingRetransmission(at) =>
      exists s, p :: s in segments && s.start == at && Contradicts(segments, s, p) && Repeated(segments, s)
                                                       && FlawlessAhead(segments, s)
    case TerminalGap(after, before) =>
      && Agree(segments) && Contiguous(segments) && IsLastEnd(segments, after)
      && after < before
      && (exists s :: s in segments && s.fin && s.End() == before)
      && (forall s :: s in segments && s.fin && after < s.End() ==> before <= s.End())
  }

  /** The one acceptable answer for already unwrapped segments. */
  ghost predicate IsAssembly(segments: seq<Segment>, r: Result<Assembled, AssemblyError>) {
    match r
    case Ok(a) => Assemblable(segments) && Renders(segments, a)
    case Err(e) => !Assemblable(segments) && Explains(segments, e)
  }

  // ---------------------------------------------------------------- ordering

  predicate Before(a: Segment, b: Segment) {
    a.start < b.start || (a.start == b.start && a.ordinal <= b.ordinal)
  }

  function BySequence(): (Segment, Segment) -> bool {
    (a, b) => Before(a, b)
  }

  /** The stable sort by (start, ordinal). */
  function Ordered(segments: seq<Segment>): seq<Segment> {
    Sorting.Sorted(BySequence(), segments)
  }

  ghost predicate InOrder(segments: seq<Segment>) {
    forall i, j :: 0 <= i < j < |segments| ==> Before(segments[i], segments[j])
  }

  lemma OrderedSorts(segments: seq<Segment>)
    ensures InOrder(Ordered(segments))
    ensures multiset(Ordered(segments)) == multiset(segments)
  {
    assert Sorting.Total(BySequence());
    Sorting.SortKeeps(BySequence(), segments);
    forall i, j | 0 <= i < j < |Ordered(segments)|
      ensures Before(Ordered(segments)[i], Ordered(segments)[j])
    {
      assert BySequence()(Ordered(segments)[i], Ordered(segments)[j]);
    }
  }

  function WithData(segments: seq<Segment>): (r: seq<Segment>)
    ensures forall s :: s in r <==> s in segments && HasData(s)
  {
    if segments == [] then []
    else if HasData(segments[0]) then [segments[0]] + WithData(segments[1..])
    else WithData(segments[1..])
  }

  function FinPositions(segments: seq<Segment>): (r: seq<int>)
    ensures forall p :: p in r <==> exists s :: s in segments && s.fin && s.End() == p
  {
    if segments == [] then []
    else (if segments[0].fin then [segments[0].End()] else []) + FinPositions(segments[1..])
  }

  /** The least position beyond `cursor`, if any position is. */
  method FirstBeyond(positions: seq<int>, cursor: int) returns (r: Option<int>)
    ensures r.None? <==> forall p :: p in positions ==> p <= cursor
    ensures r.Some? ==> r.value in positions && cursor < r.value
    ensures r.Some? ==> forall p :: p in positions && cursor < p ==> r.value <= p
  {
    r := None;
    for i := 0 to |positions|
      invariant r.None? <==> forall k :: 0 <= k < i ==> positions[k] <= cursor
      invariant r.Some? ==> r.value in positions && cursor < r.value
      invariant r.Some? ==> forall k :: 0 <= k < i && cursor < positions[k] ==> r.value <= positions[k]
    {
      if positions[i] > cursor && (r.None? || positions[i] < r.value) {
        r := Some(positions[i]);
      }
    }
  }

  // ---------------------------------------------------------------- the cursor loop

  /** What the loop has built from the segments placed so far. */
  ghost predicate Placed(done: seq<Segment>, output: seq<Octet>, base: int, cursor: int) {
    && cursor == base + |output|
    && (exists s :: s in done && s.start == base)
    && (exists s :: s in done && s.End() == cursor)
    && (forall s :: s in done ==> base <= s.start && s.End() <= cursor)
    && (forall s, p :: s in done && s.Holds(p) ==> output[p - base] == s.At(p))
    && (forall p :: base <= p < cursor ==> Covered(done, p))
  }

  /** Places one more segment, or refuses it. */
  method Place(ghost done: seq<Segment>, output: seq<Octet>, base: int, cursor: int, s: Segment)
    returns (r: Result<(seq<Octet>, int), AssemblyError>)
    requires Placed(done, output, base, cursor)
    requires HasData(s) && base <= s.start
    ensures r.Ok? ==> Placed(done + [s], r.value.0, base, r.value.1)
    ensures r.Err? ==>
              || (cursor < s.start && r.error == Gap(cursor, s.start))
              || (exists p :: Differ(done, s, p)
                    && r.error == if cursor < s.End() then ConflictingOverlap(s.start)
                                  else ConflictingRetransmission(s.start))
  {
    if s.start > cursor {
      return Err(Gap(cursor, s.start));
    }
    var overlap := cursor - s.start;
    var shared := if overlap < |s.payload| then overlap else |s.payload|;
    var existing := output[s.start - base..s.start - base + shared];
    if existing != s.payload[..shared] {
      ghost var k :| 0 <= k < shared && existing[k] != s.payload[k];
      PlacedDiffers(done, output, base, cursor, s, s.start + k);
      return Err(if overlap < |s.payload| then ConflictingOverlap(s.start)
                 else ConflictingRetransmission(s.start));
    }
    SharedAgrees(output, base, s, shared);
    var grown := if overlap < |s.payload| then output + s.payload[overlap..] else output;
    var next := if overlap < |s.payload| then s.End() else cursor;
    PlacedOne(done, output, base, cursor, s, grown, next);
    return Ok((grown, next));
  }

  /** Where the compared octets agree, the output holds the segment's octets at their positions. */
  lemma SharedAgrees(output: seq<Octet>, base: int, s: Segment, shared: nat)
    requires base <= s.start && s.start - base + shared <= |output| && shared <= |s.payload|
    requires output[s.start - base..s.start - base + shared] == s.payload[..shared]
    ensures forall p :: s.start <= p < s.start + shared ==> output[p - base] == s.At(p)
  {
    var at := s.start - base;
    forall p | s.start <= p < s.start + shared
      ensures output[p - base] == s.At(p)
    {
      assert output[at..at + shared][p - s.start] == s.payload[..shared][p - s.start];
    }
  }

  /** An octet already placed that the segment contradicts is held by a segment placed before. */
  lemma PlacedDiffers(done: seq<Segment>, output: seq<Octet>, base: int, cursor: int, s: Segment, p: int)
    requires Placed(done, output, base, cursor) && base <= p < cursor
    requires s.Holds(p) && output[p - base] != s.At(p)
    ensures Differ(done, s, p)
  {
    assert Covered(done, p);
    var t :| t in done && t.Holds(p);
    assert output[p - base] == t.At(p);
  }

  lemma PlacedOne(done: seq<Segment>, output: seq<Octet>, base: int, cursor: int, s: Segment,
                  grown: seq<Octet>, next: int)
    requires Placed(done, output, base, cursor)
    requires HasData(s) && base <= s.start <= cursor
    requires output <= grown && next == base + |grown|
    requires next == if cursor < s.End() then s.End() else cursor
    requires forall p :: s.Holds(p) ==> grown[p - base] == s.At(p)
    ensures Placed(done + [s], grown, base, next)
  {
    var all := done + [s];
    forall p | base <= p < next
      ensures Covered(all, p)
    {
      if p < cursor {
        assert Covered(done, p);
        var t :| t in done && t.Holds(p);
        assert t in all;
      } else {
        assert s in all && s.Holds(p);
      }
    }
    var first :| first in done && first.start == base;
    assert first in all;
    var last :| last in done && last.End() == cursor;
    assert last in all && s in all;
  }

  lemma OrderedFirst(segments: seq<Segment>, ordered: seq<Segment>, i: nat)
    requires SameData(segments, ordered) && InOrder(ordered) && i < |ordered|
    ensures HasData(ordered[i]) && ordered[0].start <= ordered[i].start
  {
    assert ordered[i] in ordered;
    assert i > 0 ==> Before(ordered[0], ordered[i]);
  }

  lemma PlacedFirst(s: Segment)
    requires HasData(s)
    ensures Placed([s], s.payload, s.start, s.End())
  {
    assert s in [s];
    forall p | s.start <= p < s.End()
      ensures Covered([s], p)
    {
      assert s.Holds(p);
    }
  }

  lemma PlacedLength(done: seq<Segment>, output: seq<Octet>, base: int, cursor: int)
    requires Placed(done, output, base, cursor)
    ensures base == cursor - |output|
  {
  }

  /** Runs the cursor over the ordered data segments. */
  method PlaceOrdered(ghost segments: seq<Segment>, ordered: seq<Segment>)
    returns (r: Result<(seq<Octet>, int), AssemblyError>)
    requires SameData(segments, ordered) && InOrder(ordered) && ordered != []
    ensures r.Ok? ==> Placed(ordered, r.value.0, r.value.1 - |r.value.0|, r.value.1)
    ensures r.Err? ==> !Assemblable(segments) && Explains(segments, r.error)
  {
    hide *;
    var base := ordered[0].start;
    var output := ordered[0].payload;
    var cursor := ordered[0].End();
    OrderedFirst(segments, ordered, 0);
    PlacedFirst(ordered[0]);
    assert ordered[..1] == [ordered[0]];
    for i := 1 to |ordered|
      invariant Placed(ordered[..i], output, base, cursor)
    {
      OrderedFirst(segments, ordered, i);
      var placed := Place(ordered[..i], output, base, cursor, ordered[i]);
      assert ordered[..i + 1] == ordered[..i] + [ordered[i]];
      if placed.Err? {
        RefusalExplained(segments, ordered, i, output, base, cursor, placed.error);
        return Err(placed.error);
      }
      output, cursor := placed.value.0, placed.value.1;
    }
    assert ordered[..|ordered|] == ordered;
    PlacedLength(ordered, output, base, cursor);
    return Ok((output, cursor));
  }

  lemma SortedData(segments: seq<Segment>)
    ensures SameData(segments, Ordered(WithData(segments))) && InOrder(Ordered(WithData(segments)))
    ensures Ordered(WithData(segments)) == [] <==> !AnyData(segments)
  {
    var data := WithData(segments);
    var ordered := Ordered(data);
    OrderedSorts(data);
    forall s
      ensures s in ordered <==> s in data
    {
      assert s in ordered <==> s in multiset(ordered);
      assert s in data <==> s in multiset(data);
    }
    if ordered != [] {
      assert ordered[0] in data;
    }
    assert ordered == [] ==> forall s :: s in data ==> s in ordered;
  }

  method AssembleTcp(segments: seq<Segment>) returns (r: Result<Assembled, AssemblyError>)
    ensures IsAssembly(Normalized(segments), r)
  {
    hide *;
    if segments == [] {
      NormalizedLength(segments);
      NothingToAssemble(Normalized(segments));
      return Ok(Assembled([], None));
    }
    var normalized := NormalizeTcpSegments(segments);
    var fins := FinPositions(normalized);
    var ordered := Ordered(WithData(normalized));
    SortedData(normalized);
    if ordered == [] {
      NothingToAssemble(normalized);
      return Ok(Assembled([], None));
    }
    var placed := PlaceOrdered(normalized, ordered);
    if placed.Err? {
      Refused(normalized, placed.error);
      return Err(placed.error);
    }
    var output, cursor := placed.value.0, placed.value.1;
    PlacedAll(normalized, ordered, output, cursor - |output|, cursor);
    var missing := FirstBeyond(fins, cursor);
    FinsChecked(normalized, fins, cursor, missing);
    if missing.Some? {
      StoppedAtFin(normalized, Assembled(output, Some(cursor)), missing.value);
      return Err(TerminalGap(cursor, missing.value));
    }
    Accepted(normalized, Assembled(output, Some(cursor)));
    return Ok(Assembled(output, Some(cursor)));
  }

  lemma NothingToAssemble(segments: seq<Segment>)
    requires segments == [] || Ordered(WithData(segments)) == []
    ensures IsAssembly(segments, Ok(Assembled([], None)))
  {
    SortedData(segments);
  }

  lemma Refused(segments: seq<Segment>, e: AssemblyError)
    requires !Assemblable(segments) && Explains(segments, e)
    ensures IsAssembly(segments, Err(e))
  {
  }

  lemma Accepted(segments: seq<Segment>, a: Assembled)
    requires Agree(segments) && Contiguous(segments) && FinsReached(segments) && Renders(segments, a)
    ensures IsAssembly(segments, Ok(a))
  {
    hide Agree, Contiguous, FinsReached, Renders;
  }

  lemma StoppedAtFin(segments: seq<Segment>, a: Assembled, before: int)
    requires AnyData(segments) && Agree(segments) && Contiguous(segments) && !FinsReached(segments)
    requires Renders(segments, a) && a.cursor.Some? && a.cursor.value < before
    requires exists s :: s in segments && s.fin && s.End() == before
    requires forall s :: s in segments && s.fin && a.cursor.value < s.End() ==> before <= s.End()
    ensures IsAssembly(segments, Err(TerminalGap(a.cursor.value, before)))
  {
    hide Agree, Contiguous, FinsReached;
    RendersEnd(segments, a);
    hide Renders, IsLastEnd;
  }

  lemma RendersEnd(segments: seq<Segment>, a: Assembled)
    requires AnyData(segments) && Renders(segments, a)
    ensures a.cursor.Some? && IsLastEnd(segments, a.cursor.value)
  {
  }

  lemma FinsChecked(segments: seq<Segment>, fins: seq<int>, cursor: int, missing: Option<int>)
    requires fins == FinPositions(segments)
    requires missing.None? <==> forall p :: p in fins ==> p <= cursor
    requires missing.Some? ==> missing.value in fins && cursor < missing.value
    requires missing.Some? ==> forall p :: p in fins && cursor < p ==> missing.value <= p
    ensures missing.None? <==> forall s :: s in segments && s.fin ==> s.End() <= cursor
    ensures missing.Some? ==>
              && cursor < missing.value
              && (exists s :: s in segments && s.fin && s.End() == missing.value)
              && (forall s :: s in segments && s.fin && cursor < s.End() ==> missing.value <= s.End())
  {
    assert forall s :: s in segments && s.fin ==> s.End() in fins;
  }

  ghost predicate SameData(segments: seq<Segment>, ordered: seq<Segment>) {
    forall s :: s in ordered <==> s in segments && HasData(s)
  }

  lemma CoveredBySorted(segments: seq<Segment>, ordered: seq<Segment>, p: int)
    requires SameData(segments, ordered)
    ensures Covered(segments, p) <==> Covered(ordered, p)
  {
    if Covered(segments, p) {
      var s :| s in segments && s.Holds(p);
      assert s in ordered;
    }
    if Covered(ordered, p) {
      var s :| s in ordered && s.Holds(p);
      assert s in segments;
    }
  }

  lemma RefusalExplained(segments: seq<Segment>, ordered: seq<Segment>, i: nat,
                         output: seq<Octet>, base: int, cursor: int, e: AssemblyError)
    requires SameData(segments, ordered) && InOrder(ordered)
    requires 0 < i < |ordered| && Placed(ordered[..i], output, base, cursor)
    requires base <= ordered[i].start
    requires || (cursor < ordered[i].start && e == Gap(cursor, ordered[i].start))
             || (exists p :: Differ(ordered[..i], ordered[i], p)
                   && e == if cursor < ordered[i].End() then ConflictingOverlap(ordered[i].start)
                           else ConflictingRetransmission(ordered[i].start))
    ensures !Assemblable(segments) && Explains(segments, e)
  {
    hide *;
    AheadFlawless(segments, ordered, i, output, base, cursor);
    if e.Gap? {
      GapExplained(segments, ordered, i, output, base, cursor);
    } else {
      var p :| Differ(ordered[..i], ordered[i], p);
      ConflictKind(segments, ordered, i, output, base, cursor, p);
      ConflictExplained(segments, ordered, i, p, e);
    }
  }

  lemma GapExplained(segments: seq<Segment>, ordered: seq<Segment>, i: nat, output: seq<Octet>, base: int, cursor: int)
    requires SameData(segments, ordered) && InOrder(ordered)
    requires 0 < i < |ordered| && Placed(ordered[..i], output, base, cursor)
    requires base <= ordered[i].start && cursor < ordered[i].start && FlawlessAhead(segments, ordered[i])
    ensures !Assemblable(segments) && Explains(segments, Gap(cursor, ordered[i].start))
  {
    hide FlawlessAhead, Agree, FinsReached;
    var s := ordered[i];
    assert s in ordered && s in segments && HasData(s);
    forall p | cursor <= p < s.start
      ensures !Covered(segments, p)
    {
      NothingBetween(segments, ordered, i, output, base, cursor, p);
    }
    var first :| first in ordered[..i] && first.start == base;
    assert first in ordered;
    var last :| last in ordered[..i] && last.End() == cursor;
    assert last in ordered;
    assert !Covered(segments, cursor);
  }

  lemma NothingBetween(segments: seq<Segment>, ordered: seq<Segment>, i: nat, output: seq<Octet>, base: int,
                       cursor: int, p: int)
    requires SameData(segments, ordered) && InOrder(ordered)
    requires 0 < i < |ordered| && Placed(ordered[..i], output, base, cursor)
    requires cursor <= p < ordered[i].start
    ensures !Covered(segments, p)
  {
    CoveredBySorted(segments, ordered, p);
    forall k | 0 <= k < |ordered|
      ensures !ordered[k].Holds(p)
    {
      if k < i {
        assert ordered[k] in ordered[..i];
      } else if i < k {
        assert Before(ordered[i], ordered[k]);
      }
    }
  }

  lemma ConflictExplained(segments: seq<Segment>, ordered: seq<Segment>, i: nat, p: int, e: AssemblyError)
    requires SameData(segments, ordered) && InOrder(ordered) && i < |ordered|
    requires Differ(ordered[..i], ordered[i], p) && FlawlessAhead(segments, ordered[i])
    requires || (e == ConflictingOverlap(ordered[i].start) && Outreaches(segments, ordered[i]))
             || (e == ConflictingRetransmission(ordered[i].start) && Repeated(segments, ordered[i]))
    ensures !Assemblable(segments) && Explains(segments, e)
  {
    hide FlawlessAhead, Outreaches, Repeated, Contiguous, FinsReached;
    var s := ordered[i];
    var t :| t in ordered[..i] && t.Holds(p) && s.Holds(p) && t.At(p) != s.At(p);
    assert t in ordered && s in ordered;
    var k :| 0 <= k < i && ordered[k] == t;
    assert Before(ordered[k], ordered[i]);
    assert Contradicts(segments, s, p);
    assert !Agree(segments);
  }

  lemma AheadIsPlaced(segments: seq<Segment>, ordered: seq<Segment>, i: nat, t: Segment)
    requires SameData(segments, ordered) && InOrder(ordered) && i < |ordered|
    requires t in segments && HasData(t) && Ahead(t, ordered[i])
    ensures t in ordered[..i]
  {
    forall k | i <= k < |ordered|
      ensures !Ahead(ordered[k], ordered[i])
    {
      assert i < k ==> Before(ordered[i], ordered[k]);
    }
    var k :| 0 <= k < |ordered| && ordered[k] == t;
    assert ordered[..i][k] == t;
  }

  /** Whatever is ahead of the next segment has been placed, so it agrees and leaves no hole. */
  lemma AheadFlawless(segments: seq<Segment>, ordered: seq<Segment>, i: nat, output: seq<Octet>, base: int, cursor: int)
    requires SameData(segments, ordered) && InOrder(ordered)
    requires 0 < i < |ordered| && Placed(ordered[..i], output, base, cursor)
    ensures FlawlessAhead(segments, ordered[i])
  {
    hide SameData, InOrder;
    var s, done := ordered[i], ordered[..i];
    forall t, p | t in segments && Ahead(t, s) && t.Holds(p)
      ensures base <= p < cursor && output[p - base] == t.At(p)
    {
      AheadIsPlaced(segments, ordered, i, t);
    }
    forall t, u, p | t in segments && u in segments && HasData(t) && HasData(u) && Ahead(t, s) && Ahead(u, s)
                     && t.start <= p < u.End()
      ensures Covered(segments, p)
    {
      AheadIsPlaced(segments, ordered, i, t);
      AheadIsPlaced(segments, ordered, i, u);
      assert Covered(done, p);
      PlacedIsCovered(segments, ordered, i, p);
    }
  }

  lemma PlacedIsCovered(segments: seq<Segment>, ordered: seq<Segment>, i: nat, p: int)
    requires SameData(segments, ordered) && i <= |ordered| && Covered(ordered[..i], p)
    ensures Covered(segments, p)
  {
    var s :| s in ordered[..i] && s.Holds(p);
    assert s in ordered && s in segments;
  }

  lemma ConflictKind(segments: seq<Segment>, ordered: seq<Segment>, i: nat,
                     output: seq<Octet>, base: int, cursor: int, p: int)
    requires SameData(segments, ordered) && InOrder(ordered)
    requires 0 < i < |ordered| && Placed(ordered[..i], output, base, cursor)
    requires Differ(ordered[..i], ordered[i], p)
    ensures cursor < ordered[i].End() ==> Outreaches(segments, ordered[i])
    ensures ordered[i].End() <= cursor ==> Repeated(segments, ordered[i])
  {
    hide *;
    ConflictBeyond(segments, ordered, i, output, base, cursor);
    PlacedAgrees(ordered[..i], output, base, cursor, ordered[i], p);
    if ordered[i].End() <= cursor {
      ConflictWithin(segments, ordered, i, output, base, cursor);
    }
  }

  lemma PlacedAgrees(done: seq<Segment>, output: seq<Octet>, base: int, cursor: int, s: Segment, p: int)
    requires Placed(done, output, base, cursor) && Differ(done, s, p)
    ensures s !in done
  {
    var other :| other in done && other.Holds(p) && s.Holds(p) && other.At(p) != s.At(p);
    assert output[p - base] == other.At(p);
  }

  lemma ConflictBeyond(segments: seq<Segment>, ordered: seq<Segment>, i: nat,
                       output: seq<Octet>, base: int, cursor: int)
    requires SameData(segments, ordered) && InOrder(ordered)
    requires 0 < i < |ordered| && Placed(ordered[..i], output, base, cursor)
    ensures cursor < ordered[i].End() ==> Outreaches(segments, ordered[i])
  {
    var s, done := ordered[i], ordered[..i];
    forall t | t in segments && HasData(t) && Ahead(t, s)
      ensures t.End() <= cursor
    {
      AheadIsPlaced(segments, ordered, i, t);
    }
  }

  lemma ConflictWithin(segments: seq<Segment>, ordered: seq<Segment>, i: nat,
                       output: seq<Octet>, base: int, cursor: int)
    requires SameData(segments, ordered) && InOrder(ordered)
    requires 0 < i < |ordered| && Placed(ordered[..i], output, base, cursor)
    requires ordered[i].End() <= cursor && ordered[i] !in ordered[..i]
    ensures Repeated(segments, ordered[i])
  {
    var s, done := ordered[i], ordered[..i];
    var last :| last in done && last.End() == cursor;
    var j :| 0 <= j < |done| && done[j] == last;
    assert Before(ordered[j], ordered[i]);
    assert last in ordered && last in segments;
  }

  lemma PlacedAll(segments: seq<Segment>, ordered: seq<Segment>, output: seq<Octet>, base: int, cursor: int)
    requires SameData(segments, ordered) && ordered != []
    requires Placed(ordered, output, base, cursor)
    ensures AnyData(segments) && Agree(segments) && Contiguous(segments)
    ensures Renders(segments, Assembled(output, Some(cursor)))
    ensures FinsReached(segments) <==> forall s :: s in segments && s.fin ==> s.End() <= cursor
  {
    assert ordered[0] in segments;
    forall s, p | s in segments && s.Holds(p)
      ensures s in ordered && base <= p < cursor && output[p - base] == s.At(p)
    {
    }
    forall s, t, p | s in segments && t in segments && HasData(s) && HasData(t) && s.start <= p < t.End()
      ensures Covered(segments, p)
    {
      assert s in ordered && t in ordered;
      assert Covered(ordered, p);
      CoveredBySorted(segments, ordered, p);
    }
    var last :| last in ordered && last.End() == cursor;
    assert last in segments && HasData(last);
    var first :| first in ordered && first.start == base;
    assert first in segments && HasData(first);
    assert forall s :: s in segments && HasData(s) ==> s in ordered;
  }

  // ---------------------------------------------------------------- the answer is unique

  /** `other` carries the same data as `segments`, every start moved by `shift`. */
  ghost predicate Moved(segments: seq<Segment>, other: seq<Segment>, shift: int) {
    forall s :: s in segments && HasData(s)
      ==> exists t :: t in other && t.payload == s.payload && t.start == s.start + shift
  }

  lemma MovedOne(segments: seq<Segment>, other: seq<Segment>, shift: int, s: Segment) returns (t: Segment)
    requires Moved(segments, other, shift) && s in segments && HasData(s)
    ensures t in other && t.payload == s.payload && t.start == s.start + shift
  {
    t :| t in other && t.payload == s.payload && t.start == s.start + shift;
  }

  lemma BoundsMove(segments: seq<Segment>, other: seq<Segment>, shift: int,
                   start: int, end: int, start': int, end': int)
    requires Moved(segments, other, shift)
    requires IsLastEnd(segments, end) && IsLastEnd(other, end')
    requires IsFirstStart(segments, start) && IsFirstStart(other, start')
    ensures end + shift <= end' && start' <= start + shift
  {
    var s :| s in segments && HasData(s) && s.End() == end;
    var t := MovedOne(segments, other, shift, s);
    assert t.End() == end + shift;
    var f :| f in segments && HasData(f) && f.start == start;
    var g := MovedOne(segments, other, shift, f);
    assert g.start == start + shift;
  }

  lemma RendersMoved(segments: seq<Segment>, other: seq<Segment>, shift: int, a: Assembled, b: Assembled)
    requires Moved(segments, other, shift) && Moved(other, segments, -shift)
    requires AnyData(segments) && Contiguous(segments) && Renders(segments, a)
    requires AnyData(other) && Renders(other, b)
    ensures a.payload == b.payload && b.cursor == Some(a.cursor.value + shift)
  {
    hide Moved, Contiguous;
    var end, end' := a.cursor.value, b.cursor.value;
    var base, base' := end - |a.payload|, end' - |b.payload|;
    BoundsMove(segments, other, shift, base, end, base', end');
    BoundsMove(other, segments, -shift, base', end', base, end);
    forall k | 0 <= k < |a.payload|
      ensures a.payload[k] == b.payload[k]
    {
      var s := CoveredInside(segments, base, end, base + k);
      var t := MovedOne(segments, other, shift, s);
      assert t.Holds(base' + k) && t.At(base' + k) == s.At(base + k);
    }
  }

  lemma CoveredInside(segments: seq<Segment>, start: int, end: int, p: int) returns (s: Segment)
    requires Contiguous(segments) && IsFirstStart(segments, start) && IsLastEnd(segments, end)
    requires start <= p < end
    ensures s in segments && s.Holds(p)
  {
    var first :| first in segments && HasData(first) && first.start == start;
    var last :| last in segments && HasData(last) && last.End() == end;
    assert Covered(segments, p);
    s :| s in segments && s.Holds(p);
  }

  /** The verdict and, on acceptance, the bytes and the cursor are determined by the segments. */
  lemma AssemblyUnique(segments: seq<Segment>, r: Result<Assembled, AssemblyError>,
                       r': Result<Assembled, AssemblyError>)
    requires IsAssembly(segments, r) && IsAssembly(segments, r')
    ensures r.Ok? == r'.Ok?
    ensures r.Ok? ==> r == r'
  {
    hide Agree, Contiguous, FinsReached, IsLastEnd, IsFirstStart, AnyData;
    if r.Ok? && AnyData(segments) {
      assert Moved(segments, segments, 0);
      RendersMoved(segments, segments, 0, r.value, r'.value);
    }
  }
}
