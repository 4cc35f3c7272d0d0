/** The observation index, its agreement with the capture, and the choice of one view per packet. */
module Observations {
  import opened Outcomes
  import opened TcpSegments
  import Packets
  import Text

  /** OtherRole stands for any role text besides the three. */
  datatype Role = Initial | Final | Inbound | OtherRole

  datatype Entry = Entry(ordinal: int, logicalId: string, role: Role, direction: Packets.Direction,
                         flowId: Option<string>,
                         length: int, sha256: string, timestamp: Option<real>)

  /** A raw record of the capture file. */
  datatype Record = Record(ordinal: int, timestamp: real, raw: seq<Octet>)

  datatype IndexError = UnknownRole | EmptyObservation | WrongOrdinal | CountMismatch | OrdinalMismatch(at: int)
                      | LengthMismatch(at: int) | HashMismatch(at: int) | TimestampMismatch(at: int)
                      | InvalidRole(at: int) | DuplicateRole(logicalId: string) | IncompatibleRoles(logicalId: string)

  const TOLERANCE := 0.000001

  /** One call of record(). */
  datatype Call = Call(raw: seq<Octet>, role: Role, logicalId: Option<string>, flowId: Option<string>,
                       direction: Packets.Direction, timestamp: Option<real>, ordinal: Option<int>)

  function LogicalIdFor(logicalId: Option<string>, ordinal: nat): string {
    if logicalId.None? || logicalId.value == "" then "packet-" + Text.Padded(ordinal, 8) else logicalId.value
  }

  predicate Recordable(c: Call, entries: seq<Entry>) {
    c.role != OtherRole && c.raw != [] && (c.ordinal.Some? ==> c.ordinal.value == |entries| + 1)
  }

  function EntryFor(sha256: seq<Octet> -> string, c: Call, ordinal: nat): Entry {
    Entry(ordinal, LogicalIdFor(c.logicalId, ordinal), c.role, c.direction, c.flowId, |c.raw|, sha256(c.raw),
          c.timestamp)
  }

  class CaptureObservationIndex {
    const sha256: seq<Octet> -> string
    var entries: seq<Entry>

    constructor (sha256: seq<Octet> -> string)
      ensures this.sha256 == sha256 && entries == []
    {
      this.sha256 := sha256;
      entries := [];
    }

    /** Refused calls leave the index as it was, so ordinals always count successful writes. */
    method RecordObservation(c: Call) returns (r: Result<Entry, IndexError>)
      modifies this
      ensures r.Ok? <==> Recordable(c, old(entries))
      ensures entries == if r.Ok? then old(entries) + [EntryFor(sha256, c, |old(entries)| + 1)] else old(entries)
      ensures r.Ok? ==> r.value == entries[|entries| - 1]
      ensures r.Ok? <==> c.role in {Initial, Final, Inbound} && c.raw != []
                         && (c.ordinal == None || c.ordinal == Some(|old(entries)| + 1))
      ensures r.Ok? ==>
                && r.value.ordinal == |old(entries)| + 1 && r.value.role == c.role && r.value.direction == c.direction
                && r.value.flowId == c.flowId && r.value.timestamp == c.timestamp
                && r.value.length == |c.raw| && r.value.sha256 == sha256(c.raw)
                && r.value.logicalId == (if c.logicalId.Some? && c.logicalId.value != "" then c.logicalId.value
                                         else "packet-" + Text.Padded(|old(entries)| + 1, 8))
    {
      if c.role == OtherRole {
        return Err(UnknownRole);
      }
      if c.raw == [] {
        return Err(EmptyObservation);
      }
      var expected := |entries| + 1;
      var ordinal := if c.ordinal.None? then expected else c.ordinal.value;
      if ordinal != expected {
        return Err(WrongOrdinal);
      }
      var entry := Entry(ordinal, LogicalIdFor(c.logicalId, expected), c.role, c.direction, c.flowId, |c.raw|,
                         sha256(c.raw), c.timestamp);
      entries := entries + [entry];
      return Ok(entry);
    }
  }

  // ---------------------------------------------------------------- the index pins the capture

  predicate Near(a: real, b: real) {
    -TOLERANCE <= a - b <= TOLERANCE
  }

  predicate MatchesAt(sha256: seq<Octet> -> string, record: Record, entry: Entry) {
    && entry.ordinal == record.ordinal && entry.length == |record.raw| && entry.sha256 == sha256(record.raw)
    && (entry.timestamp.Some? ==> Near(entry.timestamp.value, record.timestamp)) && entry.role != OtherRole
  }

  ghost predicate Matches(sha256: seq<Octet> -> string, records: seq<Record>, entries: seq<Entry>) {
    && |records| == |entries|
    && forall i :: 0 <= i < |records| ==> MatchesAt(sha256, records[i], entries[i])
  }

  method ValidateIndex(sha256: seq<Octet> -> string, records: seq<Record>, entries: seq<Entry>)
    returns (r: Result<(), IndexError>)
    ensures r.Ok? <==> Matches(sha256, records, entries)
    ensures r.Ok? ==> forall i :: 0 <= i < |records| && entries[i].timestamp.Some? ==>
              -1.0 / 1000000.0 <= entries[i].timestamp.value - records[i].timestamp <= 1.0 / 1000000.0
  {
    if |records| != |entries| {
      return Err(CountMismatch);
    }
    for i := 0 to |records|
      invariant forall k :: 0 <= k < i ==> MatchesAt(sha256, records[k], entries[k])
    {
      var record, entry := records[i], entries[i];
      if entry.ordinal != record.ordinal {
        return Err(OrdinalMismatch(record.ordinal));
      }
      if entry.length != |record.raw| {
        return Err(LengthMismatch(record.ordinal));
      }
      if entry.sha256 != sha256(record.raw) {
        return Err(HashMismatch(record.ordinal));
      }
      if entry.timestamp.Some? && !(-TOLERANCE <= entry.timestamp.value - record.timestamp <= TOLERANCE) {
        return Err(TimestampMismatch(record.ordinal));
      }
      if entry.role == OtherRole {
        return Err(InvalidRole(record.ordinal));
      }
    }
    return Ok(());
  }

  /** With a collision-free digest, two captures that validate against one index hold the same packets. */
  lemma IndexPinsCapture(sha256: seq<Octet> -> string, records: seq<Record>, records': seq<Record>, entries: seq<Entry>)
    requires forall a, b :: sha256(a) == sha256(b) ==> a == b
    requires Matches(sha256, records, entries) && Matches(sha256, records', entries)
    ensures |records| == |records'|
    ensures forall i :: 0 <= i < |records| ==>
              records[i].raw == records'[i].raw && records[i].ordinal == records'[i].ordinal
  {
    forall i | 0 <= i < |records|
      ensures records[i].raw == records'[i].raw && records[i].ordinal == records'[i].ordinal
    {
      assert MatchesAt(sha256, records[i], entries[i]) && MatchesAt(sha256, records'[i], entries[i]);
    }
  }

  // ---------------------------------------------------------------- one view per logical packet

  predicate Sided(role: Role) {
    role == Initial || role == Final
  }

  /** Two observations of one logical packet that no honest capture makes. */
  ghost predicate Clash(entries: seq<Entry>, i: nat, j: nat) {
    && i < j < |entries| && entries[i].logicalId == entries[j].logicalId
    && (|| !Sided(entries[i].role) || !Sided(entries[j].role)
        || (entries[i].role == Initial && entries[j].role == Initial)
        || (entries[i].role == Final && entries[j].role == Final && !InitialBefore(entries, entries[i].logicalId, j)))
  }

  ghost predicate Consistent(entries: seq<Entry>) {
    forall i, j :: !Clash(entries, i, j)
  }

  ghost predicate InitialBefore(entries: seq<Entry>, logicalId: string, n: nat) {
    exists k :: 0 <= k < n && k < |entries| && entries[k].logicalId == logicalId && entries[k].role == Initial
  }

  ghost predicate FirstOf(entries: seq<Entry>, i: nat) {
    i < |entries| && forall k :: 0 <= k < i ==> entries[k].logicalId != entries[i].logicalId
  }

  /** Index k of the selection: the initial view of its packet if there is one, else the first view. */
  ghost predicate RightView(entries: seq<Entry>, chosen: int) {
    && 0 <= chosen < |entries|
    && (if InitialBefore(entries, entries[chosen].logicalId, |entries|) then entries[chosen].role == Initial
        else FirstOf(entries, chosen))
  }

  /** One right view for each logical packet. */
  ghost predicate IsChoice(entries: seq<Entry>, selected: seq<nat>) {
    && (forall k :: 0 <= k < |selected| ==> RightView(entries, selected[k]))
    && (forall k, l :: 0 <= k < l < |selected| ==> entries[selected[k]].logicalId != entries[selected[l]].logicalId)
    && (forall i :: 0 <= i < |entries| ==> Covers(entries, selected, entries[i].logicalId))
  }

  ghost predicate Covers(entries: seq<Entry>, selected: seq<nat>, logicalId: string) {
    exists k :: 0 <= k < |selected| && selected[k] < |entries| && entries[selected[k]].logicalId == logicalId
  }

  /** Packet `a` is first observed before packet `b` is. */
  ghost predicate SeenBefore(entries: seq<Entry>, a: string, b: string) {
    exists m :: 0 <= m < |entries| && entries[m].logicalId == a && forall n :: 0 <= n <= m ==> entries[n].logicalId != b
  }

  /** The selection lists packets in the order in which they were first observed. */
  ghost predicate InArrivalOrder(entries: seq<Entry>, selected: seq<nat>) {
    && (forall k :: 0 <= k < |selected| ==> selected[k] < |entries|)
    && (forall k, l :: 0 <= k < l < |selected| ==>
          SeenBefore(entries, entries[selected[k]].logicalId, entries[selected[l]].logicalId))
  }

  /** The position in `selected` that holds the packet's current view. */
  method FindSelected(entries: seq<Entry>, selected: seq<nat>, logicalId: string) returns (k: nat)
    requires forall l :: 0 <= l < |selected| ==> selected[l] < |entries|
    ensures k <= |selected|
    ensures k < |selected| ==> entries[selected[k]].logicalId == logicalId
    ensures k == |selected| ==> forall l :: 0 <= l < |selected| ==> entries[selected[l]].logicalId != logicalId
  {
    k := 0;
    while k < |selected|
      invariant k <= |selected|
      invariant forall l :: 0 <= l < k ==> entries[selected[l]].logicalId != logicalId
    {
      if entries[selected[k]].logicalId == logicalId {
        return;
      }
      k := k + 1;
    }
  }

  /** Selects one view per logical packet, or names two observations that clash. */
  method ChooseObservations(entries: seq<Entry>) returns (r: Result<seq<nat>, IndexError>)
    ensures r.Ok? <==> Consistent(entries)
    ensures r.Ok? ==> IsChoice(entries, r.value) && InArrivalOrder(entries, r.value)
    ensures r.Err? ==> r.error.DuplicateRole? || r.error.IncompatibleRoles?
  {
    hide *;
    var selected: seq<nat> := [];
    assert entries[..0] == [];
    SelectingNone();
    for i := 0 to |entries|
      invariant Selecting(entries[..i], selected)
    {
      ghost var before := entries[..i];
      SelectedInside(before, selected);
      assert entries[..i + 1] == before + [entries[i]];
      var k := FindSelected(entries, selected, entries[i].logicalId);
      if k == |selected| {
        SelectingOpens(before, entries[i], selected);
        selected := selected + [i];
      } else {
        var previous, role := entries[selected[k]].role, entries[i].role;
        SelectingMeets(before, entries[i], selected, k);
        if role == previous {
          ClashStays(entries, i + 1);
          return Err(DuplicateRole(entries[i].logicalId));
        }
        if !((role == Initial && previous == Final) || (role == Final && previous == Initial)) {
          ClashStays(entries, i + 1);
          return Err(IncompatibleRoles(entries[i].logicalId));
        }
        if role == Initial && previous == Final {
          selected := selected[k := i];
        }
      }
    }
    assert entries[..|entries|] == entries;
    SelectingMeans(entries, selected);
    return Ok(selected);
  }

  /** What the loop has chosen from the entries read so far. */
  ghost predicate Selecting(entries: seq<Entry>, selected: seq<nat>) {
    IsChoice(entries, selected) && InArrivalOrder(entries, selected) && Consistent(entries)
  }

  lemma SelectingNone()
    ensures Selecting([], [])
  {
  }

  lemma SelectingMeans(entries: seq<Entry>, selected: seq<nat>)
    requires Selecting(entries, selected)
    ensures IsChoice(entries, selected) && InArrivalOrder(entries, selected) && Consistent(entries)
  {
    hide IsChoice, InArrivalOrder, Consistent;
  }

  lemma SelectedInside(entries: seq<Entry>, selected: seq<nat>)
    requires Selecting(entries, selected)
    ensures forall k :: 0 <= k < |selected| ==> selected[k] < |entries|
  {
    hide IsChoice, Consistent, SeenBefore;
  }

  lemma SelectingOpens(before: seq<Entry>, e: Entry, selected: seq<nat>)
    requires Selecting(before, selected)
    requires forall l :: 0 <= l < |selected| ==> selected[l] < |before| && before[selected[l]].logicalId != e.logicalId
    ensures Selecting(before + [e], selected + [|before|])
  {
    hide IsChoice, InArrivalOrder, Consistent;
    ChoiceOpens(before, e, selected);
    OrderOpens(before, e, selected);
  }

  lemma SelectingMeets(before: seq<Entry>, e: Entry, selected: seq<nat>, k: nat)
    requires Selecting(before, selected) && k < |selected| && selected[k] < |before|
    requires before[selected[k]].logicalId == e.logicalId
    ensures var previous := before[selected[k]].role;
            if e.role == Initial && previous == Final then Selecting(before + [e], selected[k := |before|])
            else if e.role == Final && previous == Initial then Selecting(before + [e], selected)
            else !Consistent(before + [e])
  {
    hide IsChoice, InArrivalOrder, Consistent, RightView;
    ChosenIsRight(before, selected, k);
    OrderKept(before, e, selected, k);
    if Resolves(e.role, before[selected[k]].role) {
      ChoiceMeets(before, e, selected, k);
      NoNewClash(before, e, selected[k]);
    } else {
      ChoiceClashes(before, e, selected[k]);
    }
  }

  lemma SeenStays(before: seq<Entry>, e: Entry, a: string, b: string)
    requires SeenBefore(before, a, b)
    ensures SeenBefore(before + [e], a, b)
  {
    var m :| 0 <= m < |before| && before[m].logicalId == a && forall n :: 0 <= n <= m ==> before[n].logicalId != b;
    assert (before + [e])[m].logicalId == a;
  }

  lemma OrderOpens(before: seq<Entry>, e: Entry, selected: seq<nat>)
    requires IsChoice(before, selected) && InArrivalOrder(before, selected)
    requires forall l :: 0 <= l < |selected| ==> selected[l] < |before| && before[selected[l]].logicalId != e.logicalId
    ensures InArrivalOrder(before + [e], selected + [|before|])
  {
    hide RightView;
    var grown, longer := before + [e], selected + [|before|];
    forall i | 0 <= i < |before|
      ensures before[i].logicalId != e.logicalId
    {
      assert Covers(before, selected, before[i].logicalId);
    }
    forall k, l | 0 <= k < l < |longer|
      ensures SeenBefore(grown, grown[longer[k]].logicalId, grown[longer[l]].logicalId)
    {
      if l < |selected| {
        SeenStays(before, e, before[selected[k]].logicalId, before[selected[l]].logicalId);
      } else {
        assert grown[selected[k]] == before[selected[k]];
      }
    }
  }

  lemma OrderKept(before: seq<Entry>, e: Entry, selected: seq<nat>, k: nat)
    requires InArrivalOrder(before, selected) && k < |selected| && before[selected[k]].logicalId == e.logicalId
    ensures InArrivalOrder(before + [e], selected) && InArrivalOrder(before + [e], selected[k := |before|])
  {
    hide SeenBefore;
    var grown, moved := before + [e], selected[k := |before|];
    forall i | 0 <= i < |selected|
      ensures grown[selected[i]].logicalId == grown[moved[i]].logicalId == before[selected[i]].logicalId
    {
    }
    forall i, j | 0 <= i < j < |selected|
      ensures SeenBefore(grown, before[selected[i]].logicalId, before[selected[j]].logicalId)
    {
      SeenStays(before, e, before[selected[i]].logicalId, before[selected[j]].logicalId);
    }
  }

  /** The index entries of a capture leave no freedom: there is one right selection. */
  lemma ChoiceUnique(entries: seq<Entry>, s: seq<nat>, t: seq<nat>)
    requires Consistent(entries) && IsChoice(entries, s) && IsChoice(entries, t)
    requires InArrivalOrder(entries, s) && InArrivalOrder(entries, t)
    ensures s == t
  {
    SameLength(entries, s, t);
    SameLength(entries, t, s);
    forall k | 0 <= k < |s|
      ensures s[k] == t[k]
    {
      SameIdAt(entries, s, t, k);
      SameView(entries, s[k], t[k]);
    }
  }

  lemma SameLength(entries: seq<Entry>, s: seq<nat>, t: seq<nat>)
    requires IsChoice(entries, s) && IsChoice(entries, t) && InArrivalOrder(entries, s) && InArrivalOrder(entries, t)
    ensures |s| <= |t|
  {
    hide RightView, SeenBefore;
    if |t| < |s| {
      var n := |t|;
      assert Covers(entries, t, entries[s[n]].logicalId);
      var l :| 0 <= l < |t| && t[l] < |entries| && entries[t[l]].logicalId == entries[s[n]].logicalId;
      SameIdAt(entries, s, t, l);
    }
  }

  lemma {:induction false} SameIdAt(entries: seq<Entry>, s: seq<nat>, t: seq<nat>, k: nat)
    requires IsChoice(entries, s) && IsChoice(entries, t) && InArrivalOrder(entries, s) && InArrivalOrder(entries, t)
    requires k < |s| && k < |t|
    ensures entries[s[k]].logicalId == entries[t[k]].logicalId
    decreases k, 1
  {
    hide RightView, SeenBefore;
    var a, b := entries[s[k]].logicalId, entries[t[k]].logicalId;
    if a != b {
      var m := PlaceAfter(entries, s, t, k);
      var n := PlaceAfter(entries, t, s, k);
      SeenOnce(entries, a, b);
    }
  }

  /** The k-th packet of s comes no earlier in t. */
  lemma {:induction false} PlaceAfter(entries: seq<Entry>, s: seq<nat>, t: seq<nat>, k: nat) returns (l: nat)
    requires IsChoice(entries, s) && IsChoice(entries, t) && InArrivalOrder(entries, s) && InArrivalOrder(entries, t)
    requires k < |s| && k < |t|
    ensures k <= l < |t| && entries[t[l]].logicalId == entries[s[k]].logicalId
    decreases k, 0
  {
    hide RightView, SeenBefore;
    assert Covers(entries, t, entries[s[k]].logicalId);
    l :| 0 <= l < |t| && t[l] < |entries| && entries[t[l]].logicalId == entries[s[k]].logicalId;
    if l < k {
      SameIdAt(entries, s, t, l);
    }
  }

  lemma SeenOnce(entries: seq<Entry>, a: string, b: string)
    requires a != b
    ensures !(SeenBefore(entries, a, b) && SeenBefore(entries, b, a))
  {
    if SeenBefore(entries, a, b) {
      var m :| 0 <= m < |entries| && entries[m].logicalId == a && forall n :: 0 <= n <= m ==> entries[n].logicalId != b;
    }
  }

  lemma SameView(entries: seq<Entry>, i: nat, j: nat)
    requires Consistent(entries) && RightView(entries, i) && RightView(entries, j)
              && entries[i].logicalId == entries[j].logicalId
    ensures i == j
  {
    assert !Clash(entries, i, j) && !Clash(entries, j, i);
  }

  lemma ChosenIsRight(entries: seq<Entry>, selected: seq<nat>, k: nat)
    requires IsChoice(entries, selected) && k < |selected|
    ensures RightView(entries, selected[k])
  {
  }

  lemma InitialCut(entries: seq<Entry>, logicalId: string, j: nat, n: nat)
    requires j <= n <= |entries|
    ensures InitialBefore(entries, logicalId, j) <==> InitialBefore(entries[..n], logicalId, j)
  {
    assert forall k :: 0 <= k < j ==> entries[..n][k] == entries[k];
  }

  lemma ClashStays(entries: seq<Entry>, n: nat)
    requires n <= |entries| && !Consistent(entries[..n])
    ensures !Consistent(entries)
  {
    var i: nat, j: nat :| Clash(entries[..n], i, j);
    assert entries[i] == entries[..n][i] && entries[j] == entries[..n][j];
    InitialCut(entries, entries[i].logicalId, j, n);
    assert Clash(entries, i, j);
  }

  lemma InitialGrows(before: seq<Entry>, e: Entry, logicalId: string, n: nat)
    requires n <= |before|
    ensures InitialBefore(before + [e], logicalId, n) <==> InitialBefore(before, logicalId, n)
    ensures InitialBefore(before + [e], logicalId, |before| + 1)
       <==> InitialBefore(before, logicalId, |before|) || (e.logicalId == logicalId && e.role == Initial)
  {
    var grown := before + [e];
    if InitialBefore(before, logicalId, |before|) {
      var k :| 0 <= k < |before| && before[k].logicalId == logicalId && before[k].role == Initial;
      assert grown[k] == before[k];
    }
    if InitialBefore(before, logicalId, n) {
      var k :| 0 <= k < n && before[k].logicalId == logicalId && before[k].role == Initial;
      assert grown[k] == before[k];
    }
    if e.logicalId == logicalId && e.role == Initial {
      assert grown[|before|] == e;
    }
  }

  lemma ClashGrows(before: seq<Entry>, e: Entry)
    requires Consistent(before)
    ensures forall a, b :: Clash(before + [e], a, b) ==> b == |before|
  {
    forall a: nat, b: nat | Clash(before + [e], a, b) && b < |before|
      ensures Clash(before, a, b)
    {
      InitialGrows(before, e, before[a].logicalId, b);
    }
  }

  /** A packet seen for the first time. */
  lemma ChoiceOpens(before: seq<Entry>, e: Entry, selected: seq<nat>)
    requires IsChoice(before, selected) && Consistent(before)
    requires forall l :: 0 <= l < |selected| ==> selected[l] < |before| && before[selected[l]].logicalId != e.logicalId
    ensures IsChoice(before + [e], selected + [|before|])
    ensures Consistent(before + [e])
  {
    var grown := before + [e];
    ClashGrows(before, e);
    forall i | 0 <= i < |before|
      ensures before[i].logicalId != e.logicalId
    {
      assert Covers(before, selected, before[i].logicalId);
    }
    UntouchedViews(before, e, selected);
    InitialGrows(before, e, e.logicalId, 0);
    assert FirstOf(grown, |before|);
    assert RightView(grown, |before|);
    var longer := selected + [|before|];
    forall i | 0 <= i < |grown|
      ensures Covers(grown, longer, grown[i].logicalId)
    {
      if i < |before| {
        assert Covers(before, selected, before[i].logicalId);
        var k :| 0 <= k < |selected| && selected[k] < |before| && before[selected[k]].logicalId == before[i].logicalId;
        assert grown[longer[k]].logicalId == grown[i].logicalId;
      } else {
        assert grown[longer[|selected|]].logicalId == grown[i].logicalId;
      }
    }
  }

  /** Views of other packets stay right. */
  lemma UntouchedViews(before: seq<Entry>, e: Entry, selected: seq<nat>)
    requires forall k :: 0 <= k < |selected| ==> selected[k] < |before| && RightView(before, selected[k])
    ensures forall k :: 0 <= k < |selected| && before[selected[k]].logicalId != e.logicalId ==>
              RightView(before + [e], selected[k])
  {
    var grown := before + [e];
    forall k | 0 <= k < |selected| && before[selected[k]].logicalId != e.logicalId
      ensures RightView(grown, selected[k])
    {
      assert RightView(before, selected[k]);
      InitialGrows(before, e, before[selected[k]].logicalId, 0);
    }
  }

  ghost predicate Resolves(role: Role, previous: Role) {
    (role == Initial && previous == Final) || (role == Final && previous == Initial)
  }

  lemma ChoiceClashes(before: seq<Entry>, e: Entry, chosen: nat)
    requires RightView(before, chosen) && before[chosen].logicalId == e.logicalId
              && !Resolves(e.role, before[chosen].role)
    ensures !Consistent(before + [e])
  {
    InitialGrows(before, e, e.logicalId, |before|);
    assert Clash(before + [e], chosen, |before|);
  }

  lemma ViewMoves(before: seq<Entry>, e: Entry, chosen: nat)
    requires RightView(before, chosen) && before[chosen].logicalId == e.logicalId
              && Resolves(e.role, before[chosen].role)
    ensures RightView(before + [e], if e.role == Initial then |before| else chosen)
  {
    InitialGrows(before, e, e.logicalId, |before|);
    if e.role == Final {
      assert before[chosen].role == Initial && (before + [e])[chosen] == before[chosen];
      assert InitialBefore(before, e.logicalId, |before|);
    }
  }

  /** A further view of a packet that already has one. */
  lemma ChoiceMeets(before: seq<Entry>, e: Entry, selected: seq<nat>, k: nat)
    requires IsChoice(before, selected) && Consistent(before)
    requires k < |selected| && selected[k] < |before| && before[selected[k]].logicalId == e.logicalId
    requires Resolves(e.role, before[selected[k]].role)
    ensures IsChoice(before + [e], if e.role == Initial then selected[k := |before|] else selected)
  {
    hide Clash, InitialBefore, Resolves, FirstOf;
    ViewMoves(before, e, selected[k]);
    UntouchedViews(before, e, selected);
    var updated := if e.role == Initial then selected[k := |before|] else selected;
    forall l | 0 <= l < |updated|
      ensures RightView(before + [e], updated[l])
    {
      if l != k {
        assert before[selected[l]].logicalId != e.logicalId;
      }
    }
    SameIds(before, e, selected, updated, k);
  }

  lemma NoNewClash(before: seq<Entry>, e: Entry, chosen: nat)
    requires Consistent(before) && RightView(before, chosen) && before[chosen].logicalId == e.logicalId
    requires Resolves(e.role, before[chosen].role)
    ensures Consistent(before + [e])
  {
    ClashGrows(before, e);
    EarlierViews(before, e, chosen);
  }

  lemma SameIds(before: seq<Entry>, e: Entry, selected: seq<nat>, updated: seq<nat>, k: nat)
    requires IsChoice(before, selected)
    requires k < |selected| && selected[k] < |before| && before[selected[k]].logicalId == e.logicalId
    requires updated == selected || updated == selected[k := |before|]
    requires forall l :: 0 <= l < |updated| ==> RightView(before + [e], updated[l])
    ensures IsChoice(before + [e], updated)
  {
    hide InitialBefore, FirstOf;
    var grown := before + [e];
    forall l | 0 <= l < |updated|
      ensures updated[l] < |grown| && selected[l] < |before|
                && grown[updated[l]].logicalId == before[selected[l]].logicalId
    {
      assert RightView(before, selected[l]);
    }
    forall i | 0 <= i < |grown|
      ensures Covers(grown, updated, grown[i].logicalId)
    {
      if i < |before| {
        assert Covers(before, selected, before[i].logicalId);
        var l :| 0 <= l < |selected| && selected[l] < |before| && before[selected[l]].logicalId == before[i].logicalId;
        assert grown[updated[l]].logicalId == grown[i].logicalId;
      } else {
        assert grown[updated[k]].logicalId == grown[i].logicalId;
      }
    }
  }

  /** Without an earlier clash, a final after an initial, or an initial after one final, clashes with nothing. */
  lemma EarlierViews(before: seq<Entry>, e: Entry, chosen: nat)
    requires Consistent(before) && RightView(before, chosen) && before[chosen].logicalId == e.logicalId
    requires (e.role == Initial && before[chosen].role == Final) || (e.role == Final && before[chosen].role == Initial)
    ensures forall a: nat :: !Clash(before + [e], a, |before|)
  {
    var grown := before + [e];
    InitialGrows(before, e, e.logicalId, |before|);
    forall a: nat | a < |before| && before[a].logicalId == e.logicalId
      ensures Sided(before[a].role) && (e.role == Initial ==> before[a].role != Initial)
      ensures e.role == Final ==> InitialBefore(grown, e.logicalId, |before|)
    {
      assert a < chosen ==> !Clash(before, a, chosen);
      assert chosen < a ==> !Clash(before, chosen, a);
    }
  }
}
