/** The paired capture writer and the index kept beside it: a packet is written first and indexed after. */
module PairedCapture {
  import opened Outcomes
  import opened TcpSegments
  import opened Observations
  import Packets

  /** How the two writes of one packet went. */
  datatype WriteIo = Written | RawFails | EthernetFails

  /** One packet to be captured, when it comes, how its writes go, and whether indexing it raises. */
  datatype Arrival = Arrival(raw: seq<Octet>, role: Role, logicalId: Option<string>, flowId: Option<string>,
                             direction: Packets.Direction, clock: real, io: WriteIo, indexRaises: bool)

  /** The digest, the longest record, and the time stamp that the capture file keeps of a clock value. */
  datatype Setup = Setup(sha256: seq<Octet> -> string, snaplen: nat, stored: real -> real) {
    ghost predicate Precise() {
      forall t :: Near(t, stored(t))
    }
  }

  /** The raw records, the index entries, the number of Ethernet records, and whether a write has failed. */
  datatype Capture = Capture(records: seq<Record>, entries: seq<Observations.Entry>, ethernet: nat, failed: bool)

  const NOTHING := Capture([], [], 0, false)

  const ETHERNET_HEADER := 14

  predicate IsIp(raw: seq<Octet>) {
    raw != [] && (raw[0] >> 4) in {4, 6}
  }

  /** Neither rejected nor too long. */
  predicate Writable(s: Setup, c: Capture, raw: seq<Octet>) {
    !c.failed && IsIp(raw) && |raw| + ETHERNET_HEADER <= s.snaplen
  }

  /** The packet leaves a record in the raw file. */
  predicate WritesRaw(s: Setup, c: Capture, a: Arrival) {
    Writable(s, c, a.raw) && a.io != RawFails
  }

  /** Nothing after the raw record keeps the packet from being indexed. */
  predicate IndexesToo(a: Arrival) {
    a.io == Written && a.role != OtherRole && !a.indexRaises
  }

  function WriteStep(s: Setup, c: Capture, raw: seq<Octet>, clock: real, io: WriteIo): Capture {
    if c.failed || !IsIp(raw) then c
    else if !Writable(s, c, raw) || io == RawFails then c.(failed := true)
    else
      var written := c.(records := c.records + [Record(|c.records| + 1, s.stored(clock), raw)]);
      if io == EthernetFails then written.(failed := true) else written.(ethernet := c.ethernet + 1)
  }

  /** The index call names the ordinal that the writer counted. */
  function CallFor(a: Arrival, ordinal: nat): Call {
    Call(a.raw, a.role, a.logicalId, a.flowId, a.direction, Some(a.clock), Some(ordinal))
  }

  function Step(s: Setup, c: Capture, a: Arrival): Capture {
    var written := WriteStep(s, c, a.raw, a.clock, a.io);
    var call := CallFor(a, |written.records|);
    if Writable(s, c, a.raw) && a.io == Written && !a.indexRaises && Recordable(call, c.entries)
    then written.(entries := c.entries + [EntryFor(s.sha256, call, |c.entries| + 1)])
    else written
  }

  function Run(s: Setup, arrivals: seq<Arrival>): Capture {
    if arrivals == [] then NOTHING
    else Step(s, Run(s, arrivals[..|arrivals| - 1]), arrivals[|arrivals| - 1])
  }

  datatype CaptureFailure = WriterFailed | Rejected | IndexFailed

  class CaptureWriter {
    const setup: Setup
    const index: CaptureObservationIndex
    var records: seq<Record>
    var ethernet: nat
    var failed: bool

    ghost predicate Valid() {
      index.sha256 == setup.sha256
    }

    ghost function State(): Capture
      reads this, index
    {
      Capture(records, index.entries, ethernet, failed)
    }

    constructor (setup: Setup)
      ensures Valid() && this.setup == setup && State() == NOTHING && fresh(index)
    {
      this.setup := setup;
      index := new CaptureObservationIndex(setup.sha256);
      records, ethernet, failed := [], 0, false;
    }

    /** Writes the packet to both files; false means that it was rejected. */
    method WriteIpPacket(raw: seq<Octet>, clock: real, io: WriteIo) returns (r: Result<bool, CaptureFailure>)
      modifies this
      ensures State() == WriteStep(setup, old(State()), raw, clock, io)
      ensures r == Ok(true) <==> Writable(setup, old(State()), raw) && io == Written
      ensures r == Ok(false) <==> !old(failed) && !IsIp(raw)
    {
      if failed {
        return Err(WriterFailed);
      }
      if raw == [] || (raw[0] >> 4) !in {4, 6} {
        return Ok(false);
      }
      if |raw| > setup.snaplen || |raw| + ETHERNET_HEADER > setup.snaplen || io == RawFails {
        failed := true;
        return Err(WriterFailed);
      }
      records := records + [Record(|records| + 1, setup.stored(clock), raw)];
      if io == EthernetFails {
        failed := true;
        return Err(WriterFailed);
      }
      ethernet := ethernet + 1;
      return Ok(true);
    }

    /** Captures one packet: both writes, then the index entry for the ordinal that was written. */
    method RecordRaw(a: Arrival) returns (r: Result<Observations.Entry, CaptureFailure>)
      requires Valid()
      modifies this, index
      ensures Valid() && State() == Step(setup, old(State()), a)
      ensures r.Ok? <==> State().entries != old(State()).entries
    {
      var written := WriteIpPacket(a.raw, a.clock, a.io);
      if written.Err? {
        return Err(WriterFailed);
      }
      if !written.value {
        return Err(Rejected);
      }
      if a.indexRaises {
        return Err(IndexFailed);
      }
      var indexed := index.RecordObservation(CallFor(a, |records|));
      if indexed.Err? {
        return Err(IndexFailed);
      }
      return Ok(indexed.value);
    }

    /** The writer's half of the capture health. */
    method Close() returns (healthy: bool)
      ensures healthy == Sound(State())
    {
      return !failed && |records| == ethernet;
    }
  }

  /** No write has failed and both files hold equally many records. */
  predicate Sound(c: Capture) {
    !c.failed && |c.records| == c.ethernet
  }

  // ---------------------------------------------------------------- index and capture over whole runs

  predicate Behind(c: Capture) {
    |c.entries| < |c.records|
  }

  lemma StepAligned(s: Setup, c: Capture, a: Arrival)
    requires s.Precise() && Matches(s.sha256, c.records, c.entries)
    ensures var c' := Step(s, c, a);
            if WritesRaw(s, c, a) && !IndexesToo(a) then Behind(c')
            else Matches(s.sha256, c'.records, c'.entries)
  {
  }

  lemma StepBehind(s: Setup, c: Capture, a: Arrival)
    requires Behind(c)
    ensures Behind(Step(s, c, a))
  {
  }

  lemma BehindDiffers(s: Setup, c: Capture)
    requires Behind(c)
    ensures !Matches(s.sha256, c.records, c.entries)
  {
  }

  /** Every packet that left a raw record was indexed. */
  ghost predicate NoneMissed(s: Setup, arrivals: seq<Arrival>) {
    forall i :: 0 <= i < |arrivals| && WritesRaw(s, Run(s, arrivals[..i]), arrivals[i]) ==> IndexesToo(arrivals[i])
  }

  lemma NoneMissedSnoc(s: Setup, arrivals: seq<Arrival>)
    requires arrivals != []
    ensures var n := |arrivals| - 1;
            NoneMissed(s, arrivals) <==>
              && NoneMissed(s, arrivals[..n])
              && (WritesRaw(s, Run(s, arrivals[..n]), arrivals[n]) ==> IndexesToo(arrivals[n]))
  {
    var n := |arrivals| - 1;
    hide WritesRaw, IndexesToo, Run;
    assert forall i :: 0 <= i < n ==> arrivals[..n][..i] == arrivals[..i] && arrivals[..n][i] == arrivals[i];
  }

  /** The index validates against the capture it was kept with exactly when every packet that left a raw
      record was indexed: one missed index call puts the index behind for good, since the ordinals of
      all later packets are then refused. */
  lemma {:induction false} IndexMatchesItsCapture(s: Setup, arrivals: seq<Arrival>)
    requires s.Precise()
    ensures var c := Run(s, arrivals);
            && (Matches(s.sha256, c.records, c.entries) <==> NoneMissed(s, arrivals))
            && (!NoneMissed(s, arrivals) ==> Behind(c))
  {
    if arrivals != [] {
      var n := |arrivals| - 1;
      var before := Run(s, arrivals[..n]);
      IndexMatchesItsCapture(s, arrivals[..n]);
      NoneMissedSnoc(s, arrivals);
      assert Run(s, arrivals) == Step(s, before, arrivals[n]);
      hide Step, Matches, NoneMissed, Behind, Run, WritesRaw, IndexesToo;
      if NoneMissed(s, arrivals[..n]) {
        StepAligned(s, before, arrivals[n]);
      } else {
        StepBehind(s, before, arrivals[n]);
      }
      if Behind(Run(s, arrivals)) {
        BehindDiffers(s, Run(s, arrivals));
      }
    }
  }

  /** A packet that makes the writer fail for good: an IP packet that is too long, or one whose write fails. */
  predicate Fatal(s: Setup, a: Arrival) {
    a.raw != [] && (a.raw[0] / 16 == 4 || a.raw[0] / 16 == 6) && (|a.raw| + 14 > s.snaplen || a.io != Written)
  }

  lemma IpVersion(octet: Octet)
    ensures octet >> 4 == octet / 16
  {
  }

  lemma {:induction false} FailedExactly(s: Setup, arrivals: seq<Arrival>)
    ensures Run(s, arrivals).failed <==> exists i :: 0 <= i < |arrivals| && Fatal(s, arrivals[i])
  {
    if arrivals != [] {
      var n := |arrivals| - 1;
      FailedExactly(s, arrivals[..n]);
      if arrivals[n].raw != [] {
        IpVersion(arrivals[n].raw[0]);
      }
      assert forall i :: 0 <= i < n ==> arrivals[..n][i] == arrivals[i];
      FailStep(s, Run(s, arrivals[..n]), arrivals[n]);
      hide Step, Fatal, Run;
      assert Run(s, arrivals) == Step(s, Run(s, arrivals[..n]), arrivals[n]) by { RunLast(s, arrivals); }
    }
  }

  lemma RunLast(s: Setup, arrivals: seq<Arrival>)
    requires arrivals != []
    ensures Run(s, arrivals) == Step(s, Run(s, arrivals[..|arrivals| - 1]), arrivals[|arrivals| - 1])
  {
  }

  lemma FailStep(s: Setup, c: Capture, a: Arrival)
    ensures Step(s, c, a).failed <==> c.failed || Fatal(s, a)
  {
    if a.raw != [] {
      IpVersion(a.raw[0]);
    }
  }

  /** The capture is healthy if and only if no packet made the writer fail. */
  lemma SoundExactly(s: Setup, arrivals: seq<Arrival>)
    ensures Sound(Run(s, arrivals)) <==> forall i :: 0 <= i < |arrivals| ==> !Fatal(s, arrivals[i])
  {
    FailedExactly(s, arrivals);
    PairedUnlessFailed(s, arrivals);
    hide Run, Fatal;
  }

  lemma {:induction false} PairedUnlessFailed(s: Setup, arrivals: seq<Arrival>)
    ensures !Run(s, arrivals).failed ==> |Run(s, arrivals).records| == Run(s, arrivals).ethernet
  {
    if arrivals != [] {
      PairedUnlessFailed(s, arrivals[..|arrivals| - 1]);
      RunLast(s, arrivals);
      hide Run;
    }
  }

  /** A packet leaves a raw record if and only if it is an IP packet that fits, its raw write does not fail, and no
      earlier packet made the writer fail; the record then holds its octets under the next ordinal. */
  lemma RawRecordExactly(s: Setup, arrivals: seq<Arrival>, i: nat)
    requires i < |arrivals|
    ensures var before, after, a := Run(s, arrivals[..i]).records, Run(s, arrivals[..i + 1]).records, arrivals[i];
            if a.raw != [] && (a.raw[0] / 16 == 4 || a.raw[0] / 16 == 6) && |a.raw| + 14 <= s.snaplen
               && a.io != RawFails && forall j :: 0 <= j < i ==> !Fatal(s, arrivals[j])
            then after == before + [Record(|before| + 1, s.stored(a.clock), a.raw)]
            else after == before
  {
    hide *;
    FailedExactly(s, arrivals[..i]);
    assert forall j :: 0 <= j < i ==> arrivals[..i][j] == arrivals[j];
    assert arrivals[..i + 1][..i] == arrivals[..i];
    RunLast(s, arrivals[..i + 1]);
    RawStep(s, Run(s, arrivals[..i]), arrivals[i]);
  }

  lemma RawStep(s: Setup, c: Capture, a: Arrival)
    ensures Step(s, c, a).records
         == if a.raw != [] && (a.raw[0] / 16 == 4 || a.raw[0] / 16 == 6) && |a.raw| + 14 <= s.snaplen
               && a.io != RawFails && !c.failed
            then c.records + [Record(|c.records| + 1, s.stored(a.clock), a.raw)] else c.records
  {
    if a.raw != [] {
      IpVersion(a.raw[0]);
    }
  }

  /** The entry counts, names and hashes the octets of this record. */
  ghost predicate Describes(s: Setup, entry: Observations.Entry, record: Record) {
    && entry.ordinal == record.ordinal && entry.length == |record.raw| && entry.sha256 == s.sha256(record.raw)
    && (s.Precise() ==> entry.timestamp.Some? && -0.000001 <= entry.timestamp.value - record.timestamp <= 0.000001)
  }

  /** Whatever fails, every index entry describes the record at its own place: no entry is ever made for another
      packet's record. */
  lemma {:induction false} EntriesDescribeRecords(s: Setup, arrivals: seq<Arrival>)
    ensures var c := Run(s, arrivals);
            && |c.entries| <= |c.records|
            && forall k :: 0 <= k < |c.entries| ==>
                c.records[k].ordinal == k + 1 && Describes(s, c.entries[k], c.records[k])
  {
    if arrivals != [] {
      var n := |arrivals| - 1;
      EntriesDescribeRecords(s, arrivals[..n]);
      RunLast(s, arrivals);
      hide Run;
    }
  }

  /** A failed Ethernet write leaves a raw record that is never indexed: the capture is unsound and its
      index does not match. */
  lemma {:induction false} UnpairedRecordShows(s: Setup, arrivals: seq<Arrival>, i: nat)
    requires s.Precise() && i < |arrivals| && WritesRaw(s, Run(s, arrivals[..i]), arrivals[i])
    requires arrivals[i].io == EthernetFails
    ensures Run(s, arrivals).failed && Behind(Run(s, arrivals))
  {
    IndexMatchesItsCapture(s, arrivals);
    FailureStays(s, arrivals, i + 1);
    assert arrivals[..i + 1][..i] == arrivals[..i];
  }

  lemma {:induction false} FailureStays(s: Setup, arrivals: seq<Arrival>, n: nat)
    requires n <= |arrivals| && Run(s, arrivals[..n]).failed
    ensures Run(s, arrivals).failed
  {
    if n == |arrivals| {
      assert arrivals[..n] == arrivals;
    } else {
      var last := |arrivals| - 1;
      assert arrivals[..last][..n] == arrivals[..n];
      FailureStays(s, arrivals[..last], n);
    }
  }
}
