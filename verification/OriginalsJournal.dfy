/** The append-only originals journals, their seal, and the independent loader. */
module OriginalsJournal {
  import opened Outcomes
  import Text

  datatype JournalName = Observations | Nbis

  type Fields = map<string, string>

  const JOURNAL_SCHEMA := "fakenet.capture-originals-journal.v1"
  const OBSERVATION_KEYS :=
      {"logical_packet_id", "observation_role", "direction", "length", "sha256", "flow_id", "timestamp"}

  /** One JSON line: the header has no ordinal, records do. */
  datatype Line = Line(schema: string, journal: JournalName, captureId: string, ordinal: Option<int>, fields: Fields)

  /** JSON text of a line, and a content digest. */
  datatype Format = Format(dumps: Line -> string, loads: string -> Option<Line>, sha256: string -> string) {
    ghost predicate Lossless() {
      forall line :: loads(dumps(line)) == Some(line) && '\n' !in dumps(line)
    }
  }

  /** The facts that a seal records about one journal file. */
  datatype JournalFacts = JournalFacts(bytes: int, sha256: string, records: int)

  datatype Seal = Seal(captureId: string, observations: JournalFacts, nbis: JournalFacts)

  // ---------------------------------------------------------------- lines and text

  function Render(f: Format, lines: seq<Line>): string {
    if lines == [] then "" else Render(f, lines[..|lines| - 1]) + f.dumps(lines[|lines| - 1]) + "\n"
  }

  function Split(text: string): (parts: seq<string>)
    ensures parts != []
  {
    Text.Split(text, '\n')
  }

  /** Splitting the rendered text gives the lines back. */
  lemma {:induction false} SplitRendered(f: Format, lines: seq<Line>)
    requires f.Lossless()
    ensures |Split(Render(f, lines))| == |lines| + 1
    ensures forall i :: 0 <= i < |lines| ==> Split(Render(f, lines))[i] == f.dumps(lines[i])
    ensures Split(Render(f, lines))[|lines|] == ""
  {
    if lines != [] {
      var n := |lines| - 1;
      SplitRendered(f, lines[..n]);
      Text.SplitTail(Render(f, lines[..n]), f.dumps(lines[n]), '\n');
    }
  }

  // ---------------------------------------------------------------- the writer's protocol

  datatype Journal = Journal(count: nat, lines: seq<Line>)

  /** `sealed` is the writer's own flag; `seal` is what lies on disk. */
  datatype Writer = Writer(captureId: string, closed: bool, sealed: bool, present: bool,
                           observations: Journal, nbis: Journal, seal: Option<Seal>)

  /** How far a seal attempt got: the rename may succeed and the directory sync after it fail. */
  datatype SealIo = NotPublished | PublishedUnsynced | PublishedSynced

  datatype Event =
    | Append(journal: JournalName, fields: Fields, written: bool)
    | SealNow(sameTarget: bool, io: SealIo)
    | Discard(unlinked: bool)
    | Close

  datatype WriterError = ClosedOrSealed | WriteFailed | AlreadySealed | AlreadyClosed | ForeignTarget | SealFailed
      | SealedImmutable
                       | NotAMapping

  function Header(captureId: string, journal: JournalName, created: Fields): Line {
    Line(JOURNAL_SCHEMA, journal, captureId, None, created)
  }

  function Created(captureId: string, created: Fields): Writer {
    Writer(captureId, false, false, true,
           Journal(0, [Header(captureId, Observations, created)]),
           Journal(0, [Header(captureId, Nbis, created)]), None)
  }

  function The(w: Writer, journal: JournalName): Journal {
    if journal.Observations? then w.observations else w.nbis
  }

  function WithJournal(w: Writer, journal: JournalName, j: Journal): Writer {
    if journal.Observations? then w.(observations := j) else w.(nbis := j)
  }

  function Record(captureId: string, journal: JournalName, ordinal: int, fields: Fields): Line {
    Line(JOURNAL_SCHEMA, journal, captureId, Some(ordinal), fields)
  }

  function FactsOf(f: Format, j: Journal): JournalFacts {
    JournalFacts(|Render(f, j.lines)|, f.sha256(Render(f, j.lines)), j.count)
  }

  function SealOf(f: Format, w: Writer): Seal {
    Seal(w.captureId, FactsOf(f, w.observations), FactsOf(f, w.nbis))
  }

  /** The counter moves before the append is tried, whatever comes of it. */
  function Appended(w: Writer, journal: JournalName, fields: Fields, written: bool): Writer {
    var j := The(w, journal);
    WithJournal(w, journal,
      Journal(j.count + 1,
              if w.closed || w.sealed || !written then j.lines
              else j.lines + [Record(w.captureId, journal, j.count + 1, fields)]))
  }

  predicate MayPublish(w: Writer, sameTarget: bool, io: SealIo) {
    !w.sealed && !w.closed && sameTarget && io != NotPublished
  }

  function Step(f: Format, w: Writer, e: Event): Writer {
    match e
    case Append(journal, fields, written) => Appended(w, journal, fields, written)
    case SealNow(sameTarget, io) =>
      if MayPublish(w, sameTarget, io) then w.(seal := Some(SealOf(f, w)), sealed := io == PublishedSynced) else w
    case Discard(unlinked) =>
      if w.sealed then w else w.(closed := true, present := w.present && !unlinked)
    case Close => w.(closed := true)
  }

  class CaptureOriginalsWriter {
    const format: Format
    const captureId: string
    var closed: bool
    var sealed: bool
    var present: bool
    var observationCount: nat
    var nbiCount: nat
    var observationsText: string
    var nbisText: string
    var seal: Option<Seal>
    ghost var observationLines: seq<Line>
    ghost var nbiLines: seq<Line>

    ghost predicate Valid()
      reads this
    {
      observationsText == Render(format, observationLines) && nbisText == Render(format, nbiLines)
    }

    ghost function State(): Writer
      reads this
    {
      Writer(captureId, closed, sealed, present, Journal(observationCount, observationLines),
             Journal(nbiCount, nbiLines), seal)
    }

    constructor (format: Format, captureId: string, created: Fields)
      ensures Valid() && this.format == format && State() == Created(captureId, created)
    {
      this.format, this.captureId := format, captureId;
      closed, sealed, present := false, false, true;
      observationCount, nbiCount := 0, 0;
      observationsText := format.dumps(Header(captureId, Observations, created)) + "\n";
      nbisText := format.dumps(Header(captureId, Nbis, created)) + "\n";
      seal := None;
      observationLines := [Header(captureId, Observations, created)];
      nbiLines := [Header(captureId, Nbis, created)];
    }

    /** Persists one paired-PCAP record, keeping only the journalled keys of the entry. */
    method RecordObservation(entry: Option<Fields>, written: bool) returns (r: Result<(), WriterError>)
      requires Valid()
      modifies this
      ensures Valid()
      ensures entry.None? ==> r == Err(NotAMapping) && State() == old(State())
      ensures entry.Some? ==>
                && State() == Step(format, old(State()), Append(Observations, Journalled(entry.value), written))
                && (r.Ok? <==> |observationLines| == old(|observationLines|) + 1)
    {
      hide Render, Journalled;
      if entry.None? {
        return Err(NotAMapping);
      }
      observationCount := observationCount + 1;
      var record := Record(captureId, Observations, observationCount,
                           Journalled(entry.value));
      if closed || sealed {
        return Err(ClosedOrSealed);
      }
      if !written {
        return Err(WriteFailed);
      }
      RenderedLast(format, observationLines, record);
      observationsText := observationsText + format.dumps(record) + "\n";
      observationLines := observationLines + [record];
      return Ok(());
    }

    method RecordNbi(fields: Option<Fields>, written: bool) returns (r: Result<(), WriterError>)
      requires Valid()
      modifies this
      ensures Valid()
      ensures fields.None? ==> r == Err(NotAMapping) && State() == old(State())
      ensures fields.Some? ==>
                && State() == Step(format, old(State()), Append(Nbis, fields.value, written))
                && (r.Ok? <==> |nbiLines| == old(|nbiLines|) + 1)
    {
      hide Render;
      if fields.None? {
        return Err(NotAMapping);
      }
      nbiCount := nbiCount + 1;
      var record := Record(captureId, Nbis, nbiCount, fields.value);
      if closed || sealed {
        return Err(ClosedOrSealed);
      }
      if !written {
        return Err(WriteFailed);
      }
      RenderedLast(format, nbiLines, record);
      nbisText := nbisText + format.dumps(record) + "\n";
      nbiLines := nbiLines + [record];
      return Ok(());
    }

    method SealCapture(sameTarget: bool, io: SealIo) returns (r: Result<Seal, WriterError>)
      requires Valid()
      modifies this
      ensures Valid() && State() == Step(format, old(State()), SealNow(sameTarget, io))
      ensures r.Ok? <==> !old(sealed) && sealed
      ensures r.Ok? ==> seal == Some(r.value)
    {
      if sealed {
        return Err(AlreadySealed);
      }
      if closed {
        return Err(AlreadyClosed);
      }
      if !sameTarget {
        return Err(ForeignTarget);
      }
      if io == NotPublished {
        return Err(SealFailed);
      }
      var published := Seal(captureId,
        JournalFacts(|observationsText|, format.sha256(observationsText), observationCount),
        JournalFacts(|nbisText|, format.sha256(nbisText), nbiCount));
      seal := Some(published);
      if io == PublishedUnsynced {
        return Err(SealFailed);
      }
      sealed := true;
      return Ok(published);
    }

    method DiscardJournals(unlinked: bool) returns (r: Result<(), WriterError>)
      requires Valid()
      modifies this
      ensures Valid() && State() == Step(format, old(State()), Discard(unlinked))
      ensures r.Ok? <==> !old(sealed)
    {
      if sealed {
        return Err(SealedImmutable);
      }
      if unlinked {
        present := false;
      }
      closed := true;
      return Ok(());
    }

    method CloseJournals()
      requires Valid()
      modifies this
      ensures Valid() && State() == Step(format, old(State()), Close)
    {
      closed := true;
    }
  }

  function Journalled(entry: Fields): Fields {
    map k | k in OBSERVATION_KEYS && k in entry :: entry[k]
  }

  lemma RenderedLast(f: Format, lines: seq<Line>, line: Line)
    ensures Render(f, lines + [line]) == Render(f, lines) + f.dumps(line) + "\n"
  {
    assert (lines + [line])[..|lines|] == lines;
  }

  // ---------------------------------------------------------------- the loader

  datatype LoadError = Missing | BytesDiffer | DigestDiffers | Truncated | HeaderMissing | InvalidJson(line: nat)
      | Foreign(line: nat)
                     | OrdinalMismatch(line: nat) | CountDiffers

  predicate NativeLine(line: Line, journal: JournalName, captureId: string) {
    line.schema == JOURNAL_SCHEMA && line.journal == journal && line.captureId == captureId
  }

  /** The file behind the seal's facts, line by line. */
  ghost predicate Acceptable(f: Format, text: string, facts: JournalFacts, journal: JournalName, captureId: string) {
    var parts := Split(text);
    && |text| == facts.bytes && f.sha256(text) == facts.sha256
    && |parts| >= 2 && parts[|parts| - 1] == ""
    && (forall i :: 0 <= i < |parts| - 1 ==>
          && f.loads(parts[i]).Some?
          && NativeLine(f.loads(parts[i]).value, journal, captureId)
          && (i > 0 ==> f.loads(parts[i]).value.ordinal == Some(i)))
    && facts.records == |parts| - 2
  }

  lemma {:induction false} EndsWithNewline(text: string)
    ensures Split(text)[|Split(text)| - 1] == "" <==> text == "" || text[|text| - 1] == '\n'
  {
    if text != "" {
      EndsWithNewline(text[1..]);
    }
  }

  method LoadJournal(f: Format, text: Option<string>, facts: JournalFacts, journal: JournalName, captureId: string)
    returns (r: Result<seq<Line>, LoadError>)
    ensures r.Ok? <==> text.Some? && Acceptable(f, text.value, facts, journal, captureId)
    ensures r.Ok? ==> |r.value| == |Split(text.value)| - 2
    ensures r.Ok? ==> forall i :: 0 <= i < |r.value| ==> f.loads(Split(text.value)[i + 1]) == Some(r.value[i])
    ensures r.Ok? ==> |r.value| == facts.records && |text.value| == facts.bytes && f.sha256(text.value) == facts.sha256
    ensures r.Ok? ==> forall i :: 0 <= i < |r.value| ==>
              && r.value[i].schema == "fakenet.capture-originals-journal.v1" && r.value[i].journal == journal
              && r.value[i].captureId == captureId && r.value[i].ordinal == Some(i + 1)
  {
    if text.None? {
      return Err(Missing);
    }
    var raw := text.value;
    if facts.bytes != |raw| {
      return Err(BytesDiffer);
    }
    if facts.sha256 != f.sha256(raw) {
      return Err(DigestDiffers);
    }
    EndsWithNewline(raw);
    if raw != "" && raw[|raw| - 1] != '\n' {
      return Err(Truncated);
    }
    var parts := Split(raw);
    var lines := parts[..|parts| - 1];
    if lines == [] {
      return Err(HeaderMissing);
    }
    var records: seq<Line> := [];
    for number := 0 to |lines|
      invariant forall i :: 0 <= i < number ==>
                  && f.loads(parts[i]).Some?
                  && NativeLine(f.loads(parts[i]).value, journal, captureId)
                  && (i > 0 ==> f.loads(parts[i]).value.ordinal == Some(i))
      invariant |records| == if number == 0 then 0 else number - 1
      invariant forall i :: 0 <= i < |records| ==> f.loads(parts[i + 1]) == Some(records[i])
      invariant forall i :: 0 <= i < |records| ==>
                  NativeLine(records[i], journal, captureId) && records[i].ordinal == Some(i + 1)
    {
      var parsed := f.loads(lines[number]);
      if parsed.None? {
        return Err(InvalidJson(number));
      }
      var record := parsed.value;
      if record.schema != JOURNAL_SCHEMA || record.journal != journal || record.captureId != captureId {
        return Err(Foreign(number));
      }
      if number > 0 {
        if record.ordinal != Some(number) {
          return Err(OrdinalMismatch(number));
        }
        records := records + [record];
      }
    }
    if facts.records != |records| {
      return Err(CountDiffers);
    }
    return Ok(records);
  }

  /** With a collision-free digest the facts of a seal fit one text only, and no journal passes for that of another
      capture or of the other kind. */
  lemma FactsPinText(f: Format, text: string, text': string, facts: JournalFacts, journal: JournalName,
                     journal': JournalName, captureId: string, captureId': string)
    requires forall a, b :: f.sha256(a) == f.sha256(b) ==> a == b
    requires Acceptable(f, text, facts, journal, captureId) && Acceptable(f, text', facts, journal', captureId')
    ensures text == text' && journal == journal' && captureId == captureId'
  {
    assert NativeLine(f.loads(Split(text)[0]).value, journal, captureId);
    assert NativeLine(f.loads(Split(text')[0]).value, journal', captureId');
  }

  // ---------------------------------------------------------------- runs

  function Run(f: Format, captureId: string, created: Fields, events: seq<Event>): Writer {
    if events == [] then Created(captureId, created)
    else Step(f, Run(f, captureId, created, events[..|events| - 1]), events[|events| - 1])
  }

  predicate Attempts(e: Event, journal: JournalName) {
    e.Append? && e.journal == journal
  }

  /** The fields of all append attempts on one journal, in order. */
  function AttemptedFields(events: seq<Event>, journal: JournalName): seq<Fields> {
    if events == [] then []
    else
      var n := |events| - 1;
      var before := AttemptedFields(events[..n], journal);
      if Attempts(events[n], journal) then before + [events[n].fields] else before
  }

  /** Did the n-th event publish a seal? */
  predicate PublishesAt(f: Format, captureId: string, created: Fields, events: seq<Event>, n: nat)
    requires n < |events|
  {
    events[n].SealNow? && MayPublish(Run(f, captureId, created, events[..n]), events[n].sameTarget, events[n].io)
  }

  /** No append to this journal before the seal failed. */
  ghost predicate AllWritten(events: seq<Event>, journal: JournalName) {
    forall i :: 0 <= i < |events| && Attempts(events[i], journal) ==> events[i].written
  }

  /** An append added a line at this event. */
  predicate AddsLineAt(f: Format, captureId: string, created: Fields, events: seq<Event>, journal: JournalName, i: nat)
    requires i < |events|
  {
    && Attempts(events[i], journal) && events[i].written
    && var w := Run(f, captureId, created, events[..i]); !w.closed && !w.sealed
  }

  lemma RunSnoc(f: Format, captureId: string, created: Fields, events: seq<Event>, n: nat)
    requires n < |events|
    ensures Run(f, captureId, created, events[..n + 1])
         == Step(f, Run(f, captureId, created, events[..n]), events[n])
  {
    assert events[..n + 1][..n] == events[..n];
  }

  /** Flags only ever go up: a writer that may still publish has never been closed or sealed. */
  lemma {:induction false} FlagsStay(f: Format, captureId: string, created: Fields, events: seq<Event>, n: nat)
    requires n <= |events|
    ensures var w, end := Run(f, captureId, created, events[..n]), Run(f, captureId, created, events);
            && (w.closed ==> end.closed) && (w.sealed ==> end.sealed) && (!w.present ==> !end.present)
            && end.captureId == captureId
  {
    if n == |events| {
      assert events[..n] == events;
      RunCaptureId(f, captureId, created, events);
    } else {
      var last := |events| - 1;
      assert events[..last][..n] == events[..n];
      FlagsStay(f, captureId, created, events[..last], n);
      RunCaptureId(f, captureId, created, events);
      FlagStep(f, captureId, created, events);
      hide Run;
    }
  }

  lemma {:induction false} RunCaptureId(f: Format, captureId: string, created: Fields, events: seq<Event>)
    ensures Run(f, captureId, created, events).captureId == captureId
  {
    if events != [] {
      RunCaptureId(f, captureId, created, events[..|events| - 1]);
    }
  }

  /** What one event does to one journal. */
  lemma StepOnJournal(f: Format, w: Writer, e: Event, journal: JournalName)
    ensures var j := The(w, journal);
            The(Step(f, w, e), journal) ==
              if !Attempts(e, journal) then j
              else Journal(j.count + 1, if w.closed || w.sealed || !e.written then j.lines
                                        else j.lines + [Record(w.captureId, journal, j.count + 1, e.fields)])
  {
  }

  lemma AllWrittenSnoc(events: seq<Event>, journal: JournalName)
    requires events != []
    ensures var n := |events| - 1;
            AllWritten(events, journal) <==>
              AllWritten(events[..n], journal) && (Attempts(events[n], journal) ==> events[n].written)
  {
    var n := |events| - 1;
    assert forall i :: 0 <= i < n ==> events[..n][i] == events[i];
  }

  /** While the writer is open, the counter counts attempts, and each failed attempt costs a line. */
  lemma {:induction false} CountsAttempts(f: Format, captureId: string, created: Fields, events: seq<Event>,
                                          journal: JournalName)
    ensures var j := The(Run(f, captureId, created, events), journal);
            && j.count == |AttemptedFields(events, journal)|
            && 1 <= |j.lines| <= j.count + 1
            && j.lines[0] == Header(captureId, journal, created)
            && (forall i :: 0 <= i < |j.lines| ==> NativeLine(j.lines[i], journal, captureId))
            && (!AllWritten(events, journal) ==> |j.lines| < j.count + 1)
  {
    if events != [] {
      var n := |events| - 1;
      CountsAttempts(f, captureId, created, events[..n], journal);
      RunCaptureId(f, captureId, created, events[..n]);
      StepOnJournal(f, Run(f, captureId, created, events[..n]), events[n], journal);
      AllWrittenSnoc(events, journal);
      hide Step, AllWritten, Header;
    }
  }

  /** With the writer open and no failed append, the lines are exactly the attempts, numbered 1..n. */
  lemma {:induction false} LinesAreAttempts(f: Format, captureId: string, created: Fields, events: seq<Event>,
                                            journal: JournalName)
    requires var w := Run(f, captureId, created, events); !w.closed && !w.sealed
    requires AllWritten(events, journal)
    ensures var j, fields := The(Run(f, captureId, created, events), journal), AttemptedFields(events, journal);
            && |j.lines| == j.count + 1 == |fields| + 1
            && j.lines[0] == Header(captureId, journal, created)
            && forall i :: 1 <= i < |j.lines| ==> j.lines[i] == Record(captureId, journal, i, fields[i - 1])
  {
    if events != [] {
      var n := |events| - 1;
      FlagsStay(f, captureId, created, events, n);
      RunCaptureId(f, captureId, created, events[..n]);
      StepOnJournal(f, Run(f, captureId, created, events[..n]), events[n], journal);
      AllWrittenSnoc(events, journal);
      hide Step, AllWritten, Header;
      LinesAreAttempts(f, captureId, created, events[..n], journal);
    }
  }

  /** The rendered text of an honest journal satisfies the loader against its own facts, and loads back
      as exactly its records. */
  lemma HonestAcceptable(f: Format, j: Journal, captureId: string, journal: JournalName)
    requires f.Lossless() && |j.lines| == j.count + 1
    requires forall i :: 0 <= i < |j.lines| ==> NativeLine(j.lines[i], journal, captureId)
    requires forall i :: 1 <= i < |j.lines| ==> j.lines[i].ordinal == Some(i)
    ensures Acceptable(f, Render(f, j.lines), FactsOf(f, j), journal, captureId)
  {
    SplitRendered(f, j.lines);
  }

  lemma ShortRefused(f: Format, j: Journal, captureId: string, journal: JournalName)
    requires f.Lossless() && |j.lines| != j.count + 1
    ensures !Acceptable(f, Render(f, j.lines), FactsOf(f, j), journal, captureId)
  {
    SplitRendered(f, j.lines);
  }

  /** Lines only grow, and with them the file. */
  lemma {:induction false} LongerText(f: Format, lines: seq<Line>, more: seq<Line>)
    ensures |Render(f, lines + more)| >= |Render(f, lines)| + |more|
  {
    if more == [] {
      assert lines + more == lines;
    } else {
      var n := |more| - 1;
      assert (lines + more)[..|lines| + n] == lines + more[..n];
      LongerText(f, lines, more[..n]);
    }
  }

  lemma {:induction false} LinesGrow(f: Format, captureId: string, created: Fields, events: seq<Event>, n: nat,
                                     journal: JournalName)
    requires n <= |events|
    ensures The(Run(f, captureId, created, events[..n]), journal).lines
         <= The(Run(f, captureId, created, events), journal).lines
    ensures The(Run(f, captureId, created, events[..n]), journal).lines
         == The(Run(f, captureId, created, events), journal).lines
       <==> forall i :: n <= i < |events| ==> !AddsLineAt(f, captureId, created, events, journal, i)
  {
    if n == |events| {
      assert events[..n] == events;
    } else {
      var last := |events| - 1;
      assert events[..last][..n] == events[..n];
      LinesGrow(f, captureId, created, events[..last], n, journal);
      var before, end := Run(f, captureId, created, events[..last]), Run(f, captureId, created, events);
      assert end == Step(f, before, events[last]);
      assert forall i :: n <= i < last ==> events[..last][..i] == events[..i];
      assert forall i :: n <= i < last ==>
          (AddsLineAt(f, captureId, created, events[..last], journal, i)
           <==> AddsLineAt(f, captureId, created, events, journal, i));
      OneStepLines(f, before, events[last], journal);
      hide Step, Created;
      var from := The(Run(f, captureId, created, events[..n]), journal).lines;
      if AddsLineAt(f, captureId, created, events, journal, last) {
        assert |from| <= |The(before, journal).lines| < |The(end, journal).lines|;
      } else {
        assert The(end, journal).lines == The(before, journal).lines;
      }
    }
  }

  lemma OneStepLines(f: Format, w: Writer, e: Event, journal: JournalName)
    ensures The(Step(f, w, e), journal).lines
         == if Attempts(e, journal) && e.written && !w.closed && !w.sealed
            then The(w, journal).lines + [Record(w.captureId, journal, The(w, journal).count + 1, e.fields)]
            else The(w, journal).lines
  {
  }

  /** `n` is the last event that published. */
  ghost predicate LastPublished(f: Format, captureId: string, created: Fields, events: seq<Event>, n: nat) {
    && n < |events| && PublishesAt(f, captureId, created, events, n)
    && forall i :: n < i < |events| ==> !PublishesAt(f, captureId, created, events, i)
  }

  lemma {:induction false} PublishedSeal(f: Format, captureId: string, created: Fields, events: seq<Event>, n: nat)
    requires LastPublished(f, captureId, created, events, n)
    ensures Run(f, captureId, created, events).seal == Some(SealOf(f, Run(f, captureId, created, events[..n])))
  {
    var last := |events| - 1;
    assert events[..last + 1] == events;
    RunSnoc(f, captureId, created, events, last);
    if n < last {
      assert forall i :: 0 <= i < last ==> events[..last][..i] == events[..i];
      assert forall i :: 0 <= i < last ==>
          (PublishesAt(f, captureId, created, events[..last], i) <==> PublishesAt(f, captureId, created, events, i));
      PublishedSeal(f, captureId, created, events[..last], n);
      assert events[..last][..n] == events[..n];
      assert !PublishesAt(f, captureId, created, events, last);
    }
  }

  function FileOf(f: Format, w: Writer, journal: JournalName): Option<string> {
    if w.present then Some(Render(f, The(w, journal).lines)) else None
  }

  function SealedFacts(s: Seal, journal: JournalName): JournalFacts {
    if journal.Observations? then s.observations else s.nbis
  }

  /** The loader's verdict on what a whole run left on disk. */
  ghost predicate Loads(f: Format, w: Writer, journal: JournalName) {
    && w.seal.Some? && w.present
    && Acceptable(f, FileOf(f, w, journal).value, SealedFacts(w.seal.value, journal), journal, w.seal.value.captureId)
  }

  /** The loader accepts exactly the honest runs: the files are still there, no append to the journal
      before the last published seal failed, and none added a line after it. */
  lemma LoaderAcceptsHonestRuns(f: Format, captureId: string, created: Fields, events: seq<Event>, n: nat,
                                journal: JournalName)
    requires f.Lossless() && LastPublished(f, captureId, created, events, n)
    ensures Loads(f, Run(f, captureId, created, events), journal)
       <==> && Run(f, captureId, created, events).present
            && AllWritten(events[..n], journal)
            && forall i :: n <= i < |events| ==> !AddsLineAt(f, captureId, created, events, journal, i)
  {
    hide *;
    OpenAtPublish(f, captureId, created, events, n);
    PublishedSeal(f, captureId, created, events, n);
    LinesGrow(f, captureId, created, events, n, journal);
    RunCaptureId(f, captureId, created, events[..n]);
    var w, end := Run(f, captureId, created, events[..n]), Run(f, captureId, created, events);
    VerdictAt(f, captureId, created, events[..n], journal);
    FactsAt(f, w, journal);
    if The(end, journal).lines == The(w, journal).lines {
      SameFileLoads(f, w, end, journal);
    } else {
      LongerFileRefused(f, w, end, journal);
    }
  }

  lemma OpenAtPublish(f: Format, captureId: string, created: Fields, events: seq<Event>, n: nat)
    requires LastPublished(f, captureId, created, events, n)
    ensures n < |events|
    ensures var w := Run(f, captureId, created, events[..n]); !w.closed && !w.sealed
  {
    hide Run;
  }

  lemma FactsAt(f: Format, w: Writer, journal: JournalName)
    ensures SealedFacts(SealOf(f, w), journal) == FactsOf(f, The(w, journal)) && SealOf(f, w).captureId == w.captureId
    ensures FactsOf(f, The(w, journal)).bytes == |Render(f, The(w, journal).lines)|
  {
  }

  lemma VerdictAt(f: Format, captureId: string, created: Fields, events: seq<Event>, journal: JournalName)
    requires f.Lossless()
    requires var w := Run(f, captureId, created, events); !w.closed && !w.sealed
    ensures var j := The(Run(f, captureId, created, events), journal);
            Acceptable(f, Render(f, j.lines), FactsOf(f, j), journal, captureId) <==> AllWritten(events, journal)
  {
    var j := The(Run(f, captureId, created, events), journal);
    CountsAttempts(f, captureId, created, events, journal);
    if AllWritten(events, journal) {
      LinesAreAttempts(f, captureId, created, events, journal);
      hide AllWritten, Run, Acceptable;
      HonestAcceptable(f, j, captureId, journal);
    } else {
      hide AllWritten, Run, Acceptable;
      ShortRefused(f, j, captureId, journal);
    }
  }

  lemma SameFileLoads(f: Format, w: Writer, end: Writer, journal: JournalName)
    requires end.seal == Some(SealOf(f, w)) && The(end, journal).lines == The(w, journal).lines
    ensures Loads(f, end, journal) <==>
              end.present && Acceptable(f, Render(f, The(w, journal).lines), FactsOf(f, The(w, journal)), journal,
                                        w.captureId)
  {
    hide Acceptable;
  }

  lemma LongerFileRefused(f: Format, w: Writer, end: Writer, journal: JournalName)
    requires end.seal == Some(SealOf(f, w))
    requires The(w, journal).lines <= The(end, journal).lines && The(end, journal).lines != The(w, journal).lines
    ensures !Loads(f, end, journal)
  {
    var lines, all := The(w, journal).lines, The(end, journal).lines;
    assert all == lines + all[|lines|..];
    LongerText(f, lines, all[|lines|..]);
  }

  /** What the records of an honest run say: every attempted record, in order, numbered from one. */
  lemma HonestRecords(f: Format, captureId: string, created: Fields, events: seq<Event>, n: nat, journal: JournalName)
    requires f.Lossless() && LastPublished(f, captureId, created, events, n)
    requires Loads(f, Run(f, captureId, created, events), journal)
    ensures var text := FileOf(f, Run(f, captureId, created, events), journal).value;
            var fields := AttemptedFields(events[..n], journal);
            && |Split(text)| == |fields| + 2
            && forall i :: 0 <= i < |fields| ==>
                 f.loads(Split(text)[i + 1]) == Some(Line(JOURNAL_SCHEMA, journal, captureId, Some(i + 1), fields[i]))
  {
    LoaderAcceptsHonestRuns(f, captureId, created, events, n, journal);
    LinesGrow(f, captureId, created, events, n, journal);
    OpenAtPublish(f, captureId, created, events, n);
    LinesAreAttempts(f, captureId, created, events[..n], journal);
    hide Acceptable, Run, AllWritten;
    SplitRendered(f, The(Run(f, captureId, created, events[..n]), journal).lines);
  }

  /** Each attempted record is listed once, behind exactly those attempted before it. */
  lemma {:induction false} AttemptPlace(events: seq<Event>, journal: JournalName, i: nat)
    requires i < |events| && events[i].Append? && events[i].journal == journal
    ensures |AttemptedFields(events[..i], journal)| < |AttemptedFields(events, journal)|
    ensures AttemptedFields(events, journal)[|AttemptedFields(events[..i], journal)|] == events[i].fields
  {
    var n := |events| - 1;
    if i < n {
      AttemptPlace(events[..n], journal, i);
      assert events[..n][..i] == events[..i];
    }
  }

  lemma {:induction false} AttemptSource(events: seq<Event>, journal: JournalName, k: nat) returns (i: nat)
    requires k < |AttemptedFields(events, journal)|
    ensures i < |events| && events[i].Append? && events[i].journal == journal
    ensures |AttemptedFields(events[..i], journal)| == k
  {
    var n := |events| - 1;
    i := n;
    if k < |AttemptedFields(events[..n], journal)| {
      i := AttemptSource(events[..n], journal, k);
      assert events[..n][..i] == events[..i];
    }
  }

  /** An observation record keeps exactly these keys of its entry. */
  lemma JournalledKeys(entry: Fields, k: string)
    ensures k in Journalled(entry) <==>
              && k in entry
              && k in ["logical_packet_id", "observation_role", "direction", "length", "sha256", "flow_id", "timestamp"]
    ensures k in Journalled(entry) ==> Journalled(entry)[k] == entry[k]
  {
  }

  // ---------------------------------------------------------------- the flags, told by the calls

  /** The i-th call closes the writer: a close always, a discard unless the writer is sealed. */
  ghost predicate ClosesAt(f: Format, captureId: string, created: Fields, events: seq<Event>, i: nat) {
    && i < |events|
    && (events[i].Close? || (events[i].Discard? && !Run(f, captureId, created, events[..i]).sealed))
  }

  /** The i-th call seals: on its own target, synced, and on a writer neither closed nor sealed before. */
  ghost predicate SealsAt(f: Format, captureId: string, created: Fields, events: seq<Event>, i: nat) {
    && i < |events| && events[i].SealNow? && events[i].sameTarget && events[i].io == PublishedSynced
    && var w := Run(f, captureId, created, events[..i]); !w.closed && !w.sealed
  }

  ghost predicate UnlinksAt(f: Format, captureId: string, created: Fields, events: seq<Event>, i: nat) {
    && i < |events| && events[i].Discard? && events[i].unlinked
    && !Run(f, captureId, created, events[..i]).sealed
  }

  lemma CallsBefore(f: Format, captureId: string, created: Fields, events: seq<Event>, i: nat)
    requires i < |events| - 1
    ensures var n := |events| - 1;
            && (ClosesAt(f, captureId, created, events[..n], i) <==> ClosesAt(f, captureId, created, events, i))
            && (SealsAt(f, captureId, created, events[..n], i) <==> SealsAt(f, captureId, created, events, i))
            && (UnlinksAt(f, captureId, created, events[..n], i) <==> UnlinksAt(f, captureId, created, events, i))
  {
    hide Run;
    assert events[..|events| - 1][..i] == events[..i];
  }

  lemma FlagStep(f: Format, captureId: string, created: Fields, events: seq<Event>)
    requires events != []
    ensures var n := |events| - 1;
            var before, after := Run(f, captureId, created, events[..n]), Run(f, captureId, created, events);
            && (after.closed <==> before.closed || ClosesAt(f, captureId, created, events, n))
            && (after.sealed <==> before.sealed || SealsAt(f, captureId, created, events, n))
            && (after.present <==> before.present && !UnlinksAt(f, captureId, created, events, n))
  {
    var n := |events| - 1;
    assert Run(f, captureId, created, events) == Step(f, Run(f, captureId, created, events[..n]), events[n]);
    hide Run, SealOf, Record, The;
  }

  /** The writer is closed, sealed, and its files are gone, exactly when some call did it. */
  lemma {:induction false} FlagsExactly(f: Format, captureId: string, created: Fields, events: seq<Event>)
    ensures var w := Run(f, captureId, created, events);
            && (w.closed <==> exists i: nat :: ClosesAt(f, captureId, created, events, i))
            && (w.sealed <==> exists i: nat :: SealsAt(f, captureId, created, events, i))
            && (w.present <==> forall i: nat :: !UnlinksAt(f, captureId, created, events, i))
  {
    hide *;
    if events == [] {
      NoCalls(f, captureId, created);
    } else {
      var n := |events| - 1;
      FlagsExactly(f, captureId, created, events[..n]);
      FlagStep(f, captureId, created, events);
      forall i: nat | i < n
        ensures ClosesAt(f, captureId, created, events[..n], i) <==> ClosesAt(f, captureId, created, events, i)
        ensures SealsAt(f, captureId, created, events[..n], i) <==> SealsAt(f, captureId, created, events, i)
        ensures UnlinksAt(f, captureId, created, events[..n], i) <==> UnlinksAt(f, captureId, created, events, i)
      {
        CallsBefore(f, captureId, created, events, i);
      }
      CallsInside(f, captureId, created, events);
      CallsInside(f, captureId, created, events[..n]);
    }
  }

  lemma NoCalls(f: Format, captureId: string, created: Fields)
    ensures var w := Run(f, captureId, created, []);
            && !w.closed && !w.sealed && w.present
            && forall i: nat :: !ClosesAt(f, captureId, created, [], i) && !SealsAt(f, captureId, created, [], i)
                                && !UnlinksAt(f, captureId, created, [], i)
  {
  }

  lemma CallsInside(f: Format, captureId: string, created: Fields, events: seq<Event>)
    ensures forall i: nat :: ClosesAt(f, captureId, created, events, i) ==> i < |events|
    ensures forall i: nat :: SealsAt(f, captureId, created, events, i) ==> i < |events|
    ensures forall i: nat :: UnlinksAt(f, captureId, created, events, i) ==> i < |events|
  {
  }

  /** Once closed, the writer adds no line and publishes no seal any more. */
  lemma {:induction false} ClosedForever(f: Format, captureId: string, created: Fields, events: seq<Event>, n: nat)
    requires n <= |events| && Run(f, captureId, created, events[..n]).closed
    ensures var w, end := Run(f, captureId, created, events[..n]), Run(f, captureId, created, events);
            && end.closed && end.sealed == w.sealed && end.seal == w.seal
            && end.observations.lines == w.observations.lines && end.nbis.lines == w.nbis.lines
  {
    if n == |events| {
      assert events[..n] == events;
    } else {
      var last := |events| - 1;
      assert events[..last][..n] == events[..n];
      ClosedForever(f, captureId, created, events[..last], n);
      ClosedStep(f, Run(f, captureId, created, events[..last]), events[last]);
      hide Step;
    }
  }

  lemma ClosedStep(f: Format, w: Writer, e: Event)
    requires w.closed
    ensures var w' := Step(f, w, e);
            && w'.closed && w'.sealed == w.sealed && w'.seal == w.seal
            && w'.observations.lines == w.observations.lines && w'.nbis.lines == w.nbis.lines
  {
  }

  lemma SealedStep(f: Format, w: Writer, e: Event)
    requires w.sealed
    ensures var w' := Step(f, w, e);
            && w'.sealed && w'.seal == w.seal && w'.present == w.present
            && w'.observations.lines == w.observations.lines && w'.nbis.lines == w.nbis.lines
  {
  }

  /** Once the writer's seal call has returned, nothing on disk changes any more. */
  lemma {:induction false} SealedForever(f: Format, captureId: string, created: Fields, events: seq<Event>, n: nat)
    requires n <= |events| && Run(f, captureId, created, events[..n]).sealed
    ensures var w, end := Run(f, captureId, created, events[..n]), Run(f, captureId, created, events);
            && end.sealed && end.seal == w.seal && end.present == w.present
            && end.observations.lines == w.observations.lines && end.nbis.lines == w.nbis.lines
  {
    if n == |events| {
      assert events[..n] == events;
    } else {
      var last := |events| - 1;
      assert events[..last][..n] == events[..n];
      SealedForever(f, captureId, created, events[..last], n);
      SealedStep(f, Run(f, captureId, created, events[..last]), events[last]);
      hide Step;
    }
  }

  /** A seal whose directory sync failed is on disk but does not freeze the journals: one more append
      then makes the loader refuse the capture. */
  lemma UnsyncedSealCanSpoil(f: Format, captureId: string, created: Fields, fields: Fields)
    requires f.Lossless()
    ensures var published := [SealNow(true, PublishedUnsynced)];
            && Loads(f, Run(f, captureId, created, published), Observations)
            && !Loads(f, Run(f, captureId, created, published + [Append(Observations, fields, true)]), Observations)
  {
    var published := [SealNow(true, PublishedUnsynced)];
    var spoiled := published + [Append(Observations, fields, true)];
    assert published[..0] == [] && spoiled[..0] == [] && spoiled[..1] == published;
    assert PublishesAt(f, captureId, created, published, 0) && PublishesAt(f, captureId, created, spoiled, 0);
    assert !PublishesAt(f, captureId, created, spoiled, 1);
    LoaderAcceptsHonestRuns(f, captureId, created, published, 0, Observations);
    LoaderAcceptsHonestRuns(f, captureId, created, spoiled, 0, Observations);
    assert Run(f, captureId, created, published) == Step(f, Created(captureId, created), published[0]);
    assert AddsLineAt(f, captureId, created, spoiled, Observations, 1);
    hide Loads, Acceptable;
  }

  /** A sealed file cut short or extended is refused, whatever the digest. */
  lemma ResizedRefused(f: Format, j: Journal, text: string, captureId: string, journal: JournalName)
    requires |text| != |Render(f, j.lines)|
    ensures !Acceptable(f, text, FactsOf(f, j), journal, captureId)
  {
    hide Split;
  }
}
