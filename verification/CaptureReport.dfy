/** From the capture file and its observation index to the report. */
module CaptureReport {
  import opened Outcomes
  import opened TcpSegments
  import opened Packets
  import opened FlowRegistry
  import opened FlowRuns
  import opened ReportModel
  import opened ReportFacts
  import opened ReportTracking
  import opened ReportBuilder
  import opened ReportTheorems
  import Observations
  import PairedCapture

  datatype CaptureError =
    | IndexRefused(cause: Observations.IndexError)
    | CaptureIncomplete
    | Conflicting(cause: Observations.IndexError)
    | Unparsable(ordinal: int)
    | BuildFailed(failure: ReportError)

  /** The packet parser; nothing means that it raises. */
  type Parser = seq<Octet> -> Option<Facts>

  /** Every chosen record among the first n parses. */
  predicate Parses(parse: Parser, records: seq<Observations.Record>, chosen: seq<nat>, n: nat) {
    n <= |chosen| && forall k :: 0 <= k < n ==> chosen[k] < |records| && parse(records[chosen[k]].raw).Some?
  }

  function SelectedFrom(record: Observations.Record, entry: Observations.Entry, facts: Facts): Selected {
    Selected(record.ordinal, record.timestamp, facts, entry.logicalId, entry.flowId, entry.direction)
  }

  /** What the packet loop reads for the first n chosen records. */
  function Selection(parse: Parser, records: seq<Observations.Record>, entries: seq<Observations.Entry>,
                     chosen: seq<nat>, n: nat): (selection: seq<Selected>)
    requires |records| == |entries| && Parses(parse, records, chosen, n)
    ensures |selection| == n
  {
    seq(n, k requires 0 <= k < n =>
      SelectedFrom(records[chosen[k]], entries[chosen[k]], parse(records[chosen[k]].raw).value))
  }

  /** Each chosen record is read with its own index entry. */
  lemma SelectionFields(parse: Parser, records: seq<Observations.Record>, entries: seq<Observations.Entry>,
                        chosen: seq<nat>, n: nat, k: nat)
    requires |records| == |entries| && Parses(parse, records, chosen, n) && k < n
    ensures var s, i := Selection(parse, records, entries, chosen, n)[k], chosen[k];
            && Some(s.facts) == parse(records[i].raw) && s.ordinal == records[i].ordinal
            && s.timestamp == records[i].timestamp && s.logicalId == entries[i].logicalId
            && s.flowId == entries[i].flowId && s.direction == entries[i].direction
  {
  }

  /** The one selection that index entries without a clash allow. */
  ghost predicate Chosen(entries: seq<Observations.Entry>, chosen: seq<nat>) {
    Observations.IsChoice(entries, chosen) && Observations.InArrivalOrder(entries, chosen)
  }

  /** Validates the index, chooses one view per packet, and builds the report from the chosen packets. */
  method BuildFromCapture(codec: Codec, parse: Parser, registry: SessionFlowRegistry, records: seq<Observations.Record>,
                          entries: seq<Observations.Entry>, owners: map<string, string>, healthy: bool)
    returns (r: Result<Report, CaptureError>, chosen: seq<nat>)
    requires codec.Lossless() && WellFormed(registry.State())
    modifies registry
    ensures r.Err? && r.error.IndexRefused? <==> !Observations.Matches(codec.sha256, records, entries)
    ensures r == Err(CaptureIncomplete) <==> Observations.Matches(codec.sha256, records, entries) && !healthy
    ensures r.Err? && r.error.Conflicting? <==>
              Observations.Matches(codec.sha256, records, entries) && healthy && !Observations.Consistent(entries)
    ensures r.Err? && (r.error.IndexRefused? || r.error.CaptureIncomplete? || r.error.Conflicting?) ==>
              registry.State() == old(registry.State())
    ensures Observations.Matches(codec.sha256, records, entries) && healthy && Observations.Consistent(entries) ==>
              && Chosen(entries, chosen)
              && (r.Err? && r.error.Unparsable? <==> !Parses(parse, records, chosen, |chosen|))
    ensures r.Err? && r.error.Unparsable? ==> exists n: nat ::
              && n < |chosen| && |records| == |entries| && Parses(parse, records, chosen, n)
              && !Parses(parse, records, chosen, n + 1)
              && registry.State() == RegistryAfter(old(registry.State()), Selection(parse, records, entries, chosen, n))
    ensures r.Ok? || r.error.BuildFailed? ==>
              && |records| == |entries| && Parses(parse, records, chosen, |chosen|)
              && var selection := Selection(parse, records, entries, chosen, |chosen|);
                 var routed, known := RouteAll(old(registry.State()), selection), KnownProtocols(old(registry.flows));
                 && registry.State() == RegistryAfter(old(registry.State()), selection)
                 && (r.Ok? <==> !FlowSeen(routed, "") && AllAssemblable(routed, known))
                 && (r.Ok? ==> ReportValid(codec, r.value) && ReportTold(codec, r.value, routed, known, registry.flows))
    ensures r.Ok? ==> OwnersTold(r.value.flows, owners)
  {
    hide *;
    chosen := [];
    var index := Observations.ValidateIndex(codec.sha256, records, entries);
    if index.Err? {
      return Err(IndexRefused(index.error)), chosen;
    }
    MatchesCount(codec.sha256, records, entries);
    if !healthy {
      return Err(CaptureIncomplete), chosen;
    }
    var choice := Observations.ChooseObservations(entries);
    if choice.Err? {
      return Err(Conflicting(choice.error)), chosen;
    }
    chosen := choice.value;
    ChosenMeans(entries, chosen);
    var n := ParsePrefix(parse, records, chosen);
    WellFormedIndexed(registry.State());
    var selection := Selection(parse, records, entries, chosen, n);
    if n < |chosen| {
      ParsesFewer(parse, records, chosen, n + 1, |chosen|);
      var ordinal := records[chosen[n]].ordinal;
      Replay(registry, selection);
      return Err(Unparsable(ordinal)), chosen;
    }
    var report := BuildPayloadReport(codec, registry, selection, owners, true);
    if report.Err? {
      return Err(BuildFailed(report.error)), chosen;
    }
    return Ok(report.value), chosen;
  }

  /** How many chosen records parse before the first that does not. */
  method ParsePrefix(parse: Parser, records: seq<Observations.Record>, chosen: seq<nat>) returns (n: nat)
    requires forall k :: 0 <= k < |chosen| ==> chosen[k] < |records|
    ensures Parses(parse, records, chosen, n) && n <= |chosen|
    ensures n < |chosen| ==> !Parses(parse, records, chosen, n + 1)
  {
    n := 0;
    while n < |chosen|
      invariant Parses(parse, records, chosen, n)
    {
      if parse(records[chosen[n]].raw).None? {
        return;
      }
      n := n + 1;
    }
  }

  /** The registry's part of the packet loop, up to the packet that raises. */
  method Replay(registry: SessionFlowRegistry, selection: seq<Selected>)
    requires Indexed(registry.State())
    modifies registry
    ensures registry.State() == RegistryAfter(old(registry.State()), selection)
  {
    hide *;
    ghost var r0 := registry.State();
    NoSteps(r0, selection);
    for i := 0 to |selection|
      invariant Indexed(registry.State()) && registry.State() == RegistryAfter(r0, selection[..i])
    {
      RouteSnoc(r0, selection, i);
      NotTransported(registry.State(), selection[i]);
      if !selection[i].facts.protocol.OtherProtocol? {
        var p := Route(registry, selection[i]);
      }
    }
    assert selection[..|selection|] == selection;
  }

  lemma NoSteps(r: Registry, selection: seq<Selected>)
    requires Indexed(r)
    ensures RegistryAfter(r, selection[..0]) == r
  {
  }

  lemma MatchesCount(sha256: seq<Octet> -> string, records: seq<Observations.Record>, entries: seq<Observations.Entry>)
    requires Observations.Matches(sha256, records, entries)
    ensures |records| == |entries|
  {
  }

  lemma ChosenMeans(entries: seq<Observations.Entry>, chosen: seq<nat>)
    requires Observations.IsChoice(entries, chosen) && Observations.InArrivalOrder(entries, chosen)
    ensures Chosen(entries, chosen)
    ensures forall k :: 0 <= k < |chosen| ==> chosen[k] < |entries|
  {
  }

  lemma ParsesFewer(parse: Parser, records: seq<Observations.Record>, chosen: seq<nat>, n: nat, m: nat)
    requires n <= m && !Parses(parse, records, chosen, n) && n <= |chosen|
    ensures !Parses(parse, records, chosen, m)
  {
  }

  /** The report of a closed capture, from its own files and index. */
  method ReportCapture(codec: Codec, parse: Parser, registry: SessionFlowRegistry, writer: PairedCapture.CaptureWriter,
                       owners: map<string, string>, ghost arrivals: seq<PairedCapture.Arrival>)
    returns (r: Result<Report, CaptureError>, chosen: seq<nat>)
    requires codec.Lossless() && WellFormed(registry.State())
    requires writer.Valid() && writer.setup.Precise() && writer.setup.sha256 == codec.sha256
    requires writer.State() == PairedCapture.Run(writer.setup, arrivals)
    modifies registry
    ensures r.Err? && r.error.IndexRefused? <==> !PairedCapture.NoneMissed(writer.setup, arrivals)
    ensures PairedCapture.NoneMissed(writer.setup, arrivals) ==>
              var c := PairedCapture.Run(writer.setup, arrivals);
              && (r == Err(CaptureIncomplete) <==> !PairedCapture.Sound(c))
              && (PairedCapture.Sound(c) && Observations.Consistent(c.entries) ==> Chosen(c.entries, chosen))
    ensures r.Ok? ==>
              var c := PairedCapture.Run(writer.setup, arrivals);
              && |c.records| == |c.entries| && Parses(parse, c.records, chosen, |chosen|)
              && ReportValid(codec, r.value) && OwnersTold(r.value.flows, owners)
              && ReportTold(codec, r.value,
                            RouteAll(old(registry.State()), Selection(parse, c.records, c.entries, chosen, |chosen|)),
                            KnownProtocols(old(registry.flows)), registry.flows)
  {
    hide *;
    PairedCapture.IndexMatchesItsCapture(writer.setup, arrivals);
    StateParts(writer);
    var healthy := writer.Close();
    r, chosen := BuildFromCapture(codec, parse, registry, writer.records, writer.index.entries, owners, healthy);
  }

  /** When the index recorded no flow IDs and the registry has met none of its packets, the build over the
      chosen views attributes every packet itself. */
  lemma ChosenUnattributed(r: Registry, parse: Parser, records: seq<Observations.Record>,
                           entries: seq<Observations.Entry>, chosen: seq<nat>)
    requires |records| == |entries| && Chosen(entries, chosen) && Parses(parse, records, chosen, |chosen|)
    requires forall i :: 0 <= i < |entries| ==> entries[i].flowId.None? && entries[i].logicalId !in r.logicalToFlow
    ensures Unattributed(r, Selection(parse, records, entries, chosen, |chosen|))
  {
    ChosenMeans(entries, chosen);
    hide Observations.RightView, Observations.InArrivalOrder, Observations.Covers;
  }

  lemma StateParts(writer: PairedCapture.CaptureWriter)
    ensures writer.State().records == writer.records && writer.State().entries == writer.index.entries
  {
  }
}
