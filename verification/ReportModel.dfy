/** The report model and its validator. */
module ReportModel {
  import opened Outcomes
  import opened TcpSegments
  import opened Packets

  /** SHA-256 and Base64, of which only the round trip matters here. */
  datatype Codec = Codec(sha256: seq<Octet> -> string, encode: seq<Octet> -> string,
                         decode: string -> Option<seq<Octet>>)
  {
    ghost predicate Lossless() {
      (forall data :: decode(encode(data)) == Some(data)) && encode([]) == ""
    }
  }

  datatype Range = Range(source: string, offset: int, length: int)

  datatype DatagramModel = DatagramModel(id: string, ordinal: int, offset: int, length: int, bytes: int,
                                         sha256: string, reference: Range)

  datatype DirectionModel = DirectionModel(
    id: string, direction: Direction, source: Endpoint, destination: Endpoint,
    startedAt: Option<real>, endedAt: Option<real>, bytes: int, sha256: string, base64: string,
    probes: seq<int>, datagrams: seq<DatagramModel>)

  datatype FlowModel = FlowModel(id: string, protocol: Protocol, owner: string, directions: seq<DirectionModel>)

  const REPORT_SCHEMA := "fakenet.payload-report.v1"
  const REPORT_ENCODING := "base64"

  datatype Report = Report(schema: string, encoding: string, healthy: bool, flows: seq<FlowModel>)

  /** The marks of a report over a complete capture. */
  predicate Headed(report: Report) {
    report.schema == REPORT_SCHEMA && report.encoding == REPORT_ENCODING && report.healthy
  }

  datatype ModelError =
    | SchemaError
    | EncodingError
    | Unhealthy
    | FlowIdError
    | OwnerMissing
    | DirectionIdError
    | Base64Error
    | LengthMismatch
    | HashMismatch
    | BoundaryMismatch
    | DatagramLengthError
    | DatagramBytesMismatch
    | DatagramIdError
    | ReferenceMismatch
    | DatagramHashMismatch
    | DatagramTotalMismatch

  // ---------------------------------------------------------------- validity, declaratively

  ghost predicate DistinctFlows(flows: seq<FlowModel>) {
    && (forall i :: 0 <= i < |flows| ==> flows[i].id != "")
    && (forall i, j :: 0 <= i < j < |flows| ==> flows[i].id != flows[j].id)
  }

  ghost predicate DistinctDirections(directions: seq<DirectionModel>) {
    && (forall i :: 0 <= i < |directions| ==> directions[i].id != "")
    && (forall i, j :: 0 <= i < j < |directions| ==> directions[i].id != directions[j].id)
  }

  ghost predicate DistinctDatagrams(datagrams: seq<DatagramModel>) {
    && (forall i :: 0 <= i < |datagrams| ==> datagrams[i].id != "")
    && (forall i, j :: 0 <= i < j < |datagrams| ==> datagrams[i].id != datagrams[j].id)
  }

  /** Where the i-th datagram starts when datagrams lie end to end. */
  function OffsetOf(datagrams: seq<DatagramModel>, i: nat): int
    requires i <= |datagrams|
  {
    if i == 0 then 0 else OffsetOf(datagrams, i - 1) + datagrams[i - 1].length
  }

  ghost predicate DatagramValid(codec: Codec, source: string, datagrams: seq<DatagramModel>, i: nat,
                                payload: seq<Octet>)
    requires i < |datagrams|
  {
    var d := datagrams[i];
    && d.length >= 0 && d.bytes == d.length
    && d.offset == OffsetOf(datagrams, i)
    && d.reference == Range(source, d.offset, d.length)
    && 0 <= d.offset && d.offset + d.length <= |payload|
    && d.sha256 == codec.sha256(payload[d.offset..d.offset + d.length])
  }

  /** The datagrams tile the payload exactly, and each names and hashes its own range. */
  ghost predicate Tiled(codec: Codec, source: string, datagrams: seq<DatagramModel>, payload: seq<Octet>) {
    && (forall i :: 0 <= i < |datagrams| ==> DatagramValid(codec, source, datagrams, i, payload))
    && OffsetOf(datagrams, |datagrams|) == |payload|
    && DistinctDatagrams(datagrams)
  }

  ghost predicate DirectionValid(codec: Codec, protocol: Protocol, d: DirectionModel) {
    var decoded := codec.decode(d.base64);
    && decoded.Some?
    && |decoded.value| == d.bytes
    && codec.sha256(decoded.value) == d.sha256
    && (protocol.UDP? ==> Tiled(codec, d.id, d.datagrams, decoded.value))
  }

  ghost predicate FlowValid(codec: Codec, flow: FlowModel) {
    && flow.owner != ""
    && DistinctDirections(flow.directions)
    && (forall j :: 0 <= j < |flow.directions| ==> DirectionValid(codec, flow.protocol, flow.directions[j]))
  }

  ghost predicate ReportValid(codec: Codec, report: Report) {
    && Headed(report)
    && DistinctFlows(report.flows)
    && (forall i :: 0 <= i < |report.flows| ==> FlowValid(codec, report.flows[i]))
  }

  // ---------------------------------------------------------------- the validator

  /** Slicing that clamps both bounds. */
  function Slice(data: seq<Octet>, from: int, to: int): seq<Octet>
    requires 0 <= from <= to
  {
    var hi := if to < |data| then to else |data|;
    var lo := if from < hi then from else hi;
    data[lo..hi]
  }

  lemma {:induction false} OffsetsGrow(datagrams: seq<DatagramModel>, i: nat, j: nat)
    requires i <= j <= |datagrams|
    requires forall k :: i <= k < j ==> datagrams[k].length >= 0
    ensures OffsetOf(datagrams, i) <= OffsetOf(datagrams, j)
  {
    if i < j {
      OffsetsGrow(datagrams, i, j - 1);
    }
  }

  /** The checks on one datagram whose predecessors end at `cursor` and used `ids`. */
  predicate ItemChecked(codec: Codec, source: string, d: DatagramModel, cursor: int, ids: set<string>,
                        payload: seq<Octet>)
    requires 0 <= cursor
  {
    && d.offset == cursor && d.length >= 0 && d.bytes == d.length
    && d.id != "" && d.id !in ids
    && d.reference == Range(source, cursor, d.length)
    && d.sha256 == codec.sha256(Slice(payload, cursor, cursor + d.length))
  }

  method ValidateDatagram(codec: Codec, source: string, d: DatagramModel, cursor: int, ids: set<string>,
                          payload: seq<Octet>)
    returns (r: Result<(), ModelError>)
    requires 0 <= cursor
    ensures r.Ok? <==> ItemChecked(codec, source, d, cursor, ids, payload)
  {
    if d.offset != cursor {
      return Err(BoundaryMismatch);
    }
    if d.length < 0 {
      return Err(DatagramLengthError);
    }
    if d.bytes != d.length {
      return Err(DatagramBytesMismatch);
    }
    if d.id == "" || d.id in ids {
      return Err(DatagramIdError);
    }
    if d.reference != Range(source, cursor, d.length) {
      return Err(ReferenceMismatch);
    }
    if d.sha256 != codec.sha256(Slice(payload, cursor, cursor + d.length)) {
      return Err(DatagramHashMismatch);
    }
    return Ok(());
  }

  function Ids(datagrams: seq<DatagramModel>): set<string> {
    set k | 0 <= k < |datagrams| :: datagrams[k].id
  }

  ghost predicate Checked(codec: Codec, source: string, datagrams: seq<DatagramModel>, payload: seq<Octet>) {
    forall k :: 0 <= k < |datagrams| ==>
      && 0 <= OffsetOf(datagrams, k)
      && ItemChecked(codec, source, datagrams[k], OffsetOf(datagrams, k), Ids(datagrams[..k]), payload)
  }

  lemma {:induction false} OffsetOfPrefix(datagrams: seq<DatagramModel>, n: nat, i: nat)
    requires i <= n <= |datagrams|
    ensures OffsetOf(datagrams[..n], i) == OffsetOf(datagrams, i)
  {
    if i > 0 {
      OffsetOfPrefix(datagrams, n, i - 1);
    }
  }

  lemma CheckedBefore(codec: Codec, source: string, datagrams: seq<DatagramModel>, n: nat, payload: seq<Octet>, k: nat)
    requires k < n <= |datagrams| && Checked(codec, source, datagrams[..n], payload)
    ensures 0 <= OffsetOf(datagrams, k)
    ensures ItemChecked(codec, source, datagrams[k], OffsetOf(datagrams, k), Ids(datagrams[..k]), payload)
  {
    hide ItemChecked, OffsetOf, Ids;
    OffsetOfPrefix(datagrams, n, k);
    assert datagrams[..n][..k] == datagrams[..k] && datagrams[..n][k] == datagrams[k];
  }

  lemma CheckedGrows(codec: Codec, source: string, datagrams: seq<DatagramModel>, n: nat, payload: seq<Octet>)
    requires n < |datagrams| && Checked(codec, source, datagrams[..n], payload)
    requires 0 <= OffsetOf(datagrams, n)
    requires ItemChecked(codec, source, datagrams[n], OffsetOf(datagrams, n), Ids(datagrams[..n]), payload)
    ensures Checked(codec, source, datagrams[..n + 1], payload)
  {
    hide ItemChecked, OffsetOf, Ids;
    var grown := datagrams[..n + 1];
    forall k | 0 <= k <= n
      ensures 0 <= OffsetOf(grown, k)
      ensures ItemChecked(codec, source, grown[k], OffsetOf(grown, k), Ids(grown[..k]), payload)
    {
      OffsetOfPrefix(datagrams, n + 1, k);
      assert grown[..k] == datagrams[..k];
      if k < n {
        CheckedBefore(codec, source, datagrams, n, payload, k);
      }
    }
  }

  /** In range, the clamping checks are exactly validity plus a fresh ID. */
  lemma ItemIffValid(codec: Codec, source: string, datagrams: seq<DatagramModel>, i: nat, ids: set<string>,
                     payload: seq<Octet>)
    requires i < |datagrams| && 0 <= OffsetOf(datagrams, i)
    requires OffsetOf(datagrams, i) + datagrams[i].length <= |payload|
    ensures ItemChecked(codec, source, datagrams[i], OffsetOf(datagrams, i), ids, payload)
       <==> DatagramValid(codec, source, datagrams, i, payload) && datagrams[i].id != "" && datagrams[i].id !in ids
  {
  }

  lemma CheckedItem(codec: Codec, source: string, datagrams: seq<DatagramModel>, payload: seq<Octet>, i: nat)
    requires Checked(codec, source, datagrams, payload) && i < |datagrams|
    ensures 0 <= OffsetOf(datagrams, i) && datagrams[i].length >= 0
    ensures ItemChecked(codec, source, datagrams[i], OffsetOf(datagrams, i), Ids(datagrams[..i]), payload)
  {
  }

  lemma CheckedMeansTiled(codec: Codec, source: string, datagrams: seq<DatagramModel>, payload: seq<Octet>)
    requires Checked(codec, source, datagrams, payload)
    requires OffsetOf(datagrams, |datagrams|) == |payload|
    ensures Tiled(codec, source, datagrams, payload)
  {
    hide Checked, ItemChecked, DatagramValid;
    forall i | 0 <= i < |datagrams|
      ensures DatagramValid(codec, source, datagrams, i, payload)
      ensures datagrams[i].id != "" && datagrams[i].id !in Ids(datagrams[..i])
    {
      forall k | i < k < |datagrams|
        ensures datagrams[k].length >= 0
      {
        CheckedItem(codec, source, datagrams, payload, k);
      }
      CheckedItem(codec, source, datagrams, payload, i);
      OffsetsGrow(datagrams, i + 1, |datagrams|);
      ItemIffValid(codec, source, datagrams, i, Ids(datagrams[..i]), payload);
    }
    forall i, j | 0 <= i < j < |datagrams|
      ensures datagrams[i].id != datagrams[j].id
    {
      assert datagrams[..j][i] == datagrams[i] && datagrams[i].id in Ids(datagrams[..j]);
    }
  }

  lemma TiledItem(codec: Codec, source: string, datagrams: seq<DatagramModel>, payload: seq<Octet>, i: nat)
    requires Tiled(codec, source, datagrams, payload) && i < |datagrams|
    ensures DatagramValid(codec, source, datagrams, i, payload)
    ensures datagrams[i].id != "" && datagrams[i].id !in Ids(datagrams[..i])
  {
    hide DatagramValid;
    forall k | 0 <= k < i
      ensures datagrams[..i][k].id != datagrams[i].id
    {
    }
  }

  lemma TiledMeansChecked(codec: Codec, source: string, datagrams: seq<DatagramModel>, i: nat, payload: seq<Octet>)
    requires Tiled(codec, source, datagrams, payload) && i < |datagrams|
    ensures 0 <= OffsetOf(datagrams, i)
    ensures ItemChecked(codec, source, datagrams[i], OffsetOf(datagrams, i), Ids(datagrams[..i]), payload)
  {
    TiledItem(codec, source, datagrams, payload, i);
    hide Tiled, ItemChecked;
    ItemIffValid(codec, source, datagrams, i, Ids(datagrams[..i]), payload);
  }

  method ValidateDatagrams(codec: Codec, source: string, datagrams: seq<DatagramModel>, payload: seq<Octet>)
    returns (r: Result<(), ModelError>)
    ensures r.Ok? <==> Tiled(codec, source, datagrams, payload)
  {
    hide Tiled, ItemChecked;
    var cursor := 0;
    var ids: set<string> := {};
    for i := 0 to |datagrams|
      invariant cursor == OffsetOf(datagrams, i) && 0 <= cursor
      invariant ids == Ids(datagrams[..i])
      invariant Checked(codec, source, datagrams[..i], payload)
    {
      if Tiled(codec, source, datagrams, payload) {
        TiledMeansChecked(codec, source, datagrams, i, payload);
      }
      var checked := ValidateDatagram(codec, source, datagrams[i], cursor, ids, payload);
      if checked.Err? {
        return Err(checked.error);
      }
      CheckedGrows(codec, source, datagrams, i, payload);
      CheckedLength(codec, source, datagrams[i], cursor, ids, payload);
      ids := ids + {datagrams[i].id};
      cursor := cursor + datagrams[i].length;
      IdsGrow(datagrams, i);
    }
    assert datagrams[..|datagrams|] == datagrams;
    if Tiled(codec, source, datagrams, payload) {
      TiledTotal(codec, source, datagrams, payload);
    }
    if cursor != |payload| {
      return Err(DatagramTotalMismatch);
    }
    CheckedMeansTiled(codec, source, datagrams, payload);
    return Ok(());
  }

  /** What a tiling is: the first datagram starts at 0, each next one where the one before ends, the last one ends
      with the payload, and each has its own ID and refers to, counts and hashes exactly its own range. */
  lemma TilingMeans(codec: Codec, source: string, datagrams: seq<DatagramModel>, payload: seq<Octet>)
    ensures Tiled(codec, source, datagrams, payload) <==>
              && EndToEnd(datagrams, |payload|)
              && (forall i :: 0 <= i < |datagrams| ==> OwnRange(codec, source, datagrams[i], payload))
              && (forall i, j :: 0 <= i < j < |datagrams| ==> datagrams[i].id != datagrams[j].id)
  {
    hide *;
    if Tiled(codec, source, datagrams, payload) {
      TiledInLine(codec, source, datagrams, payload);
    }
    if EndToEnd(datagrams, |payload|)
       && (forall i :: 0 <= i < |datagrams| ==> OwnRange(codec, source, datagrams[i], payload))
       && forall i, j :: 0 <= i < j < |datagrams| ==> datagrams[i].id != datagrams[j].id {
      InLineTiled(codec, source, datagrams, payload);
    }
  }

  /** The first starts at 0, each next one where the one before ends, and the last one ends at `length`. */
  ghost predicate EndToEnd(datagrams: seq<DatagramModel>, length: int) {
    var n := |datagrams|;
    && (if n == 0 then length == 0
        else datagrams[0].offset == 0 && datagrams[n - 1].offset + datagrams[n - 1].length == length)
    && (forall i :: 0 < i < n ==> datagrams[i].offset == datagrams[i - 1].offset + datagrams[i - 1].length)
  }

  lemma TiledInLine(codec: Codec, source: string, datagrams: seq<DatagramModel>, payload: seq<Octet>)
    requires Tiled(codec, source, datagrams, payload)
    ensures EndToEnd(datagrams, |payload|)
    ensures forall i :: 0 <= i < |datagrams| ==> OwnRange(codec, source, datagrams[i], payload)
    ensures forall i, j :: 0 <= i < j < |datagrams| ==> datagrams[i].id != datagrams[j].id
  {
    forall i | 0 <= i < |datagrams|
      ensures OwnRange(codec, source, datagrams[i], payload) && datagrams[i].offset == OffsetOf(datagrams, i)
    {
      assert DatagramValid(codec, source, datagrams, i, payload);
    }
    hide OwnRange, DatagramValid;
  }

  lemma InLineTiled(codec: Codec, source: string, datagrams: seq<DatagramModel>, payload: seq<Octet>)
    requires EndToEnd(datagrams, |payload|)
    requires forall i :: 0 <= i < |datagrams| ==> OwnRange(codec, source, datagrams[i], payload)
    requires forall i, j :: 0 <= i < j < |datagrams| ==> datagrams[i].id != datagrams[j].id
    ensures Tiled(codec, source, datagrams, payload)
  {
    forall i | 0 <= i < |datagrams|
      ensures DatagramValid(codec, source, datagrams, i, payload) && datagrams[i].id != ""
      ensures datagrams[i].offset == OffsetOf(datagrams, i)
    {
      assert OwnRange(codec, source, datagrams[i], payload);
      OffsetsInLine(datagrams, i);
    }
    hide OwnRange, DatagramValid;
  }

  predicate OwnRange(codec: Codec, source: string, d: DatagramModel, payload: seq<Octet>) {
    && d.id != "" && d.length >= 0 && d.bytes == d.length
    && 0 <= d.offset <= |payload| - d.length && d.reference == Range(source, d.offset, d.length)
    && d.sha256 == codec.sha256(payload[d.offset..d.offset + d.length])
  }

  lemma {:induction false} OffsetsInLine(datagrams: seq<DatagramModel>, i: nat)
    requires i < |datagrams| && datagrams[0].offset == 0
    requires forall k :: 0 < k < |datagrams| ==>
              datagrams[k].offset == datagrams[k - 1].offset + datagrams[k - 1].length
    ensures datagrams[i].offset == OffsetOf(datagrams, i)
  {
    if i > 0 {
      OffsetsInLine(datagrams, i - 1);
    }
  }

  lemma CheckedLength(codec: Codec, source: string, d: DatagramModel, cursor: int, ids: set<string>,
                      payload: seq<Octet>)
    requires 0 <= cursor && ItemChecked(codec, source, d, cursor, ids, payload)
    ensures d.length >= 0
  {
  }

  lemma TiledTotal(codec: Codec, source: string, datagrams: seq<DatagramModel>, payload: seq<Octet>)
    requires Tiled(codec, source, datagrams, payload)
    ensures OffsetOf(datagrams, |datagrams|) == |payload|
  {
  }

  lemma IdsGrow(datagrams: seq<DatagramModel>, i: nat)
    requires i < |datagrams|
    ensures Ids(datagrams[..i + 1]) == Ids(datagrams[..i]) + {datagrams[i].id}
  {
    var grown := datagrams[..i + 1];
    forall id | id in Ids(grown)
      ensures id in Ids(datagrams[..i]) + {datagrams[i].id}
    {
      var k :| 0 <= k <= i && grown[k].id == id;
      assert k < i ==> datagrams[..i][k].id == id;
    }
    forall id | id in Ids(datagrams[..i]) + {datagrams[i].id}
      ensures id in Ids(grown)
    {
      if id in Ids(datagrams[..i]) {
        var k :| 0 <= k < i && datagrams[..i][k].id == id;
        assert grown[k].id == id;
      } else {
        assert grown[i].id == id;
      }
    }
  }

  method ValidateDirection(codec: Codec, protocol: Protocol, d: DirectionModel) returns (r: Result<(), ModelError>)
    ensures r.Ok? <==> DirectionValid(codec, protocol, d)
  {
    hide Tiled;
    var decoded := codec.decode(d.base64);
    if decoded.None? {
      return Err(Base64Error);
    }
    var payload := decoded.value;
    if |payload| != d.bytes {
      return Err(LengthMismatch);
    }
    if codec.sha256(payload) != d.sha256 {
      return Err(HashMismatch);
    }
    if protocol.UDP? {
      r := ValidateDatagrams(codec, d.id, d.datagrams, payload);
    } else {
      r := Ok(());
    }
  }

  method ValidateFlow(codec: Codec, flow: FlowModel) returns (r: Result<(), ModelError>)
    ensures r.Ok? <==> FlowValid(codec, flow)
  {
    hide DirectionValid;
    if flow.owner == "" {
      return Err(OwnerMissing);
    }
    var ids: set<string> := {};
    for j := 0 to |flow.directions|
      invariant ids == set k | 0 <= k < j :: flow.directions[k].id
      invariant forall k :: 0 <= k < j ==> flow.directions[k].id != ""
      invariant forall k, l :: 0 <= k < l < j ==> flow.directions[k].id != flow.directions[l].id
      invariant forall k :: 0 <= k < j ==> DirectionValid(codec, flow.protocol, flow.directions[k])
    {
      var d := flow.directions[j];
      if d.id == "" || d.id in ids {
        return Err(DirectionIdError);
      }
      ids := ids + {d.id};
      var checked := ValidateDirection(codec, flow.protocol, d);
      if checked.Err? {
        return Err(checked.error);
      }
    }
    return Ok(());
  }

  /** What the validator pins of a UDP direction: with its identifier, its Base64 text and the lengths of its datagrams
      everything else is determined, up to the identifiers and ordinals of the datagrams. */
  lemma ValidDirectionDetermined(codec: Codec, d: DirectionModel, e: DirectionModel, i: nat)
    requires DirectionValid(codec, UDP, d) && DirectionValid(codec, UDP, e)
    requires d.id == e.id && d.base64 == e.base64 && |d.datagrams| == |e.datagrams|
    requires forall k :: 0 <= k < |d.datagrams| ==> d.datagrams[k].length == e.datagrams[k].length
    ensures d.bytes == e.bytes && d.sha256 == e.sha256
    ensures i < |d.datagrams| ==>
              && d.datagrams[i].offset == e.datagrams[i].offset && d.datagrams[i].bytes == e.datagrams[i].bytes
              && d.datagrams[i].sha256 == e.datagrams[i].sha256 && d.datagrams[i].reference == e.datagrams[i].reference
  {
    if i < |d.datagrams| {
      SameOffsets(d.datagrams, e.datagrams, i);
      hide DistinctDatagrams, OffsetOf;
      assert DatagramValid(codec, d.id, d.datagrams, i, codec.decode(d.base64).value);
      assert DatagramValid(codec, e.id, e.datagrams, i, codec.decode(d.base64).value);
    }
  }

  lemma {:induction false} SameOffsets(a: seq<DatagramModel>, b: seq<DatagramModel>, i: nat)
    requires i <= |a| == |b| && forall k :: 0 <= k < |a| ==> a[k].length == b[k].length
    ensures OffsetOf(a, i) == OffsetOf(b, i)
  {
    if i > 0 {
      SameOffsets(a, b, i - 1);
    }
  }

  /** What a valid report says at least: it is marked healthy in the known schema and encoding; its flows have distinct,
      non-empty IDs and an owner; and each direction's text decodes to as many octets as it counts, with their digest,
      which a UDP flow's datagrams cover to the last one under distinct IDs of their own. */
  lemma ValidReportMeans(codec: Codec, report: Report, i: nat, j: nat)
    requires ReportValid(codec, report)
    ensures report.schema == "fakenet.payload-report.v1" && report.encoding == "base64" && report.healthy
    ensures i < |report.flows| ==>
              && report.flows[i].id != "" && report.flows[i].owner != ""
              && (forall k :: 0 <= k < |report.flows| && k != i ==> report.flows[k].id != report.flows[i].id)
    ensures i < |report.flows| && j < |report.flows[i].directions| ==>
              var flow, d := report.flows[i], report.flows[i].directions[j];
              && d.id != "" && (forall k :: 0 <= k < |flow.directions| && k != j ==> flow.directions[k].id != d.id)
              && codec.decode(d.base64).Some?
              && d.bytes == |codec.decode(d.base64).value| && d.sha256 == codec.sha256(codec.decode(d.base64).value)
              && (flow.protocol.UDP? ==>
                    && OffsetOf(d.datagrams, |d.datagrams|) == d.bytes
                    && (forall k :: 0 <= k < |d.datagrams| ==> d.datagrams[k].id != "" && d.datagrams[k].length >= 0)
                    && forall k, l :: 0 <= k < l < |d.datagrams| ==> d.datagrams[k].id != d.datagrams[l].id)
  {
    hide OffsetOf;
    if i < |report.flows| {
      assert FlowValid(codec, report.flows[i]);
      if j < |report.flows[i].directions| {
        var flow, d := report.flows[i], report.flows[i].directions[j];
        assert DirectionValid(codec, flow.protocol, d);
        forall k | flow.protocol.UDP? && 0 <= k < |d.datagrams|
          ensures d.datagrams[k].id != "" && d.datagrams[k].length >= 0
        {
          assert DatagramValid(codec, d.id, d.datagrams, k, codec.decode(d.base64).value);
        }
      }
    }
  }

  method ValidatePayloadModel(codec: Codec, report: Report) returns (r: Result<(), ModelError>)
    ensures r.Ok? <==> ReportValid(codec, report)
  {
    hide FlowValid;
    if report.schema != REPORT_SCHEMA {
      return Err(SchemaError);
    }
    if report.encoding != REPORT_ENCODING {
      return Err(EncodingError);
    }
    if !report.healthy {
      return Err(Unhealthy);
    }
    var ids: set<string> := {};
    for i := 0 to |report.flows|
      invariant ids == set k | 0 <= k < i :: report.flows[k].id
      invariant forall k :: 0 <= k < i ==> report.flows[k].id != ""
      invariant forall k, l :: 0 <= k < l < i ==> report.flows[k].id != report.flows[l].id
      invariant forall k :: 0 <= k < i ==> FlowValid(codec, report.flows[k])
    {
      var flow := report.flows[i];
      if flow.id == "" || flow.id in ids {
        return Err(FlowIdError);
      }
      ids := ids + {flow.id};
      var checked := ValidateFlow(codec, flow);
      if checked.Err? {
        return Err(checked.error);
      }
    }
    return Ok(());
  }
}
