/** Exact removal of one owned default route, and its independent verification. */
module RouteRecovery {
  import opened Outcomes
  import Sorting
  import Text

  /** A route row; `others` are attribute names beyond the recoverable ones. */
  datatype Row = Row(dst: string, gateway: Option<string>, dev: Option<string>, table: Option<string>,
                     protocol: Option<string>, scope: Option<string>, prefsrc: Option<string>, metric: Option<string>,
                     flags: seq<string>, others: set<string>)

  datatype RouteError =
    | ForeignDestination | UnownedDrift | NotFromNoDefault | Ambiguous | NotOriginalTarget
    | Unrecoverable | NotQuiescent | ChangedAfterStop | ForeignDrift | RemovalFailed | NotRestored | SnapshotFailed
    | RemovalInterrupted | OwnedMismatch | StopLimitationChanged | ForeignAfterStop | ActionMissing | RestorationFailed

  /** Sorted JSON text of a row, and the address syntax. */
  datatype Syntax = Syntax(dumps: Row -> string, ipv4: string -> bool) {
    ghost predicate Faithful() {
      forall a, b :: dumps(a) == dumps(b) ==> a == b
    }
  }

  /** argv of `ip route del`: the option list after the device. */
  type Command = seq<string>

  // ---------------------------------------------------------------- canonical snapshots

  predicate Precedes(s: Syntax, a: Row, b: Row) {
    !Text.Less(s.dumps(b), s.dumps(a))
  }

  function ByText(s: Syntax): (Row, Row) -> bool {
    (a, b) => Precedes(s, a, b)
  }

  /** Rows sorted by their JSON text. */
  function SortedRows(s: Syntax, rows: seq<Row>): seq<Row> {
    Sorting.Sorted(ByText(s), rows)
  }

  predicate OnlyDefaults(rows: seq<Row>) {
    forall i :: 0 <= i < |rows| ==> rows[i].dst == "default"
  }

  lemma PrecedesOrder(s: Syntax, a: Row, b: Row, c: Row)
    requires s.Faithful()
    ensures Precedes(s, a, b) || Precedes(s, b, a)
    ensures Precedes(s, a, b) && Precedes(s, b, a) ==> a == b
    ensures Precedes(s, a, b) && Precedes(s, b, c) ==> Precedes(s, a, c)
  {
    var x, y, z := s.dumps(a), s.dumps(b), s.dumps(c);
    Text.LessTotal(x, y);
    Text.LessTotal(y, z);
    if Text.Less(x, y) {
      Text.LessAsymmetric(x, y);
      if Text.Less(z, x) {
        Text.LessTransitive(z, x, y);
      }
    }
  }

  lemma TextOrder(s: Syntax)
    requires s.Faithful()
    ensures Sorting.Total(ByText(s))
    ensures forall a, b :: ByText(s)(a, b) && ByText(s)(b, a) ==> a == b
  {
    hide Precedes;
    forall a, b, c
      ensures ByText(s)(a, b) || ByText(s)(b, a)
      ensures ByText(s)(a, b) && ByText(s)(b, a) ==> a == b
      ensures ByText(s)(a, b) && ByText(s)(b, c) ==> ByText(s)(a, c)
    {
      PrecedesOrder(s, a, b, c);
    }
  }

  lemma SortKeeps(s: Syntax, rows: seq<Row>)
    requires s.Faithful()
    ensures multiset(SortedRows(s, rows)) == multiset(rows)
  {
    TextOrder(s);
    Sorting.SortKeeps(ByText(s), rows);
  }

  lemma SortedSingle(s: Syntax, row: Row)
    ensures SortedRows(s, [row]) == [row] && SortedRows(s, []) == []
  {
    assert [row][1..] == [];
    assert Sorting.Sorted(ByText(s), [row]) == Sorting.Insert(ByText(s), row, []);
  }

  lemma NoRows(rows: seq<Row>)
    requires multiset(rows) == multiset{}
    ensures rows == []
  {
    assert |multiset(rows)| == |rows|;
  }

  /** Two snapshots are canonically equal exactly when they hold the same rows equally often. */
  lemma CanonicalIsMultiset(s: Syntax, a: seq<Row>, b: seq<Row>)
    requires s.Faithful()
    ensures SortedRows(s, a) == SortedRows(s, b) <==> multiset(a) == multiset(b)
  {
    TextOrder(s);
    hide ByText, Sorting.Total, Sorting.InOrder, Sorting.Sorted;
    Sorting.SortKeeps(ByText(s), a);
    Sorting.SortKeeps(ByText(s), b);
    if multiset(a) == multiset(b) {
      Sorting.OrderDetermines(ByText(s), Sorting.Sorted(ByText(s), a), Sorting.Sorted(ByText(s), b));
    }
  }

  lemma SortedAgain(s: Syntax, rows: seq<Row>)
    requires s.Faithful()
    ensures SortedRows(s, SortedRows(s, rows)) == SortedRows(s, rows)
    ensures OnlyDefaults(rows) ==> OnlyDefaults(SortedRows(s, rows))
  {
    SortKeeps(s, rows);
    CanonicalIsMultiset(s, SortedRows(s, rows), rows);
    forall i | 0 <= i < |SortedRows(s, rows)| && OnlyDefaults(rows)
      ensures SortedRows(s, rows)[i].dst == "default"
    {
      assert SortedRows(s, rows)[i] in multiset(rows);
    }
  }

  // ---------------------------------------------------------------- the one command

  predicate TokenCharacter(c: char) {
    ('a' <= c <= 'z') || ('A' <= c <= 'Z') || ('0' <= c <= '9') || c in {'_', '.', ':', '-'}
  }

  predicate Token(text: string) {
    1 <= |text| <= 64 && forall i :: 0 <= i < |text| ==> TokenCharacter(text[i])
  }

  function Qualifier(option: string, value: Option<string>): Command {
    if value.None? then [] else [option, value.value]
  }

  predicate QualifierOk(value: Option<string>) {
    value.Some? ==> Token(value.value)
  }

  function DeleteCommand(s: Syntax, row: Row): Result<Command, RouteError> {
    if row.others == {} && row.dst == "default" && row.flags == []
       && row.gateway.Some? && s.ipv4(row.gateway.value)
       && row.dev.Some? && Token(row.dev.value)
       && QualifierOk(row.table) && QualifierOk(row.protocol) && QualifierOk(row.scope)
       && QualifierOk(row.prefsrc) && (row.prefsrc.Some? ==> s.ipv4(row.prefsrc.value))
       && QualifierOk(row.metric)
    then Ok(["ip", "-4", "route", "del", "default", "via", row.gateway.value, "dev", row.dev.value]
            + Qualifier("table", row.table) + Qualifier("proto", row.protocol) + Qualifier("scope", row.scope)
            + Qualifier("src", row.prefsrc) + Qualifier("metric", row.metric))
    else Err(Unrecoverable)
  }

  /** The row the original owner added to an empty default table, if it added one. */
  function OwnedRow(s: Syntax, before: seq<Row>, active: seq<Row>, ipv4: string, interface: string, added: bool)
    : Result<Option<Row>, RouteError>
  {
    if !OnlyDefaults(before) || !OnlyDefaults(active) then Err(ForeignDestination)
    else if !added then
      if SortedRows(s, before) != SortedRows(s, active) then Err(UnownedDrift) else Ok(None)
    else if before != [] then Err(NotFromNoDefault)
    else if |active| != 1 then Err(Ambiguous)
    else if active[0].gateway != Some(ipv4) || active[0].dev != Some(interface) then Err(NotOriginalTarget)
    else if DeleteCommand(s, active[0]).Err? then Err(Unrecoverable)
    else Ok(Some(active[0]))
  }

  /** What recover_route is given. */
  datatype Given = Given(before: seq<Row>, active: seq<Row>, afterStop: seq<Row>, ipv4: string, interface: string,
                         added: bool, quiescent: bool)
  {
    predicate Proper() {
      OnlyDefaults(before) && OnlyDefaults(active) && OnlyDefaults(afterStop)
    }

    function Owned(s: Syntax): Result<Option<Row>, RouteError> {
      OwnedRow(s, before, active, ipv4, interface, added)
    }
  }

  /** The record that recover_route fills in. */
  datatype Record = Record(before: seq<Row>, active: seq<Row>, afterStop: seq<Row>, afterRecovery: Option<seq<Row>>,
                           added: bool, quiescent: bool, stopRestored: bool, owned: Option<Row>,
                           command: Option<Command>, returnCode: Option<int>, restored: bool, error: Option<RouteError>)

  function Begun(s: Syntax, g: Given): Record {
    var before, afterStop := SortedRows(s, g.before), SortedRows(s, g.afterStop);
    Record(before, SortedRows(s, g.active), afterStop, None, g.added, g.quiescent, before == afterStop,
           None, None, None, false, None)
  }

  // ---------------------------------------------------------------- the routing table

  /** How a request may go wrong: refused with an error code, or interrupted before or after it took effect. */
  datatype Fault = NoFault | Refused | LostBefore | LostAfter

  /** The kernel's IPv4 routes. `faults` says, per request, how it goes. */
  class RouteTable {
    const syntax: Syntax
    const faults: nat -> Fault
    var rows: seq<Row>
    var requests: nat
    var deletions: seq<Command>

    constructor (syntax: Syntax, faults: nat -> Fault, rows: seq<Row>)
      ensures this.syntax == syntax && this.faults == faults && this.rows == rows
      ensures requests == 0 && deletions == []
    {
      this.syntax, this.faults, this.rows := syntax, faults, rows;
      requests, deletions := 0, [];
    }

    /** The canonical default rows. */
    method Snapshot() returns (r: Result<seq<Row>, RouteError>)
      modifies this`requests
      ensures requests == old(requests) + 1
      ensures r == if faults(old(requests)) == NoFault
                   then Ok(SortedRows(syntax, Defaults(rows))) else Err(SnapshotFailed)
    {
      requests := requests + 1;
      if faults(requests - 1) != NoFault {
        return Err(SnapshotFailed);
      }
      return Ok(SortedRows(syntax, Defaults(rows)));
    }

    /** Deletes the first default row that the command selects, if there is one. An interruption leaves no
        return code, and may come after the route is gone. */
    method Delete(command: Command) returns (returnCode: Option<int>)
      modifies this
      ensures requests == old(requests) + 1 && deletions == old(deletions) + [command]
      ensures var k := FirstSelected(old(rows), command);
              && rows == (if k < |old(rows)| && faults(old(requests)) in {NoFault, LostAfter}
                          then old(rows)[..k] + old(rows)[k + 1..] else old(rows))
              && returnCode == match faults(old(requests))
                               case NoFault => Some(if k < |old(rows)| then 0 else 2)
                               case Refused => Some(2)
                               case _ => None
    {
      requests, deletions := requests + 1, deletions + [command];
      var k := FirstSelected(rows, command);
      var fault := faults(requests - 1);
      if fault == Refused || (fault == NoFault && k == |rows|) {
        return Some(2);
      }
      if k < |rows| && fault != LostBefore {
        rows := rows[..k] + rows[k + 1..];
      }
      return if fault == NoFault then Some(0) else None;
    }

    /** Removes the one row of a table whose only default row it is. */
    method RemoveOwned(row: Row, ghost before: seq<Row>, ghost active: seq<Row>)
      returns (command: Command, returnCode: Option<int>)
      requires syntax.Faithful() && DeleteCommand(syntax, row).Ok?
      requires before == [] && active == [row] && SortedRows(syntax, Defaults(rows)) == active
      modifies this
      ensures command == DeleteCommand(syntax, row).value
      ensures Touches(syntax, old(rows), rows, old(deletions), deletions, before, active)
      ensures returnCode == Some(0) ==> Defaults(rows) == []
      ensures (forall k :: faults(k) == NoFault) ==> returnCode == Some(0)
    {
      hide DeleteCommand, SortedRows, Defaults, Touches, FirstSelected;
      OnlyRow(syntax, rows, row);
      command := DeleteCommand(syntax, row).value;
      ghost var rows0, deletions0 := rows, deletions;
      returnCode := Delete(command);
      TouchedOnce(syntax, rows0, rows, deletions0, before, active);
    }

    method RecoverRoute(g: Given) returns (r: Result<Record, RouteError>)
      requires syntax.Faithful()
      modifies this
      ensures r.Ok? <==> g.Proper()
      ensures r.Err? ==> rows == old(rows) && deletions == old(deletions)
      ensures r.Ok? ==> Recorded(syntax, r.value, g)
      ensures r.Ok? && r.value.restored ==> multiset(Defaults(rows)) == multiset(g.before) && g.Owned(syntax).Ok?
      ensures Touches(syntax, old(rows), rows, old(deletions), deletions, g.before, g.active)
      ensures r.Ok? && (forall k :: faults(k) == NoFault) ==>
                (r.value.restored <==> Recoverable(syntax, old(rows), g))
    {
      hide *;
      RecoverableMeans(syntax, rows, g);
      Untouched(syntax, rows, deletions, g.before, g.active);
      if !g.Proper() {
        return Err(ForeignDestination);
      }
      BegunTells(syntax, g);
      var record := Begun(syntax, g);
      var owned := g.Owned(syntax);
      if owned.Err? {
        record := GiveUp(record, owned.error, g);
        return Ok(record);
      }
      record := record.(owned := owned.value);
      if !g.quiescent {
        record := GiveUp(record, NotQuiescent, g);
        return Ok(record);
      }
      var observed := Snapshot();
      if observed.Err? {
        record := GiveUp(record, observed.error, g);
        return Ok(record);
      }
      if observed.value != record.afterStop {
        record := GiveUp(record, ChangedAfterStop, g);
        return Ok(record);
      }
      if owned.value.Some? && observed.value != record.before {
        if observed.value != record.active {
          record := GiveUp(record, ForeignDrift, g);
          return Ok(record);
        }
        OwnedMeans(syntax, g);
        var command, returnCode := RemoveOwned(owned.value.value, g.before, g.active);
        record := record.(command := Some(command), returnCode := returnCode);
        if returnCode != Some(0) {
          record := GiveUp(record, if returnCode.None? then RemovalInterrupted else RemovalFailed, g);
          return Ok(record);
        }
      }
      var after := Snapshot();
      if after.Err? {
        record := GiveUp(record, after.error, g);
        return Ok(record);
      }
      record := record.(afterRecovery := Some(after.value));
      if after.value != record.before {
        record := GiveUp(record, NotRestored, g);
        return Ok(record);
      }
      CanonicalIsMultiset(syntax, Defaults(rows), g.before);
      record := record.(restored := true);
      if owned.value.None? {
        NothingOwned(syntax, g);
      }
      Succeeded(syntax, record, g);
      return Ok(record);
    }

    /** Notes the error and the last observation that can still be made. */
    method GiveUp(record: Record, e: RouteError, ghost g: Given) returns (r: Record)
      requires record.before == SortedRows(syntax, g.before) && record.active == SortedRows(syntax, g.active)
      requires record.afterStop == SortedRows(syntax, g.afterStop) && !record.restored
      requires record.added == g.added && record.quiescent == g.quiescent
      requires record.stopRestored == (record.before == record.afterStop)
      modifies this`requests
      ensures !r.restored && Recorded(syntax, r, g)
    {
      hide SortedRows, OwnedRow, DeleteCommand;
      r := record.(error := Some(e));
      var last := Snapshot();
      if last.Ok? {
        r := r.(afterRecovery := Some(last.value));
      }
    }
  }

  function Defaults(rows: seq<Row>): (d: seq<Row>)
    ensures OnlyDefaults(d)
  {
    if rows == [] then []
    else if rows[0].dst == "default" then [rows[0]] + Defaults(rows[1..])
    else Defaults(rows[1..])
  }

  // ---------------------------------------------------------------- what a command selects

  /** The attributes that an `ip route del` command line names. */
  datatype Named = Named(gateway: Option<string>, dev: Option<string>, table: Option<string>, protocol: Option<string>,
                         scope: Option<string>, prefsrc: Option<string>, metric: Option<string>)

  const NOTHING_NAMED := Named(None, None, None, None, None, None, None)

  const DELETE_DEFAULT: Command := ["ip", "-4", "route", "del", "default"]

  /** Reads option and value pairs, each option at most once. */
  function ReadOptions(words: Command, named: Named): Option<Named> {
    if words == [] then Some(named)
    else if |words| == 1 then None
    else if words[0] == "via" && named.gateway.None? then ReadOptions(words[2..], named.(gateway := Some(words[1])))
    else if words[0] == "dev" && named.dev.None? then ReadOptions(words[2..], named.(dev := Some(words[1])))
    else if words[0] == "table" && named.table.None? then ReadOptions(words[2..], named.(table := Some(words[1])))
    else if words[0] == "proto" && named.protocol.None? then ReadOptions(words[2..], named.(protocol := Some(words[1])))
    else if words[0] == "scope" && named.scope.None? then ReadOptions(words[2..], named.(scope := Some(words[1])))
    else if words[0] == "src" && named.prefsrc.None? then ReadOptions(words[2..], named.(prefsrc := Some(words[1])))
    else if words[0] == "metric" && named.metric.None? then ReadOptions(words[2..], named.(metric := Some(words[1])))
    else None
  }

  function Reading(command: Command): Option<Named> {
    if DELETE_DEFAULT <= command then ReadOptions(command[|DELETE_DEFAULT|..], NOTHING_NAMED) else None
  }

  predicate Fits(named: Option<string>, actual: Option<string>) {
    named.Some? ==> actual == named
  }

  /** A default row that agrees with the command on every attribute the command names. */
  predicate Selected(row: Row, command: Command) {
    var named := Reading(command);
    && named.Some? && row.dst == "default"
    && Fits(named.value.gateway, row.gateway) && Fits(named.value.dev, row.dev) && Fits(named.value.table, row.table)
    && Fits(named.value.protocol, row.protocol) && Fits(named.value.scope, row.scope)
    && Fits(named.value.prefsrc, row.prefsrc) && Fits(named.value.metric, row.metric)
  }

  lemma ReadVia(value: string, rest: Command, named: Named)
    requires named.gateway.None?
    ensures ReadOptions(["via", value] + rest, named) == ReadOptions(rest, named.(gateway := Some(value)))
  {
    assert (["via", value] + rest)[2..] == rest;
  }

  lemma ReadDev(value: string, rest: Command, named: Named)
    requires named.dev.None?
    ensures ReadOptions(["dev", value] + rest, named) == ReadOptions(rest, named.(dev := Some(value)))
  {
    assert (["dev", value] + rest)[2..] == rest;
  }

  /** A qualifier reads back as what was put into it, or as nothing. */
  lemma ReadQualifier(option: string, value: Option<string>, rest: Command, named: Named)
    ensures option == "table" && named.table.None? ==>
              ReadOptions(Qualifier(option, value) + rest, named) == ReadOptions(rest, named.(table := value))
    ensures option == "proto" && named.protocol.None? ==>
              ReadOptions(Qualifier(option, value) + rest, named) == ReadOptions(rest, named.(protocol := value))
    ensures option == "scope" && named.scope.None? ==>
              ReadOptions(Qualifier(option, value) + rest, named) == ReadOptions(rest, named.(scope := value))
    ensures option == "src" && named.prefsrc.None? ==>
              ReadOptions(Qualifier(option, value) + rest, named) == ReadOptions(rest, named.(prefsrc := value))
    ensures option == "metric" && named.metric.None? ==>
              ReadOptions(Qualifier(option, value) + rest, named) == ReadOptions(rest, named.(metric := value))
  {
    if value.Some? {
      assert ([option, value.value] + rest)[2..] == rest;
    } else {
      assert [] + rest == rest;
    }
  }

  /** The command built for a row reads back as exactly the row's attributes. */
  lemma CommandReadsBack(s: Syntax, row: Row)
    requires DeleteCommand(s, row).Ok?
    ensures Reading(DeleteCommand(s, row).value)
         == Some(Named(row.gateway, row.dev, row.table, row.protocol, row.scope, row.prefsrc, row.metric))
  {
    var gateway, dev := row.gateway.value, row.dev.value;
    var table, protocol := Qualifier("table", row.table), Qualifier("proto", row.protocol);
    var scope, prefsrc, metric :=
        Qualifier("scope", row.scope), Qualifier("src", row.prefsrc), Qualifier("metric", row.metric);
    var named := NOTHING_NAMED;
    var command := DeleteCommand(s, row).value;
    var front: Command := ["ip", "-4", "route", "del", "default", "via", gateway, "dev", dev];
    assert command == front + table + protocol + scope + prefsrc + metric;
    hide DeleteCommand, Qualifier, ReadOptions;
    Nested(front, table, protocol, scope, prefsrc, metric);
    HeadRead(gateway, dev, table + (protocol + (scope + (prefsrc + (metric + [])))));
    ReadBegins(command, ["via", gateway] + (["dev", dev] + (table + (protocol + (scope + (prefsrc + (metric + [])))))));
    ReadVia(gateway, ["dev", dev] + (table + (protocol + (scope + (prefsrc + (metric + []))))), named);
    named := named.(gateway := row.gateway);
    ReadDev(dev, table + (protocol + (scope + (prefsrc + (metric + [])))), named);
    named := named.(dev := row.dev);
    ReadQualifier("table", row.table, protocol + (scope + (prefsrc + (metric + []))), named);
    named := named.(table := row.table);
    ReadQualifier("proto", row.protocol, scope + (prefsrc + (metric + [])), named);
    named := named.(protocol := row.protocol);
    ReadQualifier("scope", row.scope, prefsrc + (metric + []), named);
    named := named.(scope := row.scope);
    ReadQualifier("src", row.prefsrc, metric + [], named);
    named := named.(prefsrc := row.prefsrc);
    ReadQualifier("metric", row.metric, [], named);
    ReadNothing(named.(metric := row.metric));
  }

  lemma Nested(front: Command, a: Command, b: Command, c: Command, d: Command, e: Command)
    ensures front + a + b + c + d + e == front + (a + (b + (c + (d + (e + [])))))
  {
  }

  lemma HeadRead(gateway: string, dev: string, rest: Command)
    ensures ["ip", "-4", "route", "del", "default", "via", gateway, "dev", dev] + rest
         == DELETE_DEFAULT + (["via", gateway] + (["dev", dev] + rest))
  {
  }

  lemma ReadBegins(command: Command, rest: Command)
    requires command == DELETE_DEFAULT + rest
    ensures Reading(command) == ReadOptions(rest, NOTHING_NAMED)
  {
    hide ReadOptions;
    assert command[|DELETE_DEFAULT|..] == rest;
  }

  lemma ReadNothing(named: Named)
    ensures ReadOptions([], named) == Some(named)
  {
  }

  /** The command selects the row it was built for, and every row it selects agrees with that row on the gateway,
      the device and every qualifier that the row has. */
  lemma CommandSelects(s: Syntax, row: Row, other: Row)
    requires DeleteCommand(s, row).Ok?
    ensures Selected(row, DeleteCommand(s, row).value)
    ensures Selected(other, DeleteCommand(s, row).value) ==>
              && other.dst == "default" && other.gateway == row.gateway && other.dev == row.dev
              && (row.table.Some? ==> other.table == row.table)
              && (row.protocol.Some? ==> other.protocol == row.protocol)
              && (row.scope.Some? ==> other.scope == row.scope)
              && (row.prefsrc.Some? ==> other.prefsrc == row.prefsrc)
              && (row.metric.Some? ==> other.metric == row.metric)
  {
    CommandReadsBack(s, row);
    RecoverableRow(s, row);
    hide Reading, DeleteCommand;
  }

  /** Words of one to 64 letters, digits, underscores, dots, colons and hyphens: none is read as two words. */
  lemma TokenMeans(text: string)
    ensures Token(text) <==>
              && text != "" && |text| < 65
              && forall c :: c in text ==>
                   'a' <= c <= 'z' || 'A' <= c <= 'Z' || '0' <= c <= '9' || c == '_' || c == '.' || c == ':' || c == '-'
  {
    assert forall c :: c in text ==> exists i :: 0 <= i < |text| && text[i] == c;
    assert forall i :: 0 <= i < |text| ==> text[i] in text;
  }

  /** A row can be deleted exactly only if it is a default route through a known gateway and device, carries no
      flag and no attribute that a command line could not name, and its qualifiers are plain words. */
  lemma RecoverableRow(s: Syntax, row: Row)
    ensures DeleteCommand(s, row).Ok? <==>
              && row.dst == "default" && row.others == {} && row.flags == []
              && row.gateway.Some? && s.ipv4(row.gateway.value) && row.dev.Some? && Token(row.dev.value)
              && (row.table.Some? ==> Token(row.table.value)) && (row.protocol.Some? ==> Token(row.protocol.value))
              && (row.scope.Some? ==> Token(row.scope.value))
              && (row.prefsrc.Some? ==> Token(row.prefsrc.value) && s.ipv4(row.prefsrc.value))
              && (row.metric.Some? ==> Token(row.metric.value))
  {
  }

  function FirstSelected(rows: seq<Row>, command: Command): (k: nat)
    ensures k <= |rows|
    ensures k < |rows| ==> Selected(rows[k], command)
    ensures forall i :: 0 <= i < k ==> !Selected(rows[i], command)
  {
    if rows == [] || Selected(rows[0], command) then 0 else 1 + FirstSelected(rows[1..], command)
  }

  // ---------------------------------------------------------------- what recovery guarantees

  lemma OwnedMeans(s: Syntax, g: Given)
    requires g.Owned(s).Ok? && g.Owned(s).value.Some?
    ensures g.added && g.before == [] && g.active == [g.Owned(s).value.value]
    ensures DeleteCommand(s, g.active[0]).Ok?
    ensures SortedRows(s, g.active) == g.active && SortedRows(s, g.before) == []
  {
    SortedSingle(s, g.active[0]);
  }

  /** Who owns a row: the owner that added it to a table without defaults, where it now is the only one, through the
      original target and interface, and can be deleted exactly. Without an addition nobody owns any, and then
      nothing may have changed. */
  lemma OwnedExactly(s: Syntax, g: Given, row: Row)
    requires s.Faithful()
    ensures g.Owned(s) == Ok(Some(row)) <==>
              && g.added && g.before == [] && g.active == [row] && row.dst == "default"
              && row.gateway == Some(g.ipv4) && row.dev == Some(g.interface) && DeleteCommand(s, row).Ok?
    ensures g.Owned(s) == Ok(None) <==>
              && !g.added && OnlyDefaults(g.before) && OnlyDefaults(g.active)
              && multiset(g.before) == multiset(g.active)
  {
    CanonicalIsMultiset(s, g.before, g.active);
    hide SortedRows, DeleteCommand;
  }

  lemma {:induction false} DefaultsConcat(a: seq<Row>, b: seq<Row>)
    ensures Defaults(a + b) == Defaults(a) + Defaults(b)
  {
    if a == [] {
      assert a + b == b;
    } else {
      assert (a + b)[0] == a[0] && (a + b)[1..] == a[1..] + b;
      DefaultsConcat(a[1..], b);
    }
  }

  lemma DefaultsHold(rows: seq<Row>, k: nat)
    requires k < |rows| && rows[k].dst == "default"
    ensures rows[k] in Defaults(rows)
    ensures multiset(Defaults(rows[..k] + rows[k + 1..])) == multiset(Defaults(rows)) - multiset{rows[k]}
  {
    var front, row, back := rows[..k], rows[k], rows[k + 1..];
    hide *;
    assert rows == front + ([row] + back);
    DefaultsConcat(front, [row] + back);
    DefaultsConcat(front, back);
    DefaultFirst(row, back);
    MultisetMiddle(Defaults(front), row, Defaults(back));
  }

  lemma DefaultFirst(row: Row, back: seq<Row>)
    requires row.dst == "default"
    ensures Defaults([row] + back) == [row] + Defaults(back)
  {
    assert ([row] + back)[1..] == back;
  }

  lemma MultisetMiddle(front: seq<Row>, row: Row, back: seq<Row>)
    ensures row in front + ([row] + back)
    ensures multiset(front + back) == multiset(front + ([row] + back)) - multiset{row}
  {
    assert (front + ([row] + back))[|front|] == row;
  }

  /** A table whose only default row is the owned one holds it at exactly one place. */
  lemma OnlyRow(s: Syntax, rows: seq<Row>, row: Row)
    requires s.Faithful() && SortedRows(s, Defaults(rows)) == [row] && DeleteCommand(s, row).Ok?
    ensures var k := FirstSelected(rows, DeleteCommand(s, row).value);
            && k < |rows| && rows[k] == row
            && Defaults(rows[..k] + rows[k + 1..]) == []
  {
    hide *;
    var command := DeleteCommand(s, row).value;
    var k := FirstSelected(rows, command);
    SortKeeps(s, Defaults(rows));
    assert multiset(Defaults(rows)) == multiset{row};
    RowPresent(rows, row);
    CommandSelects(s, row, row);
    assert k < |rows|;
    SelectedIsDefault(rows[k], command);
    DefaultsHold(rows, k);
    assert rows[k] in multiset(Defaults(rows));
    assert multiset(Defaults(rows[..k] + rows[k + 1..])) == multiset{};
    NoRows(Defaults(rows[..k] + rows[k + 1..]));
  }

  lemma SelectedIsDefault(row: Row, command: Command)
    requires Selected(row, command)
    ensures row.dst == "default"
  {
    hide Reading;
  }

  lemma {:induction false} RowPresent(rows: seq<Row>, row: Row)
    requires row in multiset(Defaults(rows))
    ensures row in rows && row.dst == "default"
  {
    if rows[0].dst == "default" && rows[0] == row {
    } else {
      RowPresent(rows[1..], row);
    }
  }

  /** At most one deletion is issued: of the one row the owner added to an empty default table. Nothing else
      ever changes in the table. */
  ghost predicate Touches(s: Syntax, rows: seq<Row>, rows': seq<Row>, deletions: seq<Command>, deletions': seq<Command>,
                          before: seq<Row>, active: seq<Row>)
  {
    || (rows' == rows && deletions' == deletions)
    || (&& before == [] && |active| == 1 && DeleteCommand(s, active[0]).Ok?
        && deletions' == deletions + [DeleteCommand(s, active[0]).value]
        && multiset(Defaults(rows)) == multiset(active)
        && (rows' == rows
            || exists k :: 0 <= k < |rows| && rows[k] == active[0] && rows' == rows[..k] + rows[k + 1..]))
  }

  /** The record tells the inputs faithfully, and claims restoration only for the right action. */
  ghost predicate Recorded(s: Syntax, r: Record, g: Given) {
    && r.before == SortedRows(s, g.before) && r.active == SortedRows(s, g.active)
    && r.afterStop == SortedRows(s, g.afterStop)
    && r.added == g.added && r.quiescent == g.quiescent
    && r.stopRestored == (r.before == r.afterStop)
    && (r.restored <==> r.error.None?)
    && (r.restored ==>
          var owned := g.Owned(s);
          && owned.Ok? && r.owned == owned.value && g.quiescent
          && (r.afterStop == r.before || r.afterStop == r.active)
          && r.afterRecovery == Some(r.before)
          && (if owned.value.Some? && r.afterStop != r.before
              then DeleteCommand(s, owned.value.value).Ok?
                   && r.command == Some(DeleteCommand(s, owned.value.value).value) && r.returnCode == Some(0)
              else r.command == None && r.returnCode == None))
  }

  /** The owner's claim holds, the writer has quiesced, and the table still shows what it showed after the
      stop: the original rows, or the owned row alone. */
  ghost predicate Recoverable(s: Syntax, rows: seq<Row>, g: Given) {
    && g.Owned(s).Ok? && g.quiescent
    && SortedRows(s, Defaults(rows)) == SortedRows(s, g.afterStop)
    && (|| SortedRows(s, g.afterStop) == SortedRows(s, g.before)
        || (g.Owned(s).value.Some? && SortedRows(s, g.afterStop) == SortedRows(s, g.active)))
  }

  lemma Untouched(s: Syntax, rows: seq<Row>, deletions: seq<Command>, before: seq<Row>, active: seq<Row>)
    ensures Touches(s, rows, rows, deletions, deletions, before, active)
  {
  }

  lemma TouchedOnce(s: Syntax, rows: seq<Row>, rows': seq<Row>, deletions: seq<Command>, before: seq<Row>,
                    active: seq<Row>)
    requires s.Faithful() && before == [] && |active| == 1 && DeleteCommand(s, active[0]).Ok?
    requires SortedRows(s, Defaults(rows)) == active
    requires var k := FirstSelected(rows, DeleteCommand(s, active[0]).value);
             rows' == rows || (k < |rows| && rows' == rows[..k] + rows[k + 1..])
    ensures Touches(s, rows, rows', deletions, deletions + [DeleteCommand(s, active[0]).value], before, active)
  {
    hide *;
    assert active == [active[0]];
    OnlyRow(s, rows, active[0]);
    SortKeeps(s, Defaults(rows));
    var k := FirstSelected(rows, DeleteCommand(s, active[0]).value);
    TouchedAt(s, rows, rows', deletions, active, k);
  }

  lemma TouchedAt(s: Syntax, rows: seq<Row>, rows': seq<Row>, deletions: seq<Command>, active: seq<Row>, k: nat)
    requires |active| == 1 && DeleteCommand(s, active[0]).Ok? && multiset(Defaults(rows)) == multiset(active)
    requires k < |rows| && rows[k] == active[0] && (rows' == rows || rows' == rows[..k] + rows[k + 1..])
    ensures Touches(s, rows, rows', deletions, deletions + [DeleteCommand(s, active[0]).value], [], active)
  {
    hide DeleteCommand, Defaults;
  }

  lemma RecoverableMeans(s: Syntax, rows: seq<Row>, g: Given)
    ensures Recoverable(s, rows, g) <==>
              && g.Owned(s).Ok? && g.quiescent
              && SortedRows(s, Defaults(rows)) == SortedRows(s, g.afterStop)
              && (|| SortedRows(s, g.afterStop) == SortedRows(s, g.before)
                  || (g.Owned(s).value.Some? && SortedRows(s, g.afterStop) == SortedRows(s, g.active)))
    ensures SortedRows(s, []) == []
  {
  }

  lemma BegunTells(s: Syntax, g: Given)
    ensures var r := Begun(s, g);
            && r.before == SortedRows(s, g.before) && r.active == SortedRows(s, g.active)
            && r.afterStop == SortedRows(s, g.afterStop)
            && r.added == g.added && r.quiescent == g.quiescent
            && r.stopRestored == (r.before == r.afterStop)
            && r.owned == None && r.command == None && r.returnCode == None && !r.restored && r.error == None
  {
    hide SortedRows;
  }

  lemma NothingOwned(s: Syntax, g: Given)
    requires g.Owned(s) == Ok(None)
    ensures SortedRows(s, g.before) == SortedRows(s, g.active)
  {
    hide SortedRows, DeleteCommand;
  }

  lemma Succeeded(s: Syntax, r: Record, g: Given)
    requires r.before == SortedRows(s, g.before) && r.active == SortedRows(s, g.active)
    requires r.afterStop == SortedRows(s, g.afterStop)
    requires r.added == g.added && r.quiescent == g.quiescent && r.stopRestored == (r.before == r.afterStop)
    requires r.restored && r.error.None? && g.quiescent
    requires var owned := g.Owned(s);
             && owned.Ok? && r.owned == owned.value
             && (if owned.value.Some? && r.afterStop != r.before
                 then && DeleteCommand(s, owned.value.value).Ok?
                      && r.command == Some(DeleteCommand(s, owned.value.value).value) && r.returnCode == Some(0)
                      && r.afterStop == r.active
                 else r.command == None && r.returnCode == None)
             && (owned.value.None? ==> r.afterStop == r.before)
    requires r.afterRecovery == Some(r.before)
    ensures Recorded(s, r, g)
  {
    hide SortedRows, OwnedRow, DeleteCommand;
  }

  // ---------------------------------------------------------------- the independent verifier

  method VerifyRoute(s: Syntax, r: Record, ipv4: string, interface: string) returns (verdict: Result<(), RouteError>)
    ensures verdict.Ok? <==> Verifiable(s, r, ipv4, interface)
  {
    var owned := OwnedRow(s, r.before, r.active, ipv4, interface, r.added);
    if owned.Err? {
      return Err(owned.error);
    }
    if r.owned != owned.value || !r.quiescent {
      return Err(OwnedMismatch);
    }
    if !OnlyDefaults(r.afterStop) {
      return Err(ForeignDestination);
    }
    var before, active, stopped := SortedRows(s, r.before), SortedRows(s, r.active), SortedRows(s, r.afterStop);
    if r.stopRestored != (before == stopped) {
      return Err(StopLimitationChanged);
    }
    if stopped != before && stopped != active {
      return Err(ForeignAfterStop);
    }
    var expected := if owned.value.Some? && stopped != before then Some(DeleteCommand(s, owned.value.value)) else None;
    if expected.Some? && expected.value.Err? {
      return Err(expected.value.error);
    }
    var command := if expected.Some? then Some(expected.value.value) else None;
    if r.command != command || r.returnCode != (if command.Some? then Some(0) else None) {
      return Err(ActionMissing);
    }
    if r.afterRecovery.None? || !OnlyDefaults(r.afterRecovery.value)
       || SortedRows(s, r.afterRecovery.value) != before || !r.restored || r.error.Some? {
      return Err(RestorationFailed);
    }
    return Ok(());
  }

  ghost predicate Verifiable(s: Syntax, r: Record, ipv4: string, interface: string) {
    var owned := OwnedRow(s, r.before, r.active, ipv4, interface, r.added);
    && owned.Ok? && r.owned == owned.value && r.quiescent
    && OnlyDefaults(r.afterStop)
    && var before, active, stopped := SortedRows(s, r.before), SortedRows(s, r.active), SortedRows(s, r.afterStop);
    && r.stopRestored == (before == stopped)
    && (stopped == before || stopped == active)
    && (if owned.value.Some? && stopped != before
        then DeleteCommand(s, owned.value.value).Ok?
             && r.command == Some(DeleteCommand(s, owned.value.value).value) && r.returnCode == Some(0)
        else r.command == None && r.returnCode == None)
    && r.afterRecovery.Some? && OnlyDefaults(r.afterRecovery.value)
    && SortedRows(s, r.afterRecovery.value) == before
    && r.restored && r.error.None?
  }

  /** What a verified record proves: ownership or absence of change, quiescence, a table after the stop that holds the
      original or the owned rows, exactly the right action for it, and the original rows in the end. */
  lemma VerifiedMeans(s: Syntax, r: Record, ipv4: string, interface: string)
    requires s.Faithful()
    ensures Verifiable(s, r, ipv4, interface) <==>
              var owned := OwnedRow(s, r.before, r.active, ipv4, interface, r.added);
              && owned.Ok? && r.owned == owned.value && r.quiescent && r.restored && r.error == None
              && OnlyDefaults(r.afterStop)
              && (r.stopRestored <==> multiset(r.before) == multiset(r.afterStop))
              && (multiset(r.afterStop) == multiset(r.before) || multiset(r.afterStop) == multiset(r.active))
              && r.afterRecovery.Some? && OnlyDefaults(r.afterRecovery.value)
              && multiset(r.afterRecovery.value) == multiset(r.before)
              && (if owned.value.Some? && multiset(r.afterStop) != multiset(r.before)
                  then DeleteCommand(s, owned.value.value) == Ok(if r.command.Some? then r.command.value else [])
                       && r.command.Some? && r.returnCode == Some(0)
                  else r.command == None && r.returnCode == None)
  {
    CanonicalIsMultiset(s, r.before, r.afterStop);
    CanonicalIsMultiset(s, r.active, r.afterStop);
    if r.afterRecovery.Some? {
      CanonicalIsMultiset(s, r.afterRecovery.value, r.before);
    }
    hide SortedRows, DeleteCommand, OwnedRow;
  }

  lemma OwnedAgain(s: Syntax, before: seq<Row>, active: seq<Row>, ipv4: string, interface: string, added: bool)
    requires s.Faithful() && OwnedRow(s, before, active, ipv4, interface, added).Ok?
    ensures OwnedRow(s, SortedRows(s, before), SortedRows(s, active), ipv4, interface, added)
         == OwnedRow(s, before, active, ipv4, interface, added)
  {
    SortedAgain(s, before);
    SortedAgain(s, active);
    if added {
      SortedSingle(s, active[0]);
      assert active == [active[0]];
      assert SortedRows(s, active) == active;
    }
  }

  /** Recovery and its verifier agree: a record is verified exactly when it says restored. */
  lemma RestoredIsVerifiable(s: Syntax, r: Record, g: Given)
    requires s.Faithful() && g.Proper() && Recorded(s, r, g)
    ensures Verifiable(s, r, g.ipv4, g.interface) <==> r.restored
  {
    SortedAgain(s, g.before);
    SortedAgain(s, g.active);
    SortedAgain(s, g.afterStop);
    if r.restored {
      OwnedAgain(s, g.before, g.active, g.ipv4, g.interface, g.added);
    }
    hide SortedRows, DeleteCommand, OnlyDefaults;
  }
}
