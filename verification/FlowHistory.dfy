/** What a flow of any run holds, told by the packets that were registered to it. */
module FlowHistory {
  import opened Outcomes
  import opened TcpSegments
  import opened Packets
  import opened FlowRegistry
  import opened FlowRuns
  import Text

  /** The i-th observation was registered, to this flow. */
  ghost predicate JoinedTo(session: seq<Observation>, i: nat, place: nat) {
    RegistersAt(session, i) && FlowAt(session, i) == place
  }

  /** A packet that ends its connection. */
  predicate Ends(o: Observation) {
    o.facts.Some? && o.facts.value.protocol.TCP? && (o.facts.value.flags.fin || o.facts.value.flags.rst)
  }

  /** A SYN of one orientation. */
  predicate Synchronizes(o: Observation, orientation: Orientation) {
    && o.facts.Some? && o.facts.value.protocol.TCP? && o.facts.value.flags.syn
    && o.facts.value.source == orientation.source && o.facts.value.destination == orientation.destination
  }

  predicate Travels(o: Observation, orientation: Orientation) {
    o.facts.Some? && o.facts.value.source == orientation.source && o.facts.value.destination == orientation.destination
  }

  // ---------------------------------------------------------------- one step

  lemma JoinedPrefix(session: seq<Observation>, n: nat, i: nat, place: nat)
    requires i < n <= |session|
    ensures JoinedTo(session[..n], i, place) <==> JoinedTo(session, i, place)
  {
    hide Run, Registers, Slot;
    assert session[..n][..i] == session[..i];
  }

  /** The last observation changes at most the flow it was registered to. */
  lemma OthersKept(session: seq<Observation>, place: nat)
    requires session != [] && place < |Run(session).flows| && !JoinedTo(session, |session| - 1, place)
    ensures var before := Run(session[..|session| - 1]);
            place < |before.flows| && Run(session).flows[place] == before.flows[place]
  {
    var n := |session| - 1;
    var before, o := Run(session[..n]), session[n];
    assert Run(session) == Observed(before, o);
    RunWellFormed(session[..n]);
    hide Run;
    StepKeepsOthers(before, o, place);
  }

  lemma StepKeepsOthers(r: Registry, o: Observation, place: nat)
    requires WellFormed(r) && place < |Observed(r, o).flows|
    requires Registers(r, o) ==> Slot(r, o) != place
    ensures place < |r.flows| && Observed(r, o).flows[place] == r.flows[place]
  {
    if Registers(r, o) {
      PreparedWellFormed(r, o);
    }
    hide WellFormed, Joined, NewFlow, OpensFlow;
  }

  /** The flow that the last observation joined: what it was before, if it was there, and the packet. */
  lemma LastJoined(session: seq<Observation>, place: nat)
    requires session != [] && JoinedTo(session, |session| - 1, place)
    ensures place < |Run(session).flows|
    ensures var before, o, flow := Run(session[..|session| - 1]), session[|session| - 1], Run(session).flows[place];
            && o.facts.Some?
            && flow == Joined(if place < |before.flows| then before.flows[place]
                              else NewFlow(FlowId(before.nextId), o.facts.value, o.timestamp,
                                           OriginDirection(o.facts.value, o.direction)), o)
    ensures place >= |Run(session[..|session| - 1]).flows| ==> place == |Run(session[..|session| - 1]).flows|
  {
    var n := |session| - 1;
    var before, o := Run(session[..n]), session[n];
    assert Run(session) == Observed(before, o);
    RunWellFormed(session[..n]);
    PreparedWellFormed(before, o);
    hide Run, WellFormed, Joined, NewFlow;
  }

  // ---------------------------------------------------------------- closing

  /** A flow is closed if and only if some FIN or RST was registered to it. */
  lemma {:induction false} ClosedExactly(session: seq<Observation>, place: nat)
    requires place < |Run(session).flows|
    ensures Run(session).flows[place].closed <==>
              exists i :: 0 <= i < |session| && JoinedTo(session, i, place) && Ends(session[i])
  {
    EmptyRun();
    hide Run, JoinedTo;
    var n := |session| - 1;
    forall i: nat | i < n
      ensures JoinedTo(session[..n], i, place) <==> JoinedTo(session, i, place)
    {
      JoinedPrefix(session, n, i, place);
    }
    var before := Run(session[..n]);
    if JoinedTo(session, n, place) {
      LastJoined(session, place);
      if place < |before.flows| {
        ClosedExactly(session[..n], place);
      } else {
        NoneYet(session, place);
      }
    } else {
      OthersKept(session, place);
      ClosedExactly(session[..n], place);
    }
  }

  lemma EmptyRun()
    ensures Run([]) == EMPTY && EMPTY.flows == []
  {
  }

  /** Nothing was registered to a flow before it was opened. */
  lemma NoneYet(session: seq<Observation>, place: nat)
    requires session != [] && place >= |Run(session[..|session| - 1]).flows|
    ensures forall i :: 0 <= i < |session| - 1 ==> !JoinedTo(session, i, place)
  {
    var n := |session| - 1;
    forall i | 0 <= i < n
      ensures !JoinedTo(session, i, place)
    {
      if JoinedTo(session, i, place) {
        JoinedPrefix(session, n, i, place);
        RegistrationLasts(session[..n], i);
      }
    }
  }

  // ---------------------------------------------------------------- SYN numbers

  /** A flow knows a SYN number for an orientation if and only if a SYN of that orientation was registered to
      it, and it is the number of every such SYN. */
  lemma {:induction false} SynNumbersExactly(session: seq<Observation>, place: nat, o: Orientation)
    requires place < |Run(session).flows|
    ensures o in Run(session).flows[place].synNumbers <==>
              exists i :: 0 <= i < |session| && JoinedTo(session, i, place) && Synchronizes(session[i], o)
    ensures forall i :: 0 <= i < |session| && JoinedTo(session, i, place) && Synchronizes(session[i], o) ==>
              && o in Run(session).flows[place].synNumbers
              && Run(session).flows[place].synNumbers[o] == session[i].facts.value.seqno % 0x1_0000_0000
  {
    forall i: nat | i < |session| && JoinedTo(session, i, place) && Synchronizes(session[i], o)
      ensures o in Run(session).flows[place].synNumbers
      ensures Run(session).flows[place].synNumbers[o] == session[i].facts.value.seqno % 0x1_0000_0000
    {
      RegistrationLasts(session, i);
    }
    if o in Run(session).flows[place].synNumbers {
      var i := SynSource(session, place, o);
    }
  }

  lemma {:induction false} SynSource(session: seq<Observation>, place: nat, o: Orientation) returns (i: nat)
    requires place < |Run(session).flows| && o in Run(session).flows[place].synNumbers
    ensures i < |session| && JoinedTo(session, i, place) && Synchronizes(session[i], o)
  {
    EmptyRun();
    hide Run, JoinedTo;
    var n := |session| - 1;
    i := n;
    if JoinedTo(session, n, place) {
      LastJoined(session, place);
      if !Synchronizes(session[n], o) {
        i := SynSource(session[..n], place, o);
        JoinedPrefix(session, n, i, place);
      }
    } else {
      OthersKept(session, place);
      i := SynSource(session[..n], place, o);
      JoinedPrefix(session, n, i, place);
    }
  }

  // ---------------------------------------------------------------- orientations and their directions

  /** A flow lists an orientation if and only if a packet of that orientation was registered to it; the
      entry was made by the first such packet. */
  lemma {:induction false} FirstOfOrientation(session: seq<Observation>, place: nat, o: Orientation) returns (i: nat)
    requires place < |Run(session).flows| && o in Run(session).flows[place].directions
    ensures i < |session| && JoinedTo(session, i, place) && Travels(session[i], o)
    ensures forall k :: 0 <= k < i ==> !(JoinedTo(session, k, place) && Travels(session[k], o))
    ensures place < |Run(session[..i + 1]).flows| && o in Run(session[..i + 1]).flows[place].directions
    ensures Run(session[..i + 1]).flows[place].directions[o] == Run(session).flows[place].directions[o]
  {
    EmptyRun();
    hide Run, JoinedTo;
    var n := |session| - 1;
    var before := Run(session[..n]);
    if JoinedTo(session, n, place) {
      LastJoined(session, place);
    } else {
      OthersKept(session, place);
    }
    if place < |before.flows| && o in before.flows[place].directions {
      i := FirstOfOrientation(session[..n], place, o);
      assert session[..n][..i + 1] == session[..i + 1];
      forall k: nat | k <= i
        ensures JoinedTo(session[..n], k, place) <==> JoinedTo(session, k, place)
      {
        JoinedPrefix(session, n, k, place);
      }
    } else {
      i := n;
      assert session[..n + 1] == session;
      forall k: nat | k < n && JoinedTo(session, k, place) && Travels(session[k], o)
        ensures false
      {
        JoinedPrefix(session, n, k, place);
        RegisteredHere(session[..n], k, place);
      }
    }
  }

  lemma RegisteredHere(session: seq<Observation>, i: nat, place: nat)
    requires i < |session| && JoinedTo(session, i, place)
    ensures place < |Run(session).flows| && session[i].facts.Some?
    ensures session[i].facts.value.Orient() in Run(session).flows[place].directions
  {
    RegistrationLasts(session, i);
  }

  /** The direction a packet states of itself: its own, or outbound for a bare SYN that states none. */
  predicate States(o: Observation, d: Direction) {
    && o.facts.Some?
    && d == if o.direction != Unknown then o.direction
            else if o.facts.value.protocol.TCP? && o.facts.value.flags.syn && !o.facts.value.flags.ack then Outbound
            else Unknown
  }

  /** The first packet of an orientation fixes its direction: the opposite of the other orientation's
      direction where that is known already, and otherwise what the packet states of itself. */
  lemma DirectionGiven(session: seq<Observation>, i: nat, place: nat)
    requires i < |session| && JoinedTo(session, i, place)
    requires forall k :: 0 <= k < i ==>
               !(JoinedTo(session, k, place) && Travels(session[k], session[i].facts.value.Orient()))
    ensures place < |Run(session[..i + 1]).flows| && session[i].facts.Some?
    ensures var o := session[i].facts.value.Orient();
            var other := Orientation(o.destination, o.source);
            var before, flow := Run(session[..i]), Run(session[..i + 1]).flows[place];
            && o in flow.directions
            && (if place < |before.flows| && other in before.flows[place].directions
                   && before.flows[place].directions[other] != Unknown
                then flow.directions[o]
                    == (if before.flows[place].directions[other] == Outbound then Inbound else Outbound)
                else States(session[i], flow.directions[o]))
  {
    var o := session[i].facts.value.Orient();
    var prefix := session[..i + 1];
    assert prefix[..i] == session[..i];
    JoinedPrefix(session, i + 1, i, place);
    LastJoined(prefix, place);
    var before := Run(session[..i]);
    hide Run, JoinedTo;
    if place < |before.flows| && o in before.flows[place].directions {
      var k := FirstOfOrientation(session[..i], place, o);
      JoinedPrefix(session, i, k, place);
    }
  }

  // ---------------------------------------------------------------- lifetime and logical packets

  predicate Stamped(session: seq<Observation>, i: nat, t: real) {
    i < |session| && session[i].timestamp == Some(t)
  }

  /** The lifetime of a flow begins and ends with time stamps of its own packets. */
  lemma {:induction false} LifetimeAttained(session: seq<Observation>, place: nat)
    requires place < |Run(session).flows|
    ensures var flow := Run(session).flows[place];
            && (flow.startedAt.Some? ==>
                  exists i :: 0 <= i < |session| && JoinedTo(session, i, place)
                      && session[i].timestamp == flow.startedAt)
            && (flow.endedAt.Some? ==>
                  exists i :: 0 <= i < |session| && JoinedTo(session, i, place) && session[i].timestamp == flow.endedAt)
  {
    EmptyRun();
    hide Run, JoinedTo;
    var n := |session| - 1;
    forall i: nat | i < n
      ensures JoinedTo(session[..n], i, place) <==> JoinedTo(session, i, place)
    {
      JoinedPrefix(session, n, i, place);
    }
    var before := Run(session[..n]);
    if JoinedTo(session, n, place) {
      LastJoined(session, place);
    } else {
      OthersKept(session, place);
    }
    if place < |before.flows| {
      LifetimeAttained(session[..n], place);
    }
  }

  /** A logical packet is bound if and only if an observation of it was registered, and to that flow. */
  lemma {:induction false} BoundExactly(session: seq<Observation>, l: string)
    ensures l in Run(session).logicalToFlow <==>
              exists i :: 0 <= i < |session| && RegistersAt(session, i) && session[i].logicalId == Some(l)
    ensures forall i :: 0 <= i < |session| && RegistersAt(session, i) && session[i].logicalId == Some(l) ==>
              l in Run(session).logicalToFlow && Run(session).logicalToFlow[l] == FlowAt(session, i)
  {
    EmptyRun();
    hide Run, RegistersAt, FlowAt;
    if session != [] {
      var n := |session| - 1;
      BoundExactly(session[..n], l);
      BindStep(session, l);
      forall i: nat | i < n
        ensures RegistersAt(session[..n], i) <==> RegistersAt(session, i)
        ensures RegistersAt(session, i) ==> session[i].facts.Some? && FlowAt(session[..n], i) == FlowAt(session, i)
      {
        SamePrefix(session, i);
      }
    }
  }

  lemma SamePrefix(session: seq<Observation>, i: nat)
    requires i < |session| - 1
    ensures var n := |session| - 1;
            && (RegistersAt(session[..n], i) <==> RegistersAt(session, i))
            && (RegistersAt(session, i) ==> session[i].facts.Some? && FlowAt(session[..n], i) == FlowAt(session, i))
  {
    hide Run, Slot;
    assert session[..|session| - 1][..i] == session[..i];
  }

  lemma BindStep(session: seq<Observation>, l: string)
    requires session != []
    ensures var n := |session| - 1; var before, after := Run(session[..n]).logicalToFlow, Run(session).logicalToFlow;
            && (RegistersAt(session, n) ==> session[n].facts.Some?)
            && (if RegistersAt(session, n) && session[n].logicalId == Some(l)
                then l !in before && l in after && after[l] == FlowAt(session, n)
                else (l in after <==> l in before) && (l in before ==> after[l] == before[l]))
  {
    var n := |session| - 1;
    assert Run(session) == Observed(Run(session[..n]), session[n]);
    hide Run, Prepared, Slot;
  }

  // ---------------------------------------------------------------- generations

  /** An earlier packet of the newest flow that the i-th packet's key has when the packet comes. */
  ghost predicate InNewest(session: seq<Observation>, i: nat, j: nat)
    requires RegistersAt(session, i)
  {
    && j < i && RegistersAt(session, j) && KeyOf(session[j].facts.value) == KeyOf(session[i].facts.value)
    && forall k ::
         0 <= k < i && RegistersAt(session, k) && KeyOf(session[k].facts.value) == KeyOf(session[i].facts.value) ==>
           FlowAt(session, k) <= FlowAt(session, j)
  }

  /** The i-th packet is a SYN that the newest flow of its key cannot hold: an earlier packet of that flow
      ended the connection, or an earlier SYN of the same orientation had another number. */
  ghost predicate Supersedes(session: seq<Observation>, i: nat)
    requires RegistersAt(session, i)
  {
    && Synchronizes(session[i], session[i].facts.value.Orient())
    && exists j: nat :: InNewest(session, i, j)
         && (|| Ends(session[j])
             || (&& Synchronizes(session[j], session[i].facts.value.Orient())
                 && session[j].facts.value.seqno % 0x1_0000_0000 != session[i].facts.value.seqno % 0x1_0000_0000))
  }

  /** Told by packets alone: a packet opens a flow if and only if it is the first of its key or supersedes the
      newest flow of its key; otherwise it joins that flow. */
  lemma GenerationByPackets(session: seq<Observation>, i: nat)
    requires RegistersAt(session, i)
    ensures FlowAt(session, i) == |Run(session[..i]).flows| <==>
              (forall j: nat :: !InNewest(session, i, j)) || Supersedes(session, i)
    ensures forall j: nat :: InNewest(session, i, j) && !Supersedes(session, i) ==>
              FlowAt(session, i) == FlowAt(session, j)
  {
    var r, facts := Run(session[..i]), session[i].facts.value;
    RunWellFormed(session[..i]);
    if KeyOf(facts) in r.byKey {
      var g := r.byKey[KeyOf(facts)];
      NewestIs(session, i, g);
      SomebodyJoined(session, i, g);
      SupersedesExactly(session, i, g);
      hide Run, WellFormed, Supersedes, InNewest, JoinedTo;
    } else {
      KeyIsNew(session, i);
    }
  }

  /** A flow always has a packet. */
  lemma SomebodyJoined(session: seq<Observation>, n: nat, place: nat)
    requires n <= |session| && place < |Run(session[..n]).flows|
    ensures exists j: nat :: j < n && JoinedTo(session, j, place)
  {
    RunWellFormed(session[..n]);
    WellFormedFlow(Run(session[..n]), place);
    var flow := Run(session[..n]).flows[place];
    assert flow.Opening() in flow.directions;
    hide Run, JoinedTo, WellFormed, FlowOk;
    var j := FirstOfOrientation(session[..n], place, flow.Opening());
    JoinedPrefix(session, n, j, place);
  }

  lemma EarlierFlow(session: seq<Observation>, i: nat, j: nat)
    requires j < i <= |session| && RegistersAt(session, j)
    ensures session[j].facts.Some? && FlowAt(session, j) < |Run(session[..i]).flows|
    ensures Run(session[..i]).flows[FlowAt(session, j)].Key() == KeyOf(session[j].facts.value)
  {
    JoinedPrefix(session, i, j, FlowAt(session, j));
    RegistrationLasts(session[..i], j);
  }

  lemma KeyIsNew(session: seq<Observation>, i: nat)
    requires RegistersAt(session, i) && KeyOf(session[i].facts.value) !in Run(session[..i]).byKey
    ensures forall j: nat :: !InNewest(session, i, j)
    ensures FlowAt(session, i) == |Run(session[..i]).flows|
  {
    RunWellFormed(session[..i]);
    forall j: nat | j < i && RegistersAt(session, j)
      ensures KeyOf(session[j].facts.value) != KeyOf(session[i].facts.value)
    {
      EarlierFlow(session, i, j);
    }
    hide Run;
  }

  /** The packets of the newest flow of a key are exactly those registered to the flow it is bound to. */
  lemma NewestIs(session: seq<Observation>, i: nat, g: nat)
    requires RegistersAt(session, i) && KeyOf(session[i].facts.value) in Run(session[..i]).byKey
    requires g == Run(session[..i]).byKey[KeyOf(session[i].facts.value)]
    ensures g < |Run(session[..i]).flows|
    ensures forall j: nat :: InNewest(session, i, j) <==> j < i && JoinedTo(session, j, g)
  {
    var r, key := Run(session[..i]), KeyOf(session[i].facts.value);
    RunWellFormed(session[..i]);
    assert Latest(r.flows, key, g);
    SomebodyJoined(session, i, g);
    var first: nat :| first < i && JoinedTo(session, first, g);
    hide Run, WellFormed;
    forall j: nat | j < i && RegistersAt(session, j)
      ensures KeyOf(session[j].facts.value) == key ==> FlowAt(session, j) <= g
      ensures FlowAt(session, j) == g ==> KeyOf(session[j].facts.value) == key
    {
      EarlierFlow(session, i, j);
    }
  }

  lemma SupersedesExactly(session: seq<Observation>, i: nat, g: nat)
    requires RegistersAt(session, i) && KeyOf(session[i].facts.value) in Run(session[..i]).byKey
    requires g == Run(session[..i]).byKey[KeyOf(session[i].facts.value)] && g < |Run(session[..i]).flows|
    requires forall j: nat :: InNewest(session, i, j) <==> j < i && JoinedTo(session, j, g)
    ensures Supersedes(session, i) <==> FlowAt(session, i) == |Run(session[..i]).flows|
    ensures !Supersedes(session, i) ==> FlowAt(session, i) == g
  {
    var r, facts := Run(session[..i]), session[i].facts.value;
    ClosedExactly(session[..i], g);
    SynNumbersExactly(session[..i], g, facts.Orient());
    hide Run, JoinedTo, InNewest;
    forall j: nat | j < i
      ensures JoinedTo(session[..i], j, g) <==> JoinedTo(session, j, g)
    {
      JoinedPrefix(session, i, j, g);
    }
    assert forall j: nat :: j < i ==> session[..i][j] == session[j];
    SlotOpens(r, session[i]);
    hide OpensFlow, Slot;
    OpensMeans(r, facts, g);
  }

  lemma SlotOpens(r: Registry, o: Observation)
    requires Indexed(r) && o.facts.Some?
    ensures Slot(r, o) == if OpensFlow(r, o.facts.value) then |r.flows| else r.byKey[KeyOf(o.facts.value)]
  {
  }

  lemma OpensMeans(r: Registry, facts: Facts, g: nat)
    requires Indexed(r) && KeyOf(facts) in r.byKey && r.byKey[KeyOf(facts)] == g && g < |r.flows|
    ensures OpensFlow(r, facts) <==>
              && facts.protocol.TCP? && facts.flags.syn
              && (|| r.flows[g].closed
                  || (facts.Orient() in r.flows[g].synNumbers
                      && r.flows[g].synNumbers[facts.Orient()] != facts.seqno % 0x1_0000_0000))
  {
  }

  // ---------------------------------------------------------------- answers

  /** A registered packet is answered with the ID of the flow it joined, which reads flow- and the flow's number
      in the session, with at least six digits. */
  lemma AnswerNamesFlow(session: seq<Observation>, i: nat)
    requires RegistersAt(session, i)
    ensures FlowAt(session, i) < |Run(session).flows| && Answer(Run(session[..i]), session[i]).Some?
    ensures var id := Answer(Run(session[..i]), session[i]).value;
            && id == Run(session).flows[FlowAt(session, i)].id
            && |id| >= 11 && id[..5] == "flow-" && Text.Value(id[5..]) == FlowAt(session, i) + 1
  {
    hide *;
    AnswerGiven(session, i);
    RunWellFormed(session);
    IdAt(Run(session), FlowAt(session, i));
    IdReads(FlowAt(session, i) + 1);
  }

  lemma AnswerGiven(session: seq<Observation>, i: nat)
    requires RegistersAt(session, i)
    ensures i < |session| && session[i].facts.Some? && FlowAt(session, i) < |Run(session).flows|
    ensures Answer(Run(session[..i]), session[i]) == Some(Run(session).flows[FlowAt(session, i)].id)
  {
    StepAt(session, i);
    RegistrationLasts(session, i);
    RegisteredFacts(Run(session[..i]), session[i]);
    hide Run, WellFormed, Observed, Slot, FlowAt;
    assert Grows(Run(session[..i + 1]).flows[FlowAt(session, i)], Run(session).flows[FlowAt(session, i)]);
    AnswerOfSlot(Run(session[..i]), session[i]);
    SlotIsFlow(session, i);
  }

  lemma SlotIsFlow(session: seq<Observation>, i: nat)
    requires i < |session| && session[i].facts.Some?
    ensures FlowAt(session, i) == Slot(Run(session[..i]), session[i])
  {
  }

  lemma AnswerOfSlot(r: Registry, o: Observation)
    requires Indexed(r) && Registers(r, o)
    ensures Slot(r, o) < |Observed(r, o).flows|
    ensures Answer(r, o) == Some(Observed(r, o).flows[Slot(r, o)].id)
  {
    hide Joined, NewFlow, OpensFlow;
  }

  lemma IdReads(n: nat)
    ensures var id := FlowId(n); |id| >= 11 && id[..5] == "flow-" && Text.Value(id[5..]) == n
  {
    Text.PaddedValue(n, 6);
    assert FlowId(n)[5..] == Text.Padded(n, 6) && |Text.Padded(n, 6)| >= 6;
  }
}
