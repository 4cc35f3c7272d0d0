/** Concurrent callers of stop(): one runs the teardown, all see its outcome. */
module StopOnce {
  import opened Outcomes

  /** How one teardown call (policy suspension, a listener, the diverter) went. */
  datatype CallOutcome = Fine | AnsweredFalse | Raised

  /** What stop() gives a caller: the health value, or the error of the first failing call. */
  datatype Answer = Value(healthy: bool) | Failure(call: nat)

  datatype Caller = Entering | Waiting | Owning | Returned(owned: bool, answer: Answer)

  /** The flags guarded by the stop lock, the owner's local variables, and the calls made so far. */
  datatype System = System(
    started: bool, complete: bool, result: bool, error: Option<nat>,
    healthy: bool, firstError: Option<nat>, made: seq<nat>,
    callers: seq<Caller>)

  /** The teardown of one session: how many calls it consists of, and how each will go. */
  datatype Teardown = Teardown(calls: nat, outcome: nat -> CallOutcome)

  function Initial(callers: nat): System {
    System(false, false, false, None, true, None, [], seq(callers, _ => Entering))
  }

  function AnswerOf(healthy: bool, error: Option<nat>): Answer {
    match error
    case Some(call) => Failure(call)
    case None => Value(healthy)
  }

  // ---------------------------------------------------------------- one step of one caller

  ghost predicate Enter(s: System, s': System, i: nat)
    requires i < |s.callers|
  {
    && s.callers[i].Entering?
    && s' == if s.started then s.(callers := s.callers[i := Waiting])
             else s.(started := true, callers := s.callers[i := Owning])
  }

  /** The owner makes the next call, whatever came of the earlier ones. */
  ghost predicate MakeCall(t: Teardown, s: System, s': System, i: nat)
    requires i < |s.callers|
  {
    && s.callers[i].Owning? && !s.complete && |s.made| < t.calls
    && var call := |s.made|;
       s' == s.(made := s.made + [call],
                healthy := s.healthy && t.outcome(call).Fine?,
                firstError := if s.firstError.None? && t.outcome(call).Raised? then Some(call) else s.firstError)
  }

  ghost predicate Publish(t: Teardown, s: System, s': System, i: nat)
    requires i < |s.callers|
  {
    && s.callers[i].Owning? && !s.complete && |s.made| == t.calls
    && s' == s.(result := s.healthy, error := s.firstError, complete := true)
  }

  ghost predicate OwnerReturns(s: System, s': System, i: nat)
    requires i < |s.callers|
  {
    && s.callers[i].Owning? && s.complete
    && s' == s.(callers := s.callers[i := Returned(true, AnswerOf(s.healthy, s.firstError))])
  }

  ghost predicate Wake(s: System, s': System, i: nat)
    requires i < |s.callers|
  {
    && s.callers[i].Waiting? && s.complete
    && s' == s.(callers := s.callers[i := Returned(false, AnswerOf(s.result, s.error))])
  }

  ghost predicate Step(t: Teardown, s: System, s': System, i: nat) {
    && i < |s.callers|
    && (Enter(s, s', i) || MakeCall(t, s, s', i) || Publish(t, s, s', i) || OwnerReturns(s, s', i) || Wake(s, s', i))
  }

  /** A run: states joined by steps of the scheduled callers. */
  ghost predicate IsRun(t: Teardown, run: seq<System>, schedule: seq<nat>, callers: nat) {
    && |run| == |schedule| + 1 && run[0] == Initial(callers)
    && forall k :: 0 <= k < |schedule| ==> Step(t, run[k], run[k + 1], schedule[k])
  }

  // ---------------------------------------------------------------- the outcome, independently

  function FirstRaised(t: Teardown, n: nat): Option<nat> {
    if n == 0 then None
    else
      var before := FirstRaised(t, n - 1);
      if before.None? && t.outcome(n - 1).Raised? then Some(n - 1) else before
  }

  predicate AllFine(t: Teardown, n: nat) {
    forall k :: 0 <= k < n ==> t.outcome(k).Fine?
  }

  /** The one answer: the first error raised, or whether every call was fine. */
  function FinalAnswer(t: Teardown): Answer {
    AnswerOf(AllFine(t, t.calls), FirstRaised(t, t.calls))
  }

  lemma {:induction false} FirstRaisedIsFirst(t: Teardown, n: nat)
    ensures match FirstRaised(t, n)
            case None => forall k :: 0 <= k < n ==> !t.outcome(k).Raised?
            case Some(call) =>
              && call < n && t.outcome(call).Raised?
              && forall k :: 0 <= k < call ==> !t.outcome(k).Raised?
  {
    if n > 0 {
      FirstRaisedIsFirst(t, n - 1);
    }
  }

  // ---------------------------------------------------------------- the invariant

  predicate Owns(c: Caller) {
    c.Owning? || (c.Returned? && c.owned)
  }

  ghost predicate Inv(t: Teardown, s: System) {
    && (!s.started ==> (forall i :: 0 <= i < |s.callers| ==> s.callers[i].Entering?) && s.made == [] && !s.complete)
    && (s.started ==> exists i :: 0 <= i < |s.callers| && Owns(s.callers[i]))
    && (forall i, j ::
          0 <= i < |s.callers| && 0 <= j < |s.callers| && Owns(s.callers[i]) && Owns(s.callers[j]) ==> i == j)
    && |s.made| <= t.calls
    && (forall k :: 0 <= k < |s.made| ==> s.made[k] == k)
    && s.healthy == AllFine(t, |s.made|) && s.firstError == FirstRaised(t, |s.made|)
    && (s.complete ==> |s.made| == t.calls && s.result == s.healthy && s.error == s.firstError)
    && (forall i :: 0 <= i < |s.callers| && s.callers[i].Returned? ==>
          s.complete && s.callers[i].answer == FinalAnswer(t))
  }

  lemma EnterKeepsInv(t: Teardown, s: System, s': System, i: nat)
    requires Inv(t, s) && i < |s.callers| && Enter(s, s', i)
    ensures Inv(t, s') && |s'.callers| == |s.callers|
  {
    hide AllFine, FirstRaised, FinalAnswer;
    var j := i;
    if s.started {
      j :| 0 <= j < |s.callers| && Owns(s.callers[j]);
    }
    assert Owns(s'.callers[j]);
  }

  lemma CallKeepsInv(t: Teardown, s: System, s': System, i: nat)
    requires Inv(t, s) && i < |s.callers| && MakeCall(t, s, s', i)
    ensures Inv(t, s') && |s'.callers| == |s.callers|
  {
    var n := |s.made|;
    assert AllFine(t, n + 1) <==> AllFine(t, n) && t.outcome(n).Fine?;
    assert FirstRaised(t, n + 1) == s'.firstError;
    hide AllFine, FirstRaised, FinalAnswer;
  }

  lemma OthersKeepInv(t: Teardown, s: System, s': System, i: nat)
    requires Inv(t, s) && Step(t, s, s', i) && !Enter(s, s', i) && !MakeCall(t, s, s', i)
    ensures Inv(t, s') && |s'.callers| == |s.callers|
  {
    hide AllFine, FirstRaised, Enter, MakeCall;
    var j :| 0 <= j < |s.callers| && Owns(s.callers[j]);
    assert Owns(s'.callers[j]);
  }

  lemma StepKeepsInv(t: Teardown, s: System, s': System, i: nat)
    requires Inv(t, s) && Step(t, s, s', i)
    ensures Inv(t, s') && |s'.callers| == |s.callers|
  {
    hide Inv, Enter, MakeCall, Publish, OwnerReturns, Wake;
    if Enter(s, s', i) {
      EnterKeepsInv(t, s, s', i);
    } else if MakeCall(t, s, s', i) {
      CallKeepsInv(t, s, s', i);
    } else {
      OthersKeepInv(t, s, s', i);
    }
  }

  lemma {:induction false} RunKeepsInv(t: Teardown, run: seq<System>, schedule: seq<nat>, callers: nat, k: nat)
    requires IsRun(t, run, schedule, callers) && k < |run|
    ensures Inv(t, run[k]) && |run[k].callers| == callers
  {
    if k > 0 {
      RunKeepsInv(t, run, schedule, callers, k - 1);
      assert Step(t, run[k - 1], run[k], schedule[k - 1]);
      hide Step, Inv;
      StepKeepsInv(t, run[k - 1], run[k], schedule[k - 1]);
    }
  }

  // ---------------------------------------------------------------- safety over every run

  /** At any moment of any interleaving: at most one caller owns the stop; the calls made are the planned
      ones, each once and in order, with none skipped after a failure; and a caller that has returned
      did so after the whole teardown, with the one answer. */
  lemma OneOwnerOneAnswer(t: Teardown, run: seq<System>, schedule: seq<nat>, callers: nat, k: nat, i: nat, j: nat)
    requires IsRun(t, run, schedule, callers) && k < |run| && i < callers && j < callers
    ensures |run[k].callers| == callers
    ensures Owns(run[k].callers[i]) && Owns(run[k].callers[j]) ==> i == j
    ensures |run[k].made| <= t.calls && forall c :: 0 <= c < |run[k].made| ==> run[k].made[c] == c
    ensures run[k].callers[i].Returned? ==> |run[k].made| == t.calls && run[k].callers[i].answer == FinalAnswer(t)
  {
    RunKeepsInv(t, run, schedule, callers, k);
  }

  // ---------------------------------------------------------------- everybody returns

  function Rank(c: Caller): nat {
    match c
    case Entering => 2
    case Waiting => 1
    case Owning => 1
    case Returned(_, _) => 0
  }

  function Ranks(callers: seq<Caller>): nat {
    if callers == [] then 0 else Rank(callers[0]) + Ranks(callers[1..])
  }

  lemma {:induction false} RanksUpdate(callers: seq<Caller>, i: nat, c: Caller)
    requires i < |callers|
    ensures Ranks(callers[i := c]) == Ranks(callers) - Rank(callers[i]) + Rank(c)
  {
    if i == 0 {
      assert callers[0 := c][1..] == callers[1..];
    } else {
      assert callers[i := c][1..] == callers[1..][i - 1 := c];
      RanksUpdate(callers[1..], i - 1, c);
    }
  }

  /** Bounds the number of steps still to come. */
  function Remaining(t: Teardown, s: System): int {
    Ranks(s.callers) + (t.calls - |s.made|) + if s.complete then 0 else 1
  }

  lemma StepDecreases(t: Teardown, s: System, s': System, i: nat)
    requires Inv(t, s) && Step(t, s, s', i)
    ensures Remaining(t, s') == Remaining(t, s) - 1
  {
    RanksUpdate(s.callers, i, s'.callers[i]);
    assert s'.callers == s.callers[i := s'.callers[i]];
    hide Inv, Ranks;
  }

  lemma {:induction false} RunsAreShort(t: Teardown, run: seq<System>, schedule: seq<nat>, callers: nat, k: nat)
    requires IsRun(t, run, schedule, callers) && k < |run|
    ensures Remaining(t, run[k]) == Remaining(t, Initial(callers)) - k && Remaining(t, run[k]) >= 0
  {
    RunKeepsInv(t, run, schedule, callers, k);
    if k > 0 {
      RunsAreShort(t, run, schedule, callers, k - 1);
      RunKeepsInv(t, run, schedule, callers, k - 1);
      assert Step(t, run[k - 1], run[k], schedule[k - 1]);
      StepDecreases(t, run[k - 1], run[k], schedule[k - 1]);
    }
  }

  ghost predicate AllReturned(s: System) {
    forall i :: 0 <= i < |s.callers| ==> s.callers[i].Returned?
  }

  /** While somebody has not returned, somebody can step: no caller is left waiting for ever. */
  lemma NeverStuck(t: Teardown, s: System) returns (s': System, i: nat)
    requires Inv(t, s) && !AllReturned(s)
    ensures Step(t, s, s', i)
  {
    i :| 0 <= i < |s.callers| && !s.callers[i].Returned?;
    match s.callers[i]
    case Entering =>
      s' := if s.started then s.(callers := s.callers[i := Waiting])
            else s.(started := true, callers := s.callers[i := Owning]);
      assert Enter(s, s', i);
    case Waiting =>
      if s.complete {
        s' := s.(callers := s.callers[i := Returned(false, AnswerOf(s.result, s.error))]);
        assert Wake(s, s', i);
      } else {
        i :| 0 <= i < |s.callers| && Owns(s.callers[i]);
        s' := OwnerStep(t, s, i);
      }
    case Owning =>
      s' := OwnerStep(t, s, i);
  }

  lemma OwnerStep(t: Teardown, s: System, i: nat) returns (s': System)
    requires Inv(t, s) && i < |s.callers| && s.callers[i].Owning?
    ensures Step(t, s, s', i)
  {
    if s.complete {
      s' := s.(callers := s.callers[i := Returned(true, AnswerOf(s.healthy, s.firstError))]);
      assert OwnerReturns(s, s', i);
    } else if |s.made| == t.calls {
      s' := s.(result := s.healthy, error := s.firstError, complete := true);
      assert Publish(t, s, s', i);
    } else {
      var call := |s.made|;
      s' := s.(made := s.made + [call], healthy := s.healthy && t.outcome(call).Fine?,
               firstError := if s.firstError.None? && t.outcome(call).Raised? then Some(call) else s.firstError);
      assert MakeCall(t, s, s', i);
    }
  }

  /** Every run that cannot go on, whatever its schedule, took exactly 2 steps per caller and one per call
      (plus one), left every caller returned with the one answer, and exactly one of them ran the teardown. */
  lemma MaximalRunsReturnAll(t: Teardown, run: seq<System>, schedule: seq<nat>, callers: nat)
    requires IsRun(t, run, schedule, callers)
    requires forall s', i :: !Step(t, run[|schedule|], s', i)
    ensures forall i :: 0 <= i < callers ==>
              && |run[|schedule|].callers| == callers
              && run[|schedule|].callers[i].Returned? && run[|schedule|].callers[i].answer == FinalAnswer(t)
    ensures callers > 0 ==> |schedule| == 2 * callers + t.calls + 1
    ensures callers > 0 ==> exists i :: 0 <= i < callers && OnlyOwner(run[|schedule|], i)
  {
    var last := run[|schedule|];
    RunKeepsInv(t, run, schedule, callers, |schedule|);
    if !AllReturned(last) {
      var s', i := NeverStuck(t, last);
    }
    assert AllReturned(last);
    RunsAreShort(t, run, schedule, callers, |schedule|);
    RanksOf(last.callers);
    InitialRanks(callers);
    if callers > 0 {
      var i := TheOwner(t, last);
    }
  }

  ghost predicate OnlyOwner(s: System, i: nat) {
    i < |s.callers| && Owns(s.callers[i]) && forall j :: 0 <= j < |s.callers| && Owns(s.callers[j]) ==> j == i
  }

  lemma TheOwner(t: Teardown, s: System) returns (i: nat)
    requires Inv(t, s) && AllReturned(s) && s.callers != []
    ensures OnlyOwner(s, i)
  {
    assert s.callers[0].Returned?;
    i :| 0 <= i < |s.callers| && Owns(s.callers[i]);
  }

  lemma {:induction false} RanksOf(callers: seq<Caller>)
    requires forall i :: 0 <= i < |callers| ==> callers[i].Returned?
    ensures Ranks(callers) == 0
  {
    if callers != [] {
      RanksOf(callers[1..]);
    }
  }

  lemma {:induction false} InitialRanks(callers: nat)
    ensures Ranks(Initial(callers).callers) == 2 * callers
  {
    if callers > 0 {
      assert Initial(callers).callers[1..] == Initial(callers - 1).callers;
      InitialRanks(callers - 1);
    }
  }
}
