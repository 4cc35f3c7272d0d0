/** The owner's real teardown is the list of calls that the concurrent stop protocol runs. */
module StopRefinement {
  import opened Outcomes
  import StopOnce
  import opened ListenerLifecycle

  /** How a logged teardown call went, in the protocol's terms. */
  function OutcomeOf(e: Event): StopOnce.CallOutcome {
    match e
    case Suspended(false) => StopOnce.Raised
    case StopTried(_, false) => StopOnce.Raised
    case DiverterStopped(Raises) => StopOnce.Raised
    case DiverterStopped(ReturnsFalse) => StopOnce.AnsweredFalse
    case _ => StopOnce.Fine
  }

  function AsTeardown(events: seq<Event>): StopOnce.Teardown {
    StopOnce.Teardown(|events|, (k: nat) => if k < |events| then OutcomeOf(events[k]) else StopOnce.Fine)
  }

  /** The exception a failing call raises. */
  function ErrorOf(e: Event): StopError {
    match e
    case StopTried(listener, _) => ListenerRaised(listener)
    case DiverterStopped(_) => DiverterRaised
    case _ => SuspensionRaised
  }

  /** What a caller of stop() is told: the health value, or the exception of the first failing call. */
  ghost predicate Told(events: seq<Event>, answer: StopOnce.Answer, healthy: bool, error: Option<StopError>) {
    match answer
    case Value(value) => error == None && value == healthy
    case Failure(call) => call < |events| && error == Some(ErrorOf(events[call]))
  }

  lemma {:induction false} SameFirstError(events: seq<Event>, n: nat)
    requires n <= |events|
    ensures match StopOnce.FirstRaised(AsTeardown(events), n)
            case None => FirstError(events[..n]) == None
            case Some(call) => call < n && FirstError(events[..n]) == Some(ErrorOf(events[call]))
  {
    if n > 0 {
      SameFirstError(events, n - 1);
      assert events[..n][..n - 1] == events[..n - 1];
    }
  }

  lemma SameHealth(events: seq<Event>)
    ensures StopOnce.AllFine(AsTeardown(events), |events|) == AllSound(events)
  {
    forall k | 0 <= k < |events|
      ensures OutcomeOf(events[k]).Fine? <==> Sound(events[k])
    {
    }
    assert forall k :: 0 <= k < |events| ==> AsTeardown(events).outcome(k) == OutcomeOf(events[k]);
  }

  /** The answer that the protocol hands out for a teardown is what that teardown computed. */
  lemma TeardownGivesAnswer(events: seq<Event>, policyMode: bool, hasDiverter: bool, world: World, tries: seq<nat>,
                            healthy: bool, error: Option<StopError>)
    requires TornDown(events, policyMode, hasDiverter, world, tries, healthy, error)
    ensures Told(events, StopOnce.FinalAnswer(AsTeardown(events)), healthy, error)
  {
    SameFirstError(events, |events|);
    SameHealth(events);
    assert events[..|events|] == events;
  }

  /** However the callers of stop() interleave, when no step is left every one of them has returned what
      the one teardown computed, and that teardown suspended the policy, tried every listener still to
      be stopped and stopped the diverter, whatever failed on the way. */
  lemma EveryCallerToldTheTeardown(events: seq<Event>, policyMode: bool, hasDiverter: bool, world: World,
                                   tries: seq<nat>,
                                   healthy: bool, error: Option<StopError>,
                                   run: seq<StopOnce.System>, schedule: seq<nat>, callers: nat)
    requires TornDown(events, policyMode, hasDiverter, world, tries, healthy, error)
    requires StopOnce.IsRun(AsTeardown(events), run, schedule, callers)
    requires forall s', i :: !StopOnce.Step(AsTeardown(events), run[|schedule|], s', i)
    ensures |run[|schedule|].callers| == callers
    ensures forall i :: 0 <= i < callers ==>
              && run[|schedule|].callers[i].Returned?
              && Told(events, run[|schedule|].callers[i].answer, healthy, error)
    ensures Tries(events) == tries && (callers > 0 ==> |run[|schedule|].made| == |events|)
  {
    hide StopOnce.Step, StopOnce.FinalAnswer, Told, TornDown, AsTeardown;
    var t := AsTeardown(events);
    TornDownTries(events, policyMode, hasDiverter, world, tries, healthy, error);
    TeardownGivesAnswer(events, policyMode, hasDiverter, world, tries, healthy, error);
    StopOnce.MaximalRunsReturnAll(t, run, schedule, callers);
    hide StopOnce.Inv;
    StopOnce.RunKeepsInv(t, run, schedule, callers, |schedule|);
    if callers > 0 {
      StopOnce.OneOwnerOneAnswer(t, run, schedule, callers, |schedule|, 0, 0);
    }
  }

  lemma TornDownTries(events: seq<Event>, policyMode: bool, hasDiverter: bool, world: World, tries: seq<nat>,
                      healthy: bool, error: Option<StopError>)
    requires TornDown(events, policyMode, hasDiverter, world, tries, healthy, error)
    ensures Tries(events) == tries && AsTeardown(events).calls == |events|
  {
  }
}
