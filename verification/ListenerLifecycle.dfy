/** Policy-mode start with rollback, the owner's teardown, and how they compose. */
module ListenerLifecycle {
  import opened Outcomes

  datatype StopAnswer = Healthy | ReturnsFalse | Raises

  /** How the calls into listeners and the diverter will go; a stop may go differently each time. */
  datatype World = World(
    configures: bool, starts: nat -> bool, workerAlive: nat -> bool, handsOver: bool, diverterStarts: bool,
    suspends: bool, stops: (nat, nat) -> bool, diverterStops: StopAnswer)

  datatype Event =
    | Started(listener: nat)
    | StartFailed(listener: nat)
    | StopTried(listener: nat, succeeded: bool)
    | Suspended(succeeded: bool)
    | DiverterStarted(succeeded: bool)
    | DiverterStopped(answer: StopAnswer)

  datatype StartError = ConfigureFailed | ListenerFailed(listener: nat) | WorkerDied(listener: nat) | HandoverFailed
      | DiverterFailed

  /** The call whose exception stop() raises again. */
  datatype StopError = SuspensionRaised | ListenerRaised(listener: nat) | DiverterRaised

  // ---------------------------------------------------------------- reading the log

  /** Listeners whose stop was called, in order. */
  function Tries(log: seq<Event>): seq<nat> {
    if log == [] then []
    else
      var before := Tries(log[..|log| - 1]);
      match log[|log| - 1]
      case StopTried(listener, _) => before + [listener]
      case _ => before
  }

  function StartedListeners(log: seq<Event>): seq<nat> {
    if log == [] then []
    else
      var before := StartedListeners(log[..|log| - 1]);
      match log[|log| - 1]
      case Started(listener) => before + [listener]
      case _ => before
  }

  function Successes(log: seq<Event>, listener: nat): nat {
    if log == [] then 0
    else Successes(log[..|log| - 1], listener) + if log[|log| - 1] == StopTried(listener, true) then 1 else 0
  }

  function CountTries(log: seq<Event>, listener: nat): nat {
    if log == [] then 0
    else
      var e := log[|log| - 1];
      CountTries(log[..|log| - 1], listener) + if e.StopTried? && e.listener == listener then 1 else 0
  }

  /** The listeners below n still to be stopped, last one first. */
  function Unstopped(stopped: seq<bool>, n: nat): seq<nat>
    requires n <= |stopped|
  {
    if n == 0 then [] else (if stopped[n - 1] then [] else [n - 1]) + Unstopped(stopped, n - 1)
  }

  function UpTo(n: nat): seq<nat> {
    seq(n, i => i)
  }

  function FirstError(log: seq<Event>): Option<StopError> {
    if log == [] then None
    else
      var before := FirstError(log[..|log| - 1]);
      if before.Some? then before
      else match log[|log| - 1]
        case Suspended(false) => Some(SuspensionRaised)
        case StopTried(listener, false) => Some(ListenerRaised(listener))
        case DiverterStopped(Raises) => Some(DiverterRaised)
        case _ => None
  }

  predicate Sound(e: Event) {
    match e
    case Suspended(succeeded) => succeeded
    case StopTried(_, succeeded) => succeeded
    case DiverterStopped(answer) => answer == Healthy
    case _ => true
  }

  predicate AllSound(log: seq<Event>) {
    forall i :: 0 <= i < |log| ==> Sound(log[i])
  }

  lemma {:induction false} TriesJoin(a: seq<Event>, b: seq<Event>)
    ensures Tries(a + b) == Tries(a) + Tries(b)
  {
    if b == [] {
      assert a + b == a;
    } else {
      assert (a + b)[..|a| + |b| - 1] == a + b[..|b| - 1];
      TriesJoin(a, b[..|b| - 1]);
    }
  }

  lemma {:induction false} StartsJoin(a: seq<Event>, b: seq<Event>)
    ensures StartedListeners(a + b) == StartedListeners(a) + StartedListeners(b)
  {
    if b == [] {
      assert a + b == a;
    } else {
      assert (a + b)[..|a| + |b| - 1] == a + b[..|b| - 1];
      StartsJoin(a, b[..|b| - 1]);
    }
  }

  lemma {:induction false} CountsJoin(a: seq<Event>, b: seq<Event>, listener: nat)
    ensures Successes(a + b, listener) == Successes(a, listener) + Successes(b, listener)
    ensures CountTries(a + b, listener) == CountTries(a, listener) + CountTries(b, listener)
  {
    if b == [] {
      assert a + b == a;
    } else {
      assert (a + b)[..|a| + |b| - 1] == a + b[..|b| - 1];
      CountsJoin(a, b[..|b| - 1], listener);
    }
  }

  lemma {:induction false} ErrorsJoin(a: seq<Event>, b: seq<Event>)
    ensures FirstError(a + b) == if FirstError(a).Some? then FirstError(a) else FirstError(b)
  {
    if b == [] {
      assert a + b == a;
    } else {
      assert (a + b)[..|a| + |b| - 1] == a + b[..|b| - 1];
      ErrorsJoin(a, b[..|b| - 1]);
    }
  }

  lemma LogsJoin(a: seq<Event>, b: seq<Event>, listener: nat)
    ensures Tries(a + b) == Tries(a) + Tries(b)
    ensures StartedListeners(a + b) == StartedListeners(a) + StartedListeners(b)
    ensures Successes(a + b, listener) == Successes(a, listener) + Successes(b, listener)
    ensures CountTries(a + b, listener) == CountTries(a, listener) + CountTries(b, listener)
    ensures FirstError(a + b) == if FirstError(a).Some? then FirstError(a) else FirstError(b)
  {
    hide *;
    TriesJoin(a, b);
    StartsJoin(a, b);
    CountsJoin(a, b, listener);
    ErrorsJoin(a, b);
  }

  /** A listener is marked exactly when a stop of it succeeded, and that never happens twice. */
  ghost predicate Marked(listeners: nat, stopped: seq<bool>, log: seq<Event>) {
    && |stopped| == listeners
    && forall i :: 0 <= i < listeners ==> Successes(log, i) == if stopped[i] then 1 else 0
  }

  /** Events that are no stops leave the marks right. */
  lemma MarkedQuiet(listeners: nat, stopped: seq<bool>, log: seq<Event>, e: Event)
    requires Marked(listeners, stopped, log) && !e.StopTried?
    ensures Marked(listeners, stopped, log + [e])
  {
    hide Successes;
    forall k | 0 <= k < listeners
      ensures Successes(log + [e], k) == Successes(log, k)
    {
      QuietEvent(log, e, k);
    }
  }

  lemma Suffix(was: seq<Event>, log: seq<Event>, e: Event)
    requires was <= log
    ensures was <= log + [e] && (log + [e])[|was|..] == log[|was|..] + [e]
  {
  }

  class Fakenet {
    const listeners: nat
    const policyMode: bool
    const hasDiverter: bool
    const world: World
    var stopped: seq<bool>
    var log: seq<Event>

    ghost predicate Valid()
      reads this
    {
      Marked(listeners, stopped, log)
    }

    lemma Measured()
      requires Valid()
      ensures |stopped| == listeners
    {
    }

    constructor (listeners: nat, policyMode: bool, hasDiverter: bool, world: World)
      ensures this.listeners == listeners && this.policyMode == policyMode && this.hasDiverter == hasDiverter
      ensures this.world == world && Valid() && log == [] && stopped == seq(listeners, _ => false)
    {
      this.listeners, this.policyMode, this.hasDiverter, this.world := listeners, policyMode, hasDiverter, world;
      stopped, log := seq(listeners, _ => false), [];
    }

    /** Stops one listener unless a stop of it succeeded before; an exception leaves it unmarked. */
    method StopPolicyListener(i: nat) returns (raised: bool)
      requires Valid() && i < listeners
      modifies this
      ensures Valid()
      ensures old(stopped)[i] ==> !raised && log == old(log) && stopped == old(stopped)
      ensures !old(stopped)[i] ==>
                && log == old(log) + [StopTried(i, !raised)]
                && stopped == old(stopped)[i := !raised]
                && raised == !world.stops(i, CountTries(old(log), i))
    {
      if stopped[i] {
        return false;
      }
      var succeeded := TryStop(i);
      stopped := stopped[i := succeeded];
      raised := !succeeded;
      ghost var was := old(log);
      forall k | 0 <= k < listeners
        ensures Successes(log, k) == if stopped[k] then 1 else 0
      {
        LogsJoin(was, [StopTried(i, succeeded)], k);
        assert Successes([StopTried(i, succeeded)], k) == if k == i && succeeded then 1 else 0 by {
          assert [StopTried(i, succeeded)][..0] == [];
        }
      }
    }

    /** The listener's own stop(). */
    method TryStop(i: nat) returns (succeeded: bool)
      modifies this`log
      ensures succeeded == world.stops(i, CountTries(old(log), i))
      ensures log == old(log) + [StopTried(i, succeeded)]
    {
      succeeded := world.stops(i, CountTries(log, i));
      log := log + [StopTried(i, succeeded)];
    }

    /** Stops the first n listeners, last one first, whatever fails on the way. */
    method StopDown(n: nat) returns (healthy: bool, error: Option<StopError>)
      requires Valid() && n <= listeners
      modifies this
      ensures Valid() && old(log) <= log
      ensures Tried(log[|old(log)|..], Unstopped(old(stopped), n), healthy, error)
      ensures forall k :: n <= k < listeners ==> stopped[k] == old(stopped)[k]
    {
      hide *;
      Measured();
      healthy, error := true, None;
      ghost var was, before := log, stopped;
      ghost var tries: seq<nat> := [];
      assert log[|was|..] == [];
      NoneTried();
      var i: nat := n;
      while i > 0
        invariant i <= n && Valid() && was <= log && |stopped| == |before| == listeners
        invariant Tried(log[|was|..], tries, healthy, error)
        invariant tries + Unstopped(before, i) == Unstopped(before, n)
        invariant forall k :: 0 <= k < listeners && (k < i || n <= k) ==> stopped[k] == before[k]
      {
        i := i - 1;
        ghost var mid := log;
        ghost var healthy0, error0 := healthy, error;
        UnstoppedNext(before, i);
        var raised := StopPolicyListener(i);
        if raised {
          healthy := false;
          if error.None? {
            error := Some(ListenerRaised(i));
          }
        }
        if !before[i] {
          OneMoreTried(mid[|was|..], tries, healthy0, error0, StopTried(i, !raised));
          Suffix(was, mid, StopTried(i, !raised));
          assert (tries + [i]) + Unstopped(before, i) == tries + ([i] + Unstopped(before, i));
          tries := tries + [i];
        }
        Measured();
      }
      UnstoppedNone(before);
      assert tries + [] == tries;
    }

    /** Legacy teardown: every provider once, in start order. */
    method StopAll() returns (healthy: bool, error: Option<StopError>)
      requires |stopped| == listeners
      modifies this`log
      ensures old(log) <= log
      ensures Tried(log[|old(log)|..], UpTo(listeners), healthy, error)
    {
      healthy, error := true, None;
      ghost var was := log;
      assert log[|was|..] == [];
      for i := 0 to listeners
        invariant was <= log && Tried(log[|was|..], UpTo(i), healthy, error)
      {
        ghost var mid, healthy0, error0 := log, healthy, error;
        var succeeded := TryStop(i);
        if !succeeded {
          healthy := false;
          if error.None? {
            error := Some(ListenerRaised(i));
          }
        }
        OneMoreTried(mid[|was|..], UpTo(i), healthy0, error0, StopTried(i, succeeded));
        assert log[|was|..] == mid[|was|..] + [StopTried(i, succeeded)];
        assert UpTo(i + 1) == UpTo(i) + [i];
      }
    }

    /** Starts listener after listener until one does not start or has a dead worker. */
    method StartListeners() returns (started: nat, failed: bool)
      requires Valid() && log == [] && world.configures
      modifies this
      ensures Valid() && stopped == old(stopped) == seq(listeners, _ => false) && Tries(log) == []
      ensures StartsFirst(log)
      ensures failed <==> FirstTrouble(world, listeners) < listeners
      ensures started == StartedCount(world, listeners) && started <= listeners
      ensures StartedListeners(log) == UpTo(started)
    {
      hide FirstTrouble, Tries, StartedListeners, Successes;
      EmptyMeans(listeners, stopped, log);
      ghost var marks := stopped;
      started, failed := 0, false;
      while started < listeners
        invariant started <= listeners && |log| == started && stopped == marks
        invariant forall k :: 0 <= k < started ==> log[k] == Started(k)
        invariant forall k :: 0 <= k < started ==> world.starts(k) && world.workerAlive(k)
        decreases listeners - started
      {
        stopped := stopped[started := false];
        if !world.starts(started) {
          log := log + [StartFailed(started)];
          StartsLogged(log, started);
          FirstTroubleAt(world, listeners, started);
          return started, true;
        }
        log := log + [Started(started)];
        started := started + 1;
        if !world.workerAlive(started - 1) {
          StartsLogged(log, started);
          FirstTroubleAt(world, listeners, started - 1);
          return started, true;
        }
      }
      StartsLogged(log, listeners);
      NoTrouble(world, listeners);
    }

    /** Stops the first n listeners and swallows every exception. */
    method RollBack(n: nat)
      requires Valid() && n <= listeners && stopped == seq(listeners, _ => false)
      modifies this
      ensures Valid()
      ensures StartedListeners(log) == StartedListeners(old(log)) && Tries(log) == Tries(old(log)) + Down(n)
      ensures StartsFirst(old(log)) ==> StartsFirst(log)
    {
      hide *;
      ghost var failing := log;
      AllUnstopped(listeners, n);
      var healthy, error := StopDown(n);
      ghost var tried := log[|failing|..];
      assert log == failing + tried;
      TriedOnly(tried, Unstopped(seq(listeners, _ => false), n), healthy, error);
      LogsJoin(failing, tried, 0);
      NoStartsTried(tried);
      StartsStayFirst(failing, tried);
    }

    /** Policy-mode start; any failure after the first start rolls back before it raises. */
    method PolicyStart() returns (r: Result<(), StartError>)
      requires Valid() && policyMode && log == []
      modifies this
      ensures Valid()
      ensures r == StartResult(world, listeners, hasDiverter)
      ensures StartedListeners(log) == UpTo(StartedCount(world, listeners))
      ensures Tries(log) == Down(RolledBackCount(world, listeners, hasDiverter))
      ensures r.Ok? <==>
                && world.configures && (forall k :: 0 <= k < listeners ==> world.starts(k) && world.workerAlive(k))
                && world.handsOver && (hasDiverter ==> world.diverterStarts)
      ensures forall k: nat :: k in StartedListeners(log) <==>
                && world.configures && k < listeners && world.starts(k)
                && forall i :: 0 <= i < k ==> world.starts(i) && world.workerAlive(i)
      ensures r.Err? && r.error !in {ConfigureFailed, HandoverFailed} ==>
                forall k :: k in StartedListeners(log) ==> k in Tries(log)
      ensures r.Ok? || r.error in {ConfigureFailed, HandoverFailed} ==> Tries(log) == []
      ensures Backwards(Tries(log)) && StartsFirst(log)
      ensures r.Err? ==> Blames(world, listeners, hasDiverter, r.error)
    {
      EmptyMeans(listeners, stopped, log);
      hide Tries, StartedListeners, Marked, FirstTrouble, Down, Backwards, StartsFirst, Blames, UpTo, Successes;
      StartMeans(world, listeners, hasDiverter);
      NothingFirst();
      if !world.configures {
        return Err(ConfigureFailed);
      }
      var started, failed := StartListeners();
      if failed {
        RollBack(started);
        return Err(if started > 0 && world.starts(started - 1) && !world.workerAlive(started - 1)
                   then WorkerDied(started - 1) else ListenerFailed(started));
      }
      if !world.handsOver {
        return Err(HandoverFailed);
      }
      if hasDiverter {
        DiverterStart();
        if !world.diverterStarts {
          RollBack(listeners);
          return Err(DiverterFailed);
        }
      }
      return Ok(());
    }

    method DiverterStart()
      requires Valid()
      modifies this`log
      ensures Valid() && StartedListeners(log) == StartedListeners(old(log)) && Tries(log) == Tries(old(log))
      ensures log == old(log) + [DiverterStarted(world.diverterStarts)]
      ensures StartsFirst(old(log)) ==> StartsFirst(log)
    {
      MarkedQuiet(listeners, stopped, log, DiverterStarted(world.diverterStarts));
      QuietEvent(log, DiverterStarted(world.diverterStarts), 0);
      log := log + [DiverterStarted(world.diverterStarts)];
    }

    /** The owner's part of stop(): suspension, listeners and diverter, each tried whatever happened before. */
    method Teardown() returns (healthy: bool, error: Option<StopError>)
      requires Valid()
      modifies this
      ensures policyMode ==> Valid()
      ensures old(log) <= log
      ensures TornDown(log[|old(log)|..], policyMode, hasDiverter, world,
                       if policyMode then Unstopped(old(stopped), listeners) else UpTo(listeners), healthy, error)
    {
      hide *;
      ghost var was := log;
      Measured();
      var suspended := SuspendFirst();
      ghost var mid := log;
      healthy, error := suspended, if suspended then None else Some(SuspensionRaised);
      var healthy1: bool, error1: Option<StopError>;
      if policyMode {
        healthy1, error1 := StopDown(listeners);
        Measured();
      } else {
        healthy1, error1 := StopAll();
      }
      ghost var late := log;
      healthy := healthy && healthy1;
      error := if error.Some? then error else error1;
      var answer := StopDiverter();
      if answer != Healthy {
        healthy := false;
      }
      if answer == Raises && error.None? {
        error := Some(DiverterRaised);
      }
      ghost var before := if policyMode && hasDiverter then [Suspended(world.suspends)] else [];
      ghost var after := if hasDiverter then [DiverterStopped(world.diverterStops)] else [];
      ThreeParts(was, mid, late, log, before, after);
      TornDownBy(before, late[|mid|..], after, policyMode, hasDiverter, world,
                 if policyMode then Unstopped(old(stopped), listeners) else UpTo(listeners),
                 healthy1, error1, healthy, error);
    }

    /** Suspends the policy, if there is a diverter to ask. */
    method SuspendFirst() returns (succeeded: bool)
      requires Valid()
      modifies this`log
      ensures Valid()
      ensures log == old(log) + if policyMode && hasDiverter then [Suspended(world.suspends)] else []
      ensures succeeded == (policyMode && hasDiverter ==> world.suspends)
    {
      succeeded := true;
      if policyMode && hasDiverter {
        MarkedQuiet(listeners, stopped, log, Suspended(world.suspends));
        hide *;
        log := log + [Suspended(world.suspends)];
        succeeded := world.suspends;
      }
    }

    /** Stops the diverter, if there is one. */
    method StopDiverter() returns (answer: StopAnswer)
      requires |stopped| == listeners
      modifies this`log
      ensures old(Valid()) ==> Valid()
      ensures log == old(log) + if hasDiverter then [DiverterStopped(world.diverterStops)] else []
      ensures answer == if hasDiverter then world.diverterStops else Healthy
    {
      answer := Healthy;
      if hasDiverter {
        if Valid() {
          MarkedQuiet(listeners, stopped, log, DiverterStopped(world.diverterStops));
        }
        log := log + [DiverterStopped(world.diverterStops)];
        answer := world.diverterStops;
      }
    }
  }

  lemma ThreeParts(was: seq<Event>, mid: seq<Event>, late: seq<Event>, log: seq<Event>, before: seq<Event>,
                   after: seq<Event>)
    requires mid == was + before && mid <= late && log == late + after
    ensures was <= log && log[|was|..] == before + late[|mid|..] + after
  {
  }

  lemma UnstoppedNext(stopped: seq<bool>, i: nat)
    requires i < |stopped|
    ensures Unstopped(stopped, i + 1) == (if stopped[i] then [] else [i]) + Unstopped(stopped, i)
    ensures stopped[i] ==> Unstopped(stopped, i + 1) == Unstopped(stopped, i)
  {
  }

  lemma {:induction false} UnstoppedHas(stopped: seq<bool>, n: nat, k: nat)
    requires n <= |stopped|
    ensures k in Unstopped(stopped, n) <==> k < n && !stopped[k]
  {
    if n > 0 {
      UnstoppedHas(stopped, n - 1, k);
    }
  }

  /** The listeners to be stopped, each once and the last one first. */
  lemma {:induction false} UnstoppedMeans(stopped: seq<bool>, n: nat)
    requires n <= |stopped|
    ensures Backwards(Unstopped(stopped, n))
    ensures forall k: nat :: k in Unstopped(stopped, n) <==> k < n && !stopped[k]
  {
    hide Unstopped, Backwards;
    UnstoppedNone(stopped);
    NoneBackwards();
    forall k: nat
      ensures k in Unstopped(stopped, n) <==> k < n && !stopped[k]
      ensures n > 0 ==> (k in Unstopped(stopped, n - 1) ==> k < n - 1)
    {
      UnstoppedHas(stopped, n, k);
      if n > 0 {
        UnstoppedHas(stopped, n - 1, k);
      }
    }
    if n > 0 {
      UnstoppedNext(stopped, n - 1);
      UnstoppedMeans(stopped, n - 1);
      if !stopped[n - 1] {
        HeadBackwards(n - 1, Unstopped(stopped, n - 1));
      }
    }
  }

  lemma NoneBackwards()
    ensures Backwards([])
  {
  }

  lemma HeadBackwards(k: nat, rest: seq<nat>)
    requires Backwards(rest) && forall j: nat :: j in rest ==> j < k
    ensures Backwards([k] + rest)
  {
    forall j | 0 <= j < |rest|
      ensures rest[j] < k
    {
      assert rest[j] in rest;
    }
  }

  lemma UnstoppedNone(stopped: seq<bool>)
    ensures Unstopped(stopped, 0) == []
  {
  }

  // ---------------------------------------------------------------- meaning of the pieces

  predicate OnlyTries(events: seq<Event>) {
    forall i :: 0 <= i < |events| ==> events[i].StopTried?
  }

  /** Stop attempts on these listeners in this order; `error` is the first exception among them. */
  ghost predicate Tried(events: seq<Event>, tries: seq<nat>, healthy: bool, error: Option<StopError>) {
    OnlyTries(events) && Tries(events) == tries && healthy == AllSound(events) && error == FirstError(events)
  }

  lemma NoneTried()
    ensures Tried([], [], true, None)
  {
  }

  lemma OneMoreTried(events: seq<Event>, tries: seq<nat>, healthy: bool, error: Option<StopError>, e: Event)
    requires Tried(events, tries, healthy, error) && e.StopTried?
    ensures Tried(events + [e], tries + [e.listener], healthy && e.succeeded,
                  if error.None? && !e.succeeded then Some(ListenerRaised(e.listener)) else error)
  {
    assert (events + [e])[..|events|] == events;
    assert AllSound(events + [e]) <==> AllSound(events) && Sound(e);
  }

  /** Suspension first and the diverter last, when there is one; the listeners in between. */
  ghost predicate TornDown(events: seq<Event>, policyMode: bool, hasDiverter: bool, world: World, tries: seq<nat>,
                           healthy: bool, error: Option<StopError>)
  {
    && (exists middle ::
          && OnlyTries(middle) && Tries(middle) == tries
          && events == (if policyMode && hasDiverter then [Suspended(world.suspends)] else []) + middle
                       + (if hasDiverter then [DiverterStopped(world.diverterStops)] else []))
    && healthy == AllSound(events) && error == FirstError(events) && Tries(events) == tries
  }

  lemma TornDownBy(before: seq<Event>, tried: seq<Event>, after: seq<Event>, policyMode: bool, hasDiverter: bool,
                   world: World, tries: seq<nat>, healthy1: bool, error1: Option<StopError>, healthy: bool,
                   error: Option<StopError>)
    requires before == if policyMode && hasDiverter then [Suspended(world.suspends)] else []
    requires after == if hasDiverter then [DiverterStopped(world.diverterStops)] else []
    requires Tried(tried, tries, healthy1, error1)
    requires healthy
              == ((before == [] || world.suspends) && healthy1 && (after == [] || world.diverterStops == Healthy))
    requires error == if before != [] && !world.suspends then Some(SuspensionRaised)
                      else if error1.Some? then error1
                      else if after != [] && world.diverterStops == Raises then Some(DiverterRaised) else None
    ensures TornDown(before + tried + after, policyMode, hasDiverter, world, tries, healthy, error)
  {
    LogsJoin(before, tried, 0);
    LogsJoin(before + tried, after, 0);
    SingleEvents(before);
    SingleEvents(after);
    SoundJoin(before, tried);
    SoundJoin(before + tried, after);
    hide Tries, FirstError, AllSound, OnlyTries, StartedListeners, Successes, CountTries;
  }

  lemma SoundJoin(a: seq<Event>, b: seq<Event>)
    ensures AllSound(a + b) <==> AllSound(a) && AllSound(b)
  {
    if AllSound(a + b) {
      assert forall i :: 0 <= i < |a| ==> a[i] == (a + b)[i];
      assert forall i :: 0 <= i < |b| ==> b[i] == (a + b)[|a| + i];
    }
  }

  lemma SingleEvents(events: seq<Event>)
    ensures |events| <= 1 ==>
              && AllSound(events) == (events == [] || Sound(events[0]))
              && (events == [] || !events[0].StopTried? ==> Tries(events) == [])
              && (events == [] ==> FirstError(events) == None)
              && (events != [] && events[0].Suspended? ==>
                    FirstError(events) == if events[0].succeeded then None else Some(SuspensionRaised))
              && (events != [] && events[0].DiverterStopped? ==>
                    FirstError(events) == if events[0].answer == Raises then Some(DiverterRaised) else None)
  {
    if |events| == 1 {
      assert events[..0] == [];
    }
  }

  /** An event that is no successful stop changes no count. */
  lemma QuietEvent(log: seq<Event>, e: Event, listener: nat)
    requires !e.StopTried?
    ensures Successes(log + [e], listener) == Successes(log, listener)
    ensures CountTries(log + [e], listener) == CountTries(log, listener)
    ensures Tries(log + [e]) == Tries(log)
    ensures StartedListeners(log + [e]) == StartedListeners(log) + if e.Started? then [e.listener] else []
  {
    assert (log + [e])[..|log|] == log;
  }

  lemma EmptyMeans(listeners: nat, stopped: seq<bool>, log: seq<Event>)
    requires log == [] && |stopped| == listeners
    requires forall i :: 0 <= i < listeners ==> Successes(log, i) == if stopped[i] then 1 else 0
    ensures stopped == seq(listeners, _ => false)
    ensures Tries(log) == [] && StartedListeners(log) == UpTo(0)
  {
  }

  lemma {:induction false} NoStartsTried(events: seq<Event>)
    requires OnlyTries(events)
    ensures StartedListeners(events) == []
  {
    if events != [] {
      NoStartsTried(events[..|events| - 1]);
    }
  }

  // ---------------------------------------------------------------- how a start ends

  function Down(n: nat): seq<nat> {
    if n == 0 then [] else [n - 1] + Down(n - 1)
  }

  lemma {:induction false} AllUnstopped(listeners: nat, n: nat)
    requires n <= listeners
    ensures Unstopped(seq(listeners, _ => false), n) == Down(n)
  {
    if n > 0 {
      AllUnstopped(listeners, n - 1);
    }
  }

  /** The first listener that does not start or whose worker is dead; n when there is none. */
  function FirstTrouble(world: World, n: nat): (k: nat)
    ensures k <= n
    ensures k < n ==> !world.starts(k) || !world.workerAlive(k)
    ensures forall i :: 0 <= i < k ==> world.starts(i) && world.workerAlive(i)
  {
    if n == 0 then 0
    else
      var k := FirstTrouble(world, n - 1);
      if k < n - 1 then k
      else if world.starts(n - 1) && world.workerAlive(n - 1) then n else n - 1
  }

  lemma FirstTroubleAt(world: World, n: nat, k: nat)
    requires k < n && (!world.starts(k) || !world.workerAlive(k))
    requires forall i :: 0 <= i < k ==> world.starts(i) && world.workerAlive(i)
    ensures FirstTrouble(world, n) == k
  {
    var other := FirstTrouble(world, n);
    assert k < other ==> world.starts(k) && world.workerAlive(k);
  }

  lemma NoTrouble(world: World, n: nat)
    requires forall i :: 0 <= i < n ==> world.starts(i) && world.workerAlive(i)
    ensures FirstTrouble(world, n) == n
  {
  }

  /** Listeners whose start() returned. */
  function StartedCount(world: World, n: nat): nat {
    var k := FirstTrouble(world, n);
    if !world.configures then 0 else if k < n && world.starts(k) then k + 1 else k
  }

  /** Listeners that the start itself stops again: all started ones when a listener fails, all of them when
      the diverter fails, none when the failure lies before or between. */
  function RolledBackCount(world: World, n: nat, hasDiverter: bool): nat {
    if !world.configures then 0
    else if FirstTrouble(world, n) < n then StartedCount(world, n)
    else if world.handsOver && hasDiverter && !world.diverterStarts then n
    else 0
  }

  function StartResult(world: World, n: nat, hasDiverter: bool): Result<(), StartError> {
    var k := FirstTrouble(world, n);
    if !world.configures then Err(ConfigureFailed)
    else if k < n then Err(if world.starts(k) then WorkerDied(k) else ListenerFailed(k))
    else if !world.handsOver then Err(HandoverFailed)
    else if hasDiverter && !world.diverterStarts then Err(DiverterFailed)
    else Ok(())
  }

  ghost predicate Backwards(tries: seq<nat>) {
    forall i, j :: 0 <= i < j < |tries| ==> tries[j] < tries[i]
  }

  /** No listener is started after a first stop was tried. */
  ghost predicate StartsFirst(log: seq<Event>) {
    forall i, j :: 0 <= i < j < |log| && log[i].StopTried? ==> !log[j].Started?
  }

  /** The reported failure is what happened. */
  predicate Blames(world: World, n: nat, hasDiverter: bool, e: StartError) {
    match e
    case ConfigureFailed => !world.configures
    case ListenerFailed(k) =>
      world.configures && k < n && !world.starts(k) && forall i :: 0 <= i < k ==>
          world.starts(i) && world.workerAlive(i)
    case WorkerDied(k) =>
      && world.configures && k < n && world.starts(k) && !world.workerAlive(k)
      && forall i :: 0 <= i < k ==> world.starts(i) && world.workerAlive(i)
    case HandoverFailed => world.configures && !world.handsOver
    case DiverterFailed => world.configures && world.handsOver && hasDiverter && !world.diverterStarts
  }

  lemma NothingFirst()
    ensures StartsFirst([])
  {
  }

  lemma TriedOnly(events: seq<Event>, tries: seq<nat>, healthy: bool, error: Option<StopError>)
    requires Tried(events, tries, healthy, error)
    ensures OnlyTries(events) && Tries(events) == tries
  {
  }

  lemma StartsStayFirst(log: seq<Event>, tried: seq<Event>)
    requires OnlyTries(tried)
    ensures StartsFirst(log) ==> StartsFirst(log + tried)
  {
  }

  lemma {:induction false} DownMeans(n: nat)
    ensures Backwards(Down(n)) && |Down(n)| == n && forall k: nat :: k in Down(n) <==> k < n
  {
    NoneBackwards();
    if n > 0 {
      DownMeans(n - 1);
      var rest := Down(n - 1);
      assert Down(n) == [n - 1] + rest;
      hide Down, Backwards;
      HeadBackwards(n - 1, rest);
    }
  }

  lemma UpToMeans(n: nat)
    ensures forall k: nat :: k in UpTo(n) <==> k < n
  {
    forall k: nat | k < n
      ensures k in UpTo(n)
    {
      assert UpTo(n)[k] == k;
    }
  }

  /** What the counts of a start say about the listeners. */
  lemma StartMeans(world: World, n: nat, hasDiverter: bool)
    ensures Backwards(Down(RolledBackCount(world, n, hasDiverter)))
    ensures forall k: nat :: k in UpTo(StartedCount(world, n)) <==>
              && world.configures && k < n && world.starts(k)
              && forall i :: 0 <= i < k ==> world.starts(i) && world.workerAlive(i)
    ensures FirstTrouble(world, n) < n <==> !(forall k :: 0 <= k < n ==> world.starts(k) && world.workerAlive(k))
    ensures var r := StartResult(world, n, hasDiverter);
            && (r.Ok? <==>
                  && world.configures && (forall k :: 0 <= k < n ==> world.starts(k) && world.workerAlive(k))
                  && world.handsOver && (hasDiverter ==> world.diverterStarts))
            && (r.Err? ==> Blames(world, n, hasDiverter, r.error))
            && (r.Ok? || r.error in {ConfigureFailed, HandoverFailed} ==>
                  Down(RolledBackCount(world, n, hasDiverter)) == [])
            && (r.Err? && r.error !in {ConfigureFailed, HandoverFailed} ==>
                  forall k :: k in UpTo(StartedCount(world, n)) ==> k in Down(RolledBackCount(world, n, hasDiverter)))
  {
    DownMeans(RolledBackCount(world, n, hasDiverter));
    UpToMeans(StartedCount(world, n));
    var k := FirstTrouble(world, n);
    hide Down, Backwards, FirstTrouble, UpTo;
    assert k < n ==> !world.starts(k) || !world.workerAlive(k);
  }

  /** A log of starts 0, 1, 2, ... up to the last event. */
  lemma {:induction false} StartsLogged(log: seq<Event>, n: nat)
    requires |log| == n || |log| == n + 1
    requires forall k :: 0 <= k < n ==> log[k] == Started(k)
    requires |log| == n + 1 ==> log[n] == Started(n) || log[n] == StartFailed(n)
    ensures Tries(log) == [] && forall k :: Successes(log, k) == 0
    ensures StartedListeners(log) == if |log| == n + 1 && log[n].Started? then UpTo(n + 1) else UpTo(n)
  {
    if |log| == n + 1 {
      StartsLogged(log[..n], n);
      assert UpTo(n + 1) == UpTo(n) + [n];
    } else if n > 0 {
      StartsLogged(log[..n - 1], n - 1);
      assert UpTo(n) == UpTo(n - 1) + [n - 1];
    }
  }

  // ---------------------------------------------------------------- start, then stop

  /** A start that fails anywhere, or not at all, followed by a stop: no listener is stopped successfully
      twice; every listener was tried; and the first tries run backwards over all started listeners. */
  method StartThenStop(f: Fakenet) returns (started: Result<(), StartError>, healthy: bool, error: Option<StopError>)
    requires f.Valid() && f.policyMode && f.log == []
    modifies f
    ensures started == StartResult(f.world, f.listeners, f.hasDiverter)
    ensures StartedListeners(f.log) == UpTo(StartedCount(f.world, f.listeners))
    ensures forall i :: 0 <= i < f.listeners ==> Successes(f.log, i) <= 1 && i in Tries(f.log)
    ensures exists first :: && StartedCount(f.world, f.listeners) <= first <= f.listeners
                            && Down(first) <= Tries(f.log)
  {
    hide *;
    started := f.PolicyStart();
    f.Measured();
    ghost var mid, marks := f.log, f.stopped;
    ghost var rolled := RolledBackCount(f.world, f.listeners, f.hasDiverter);
    MarksOf(f);
    healthy, error := f.Teardown();
    ghost var later := f.log[|mid|..];
    assert f.log == mid + later;
    LogsJoin(mid, later, 0);
    ghost var tries := Unstopped(marks, f.listeners);
    TornDownStartsNothing(later, f.policyMode, f.hasDiverter, f.world, tries, healthy, error);
    MarksOf(f);
    MarkedOnce(f.listeners, f.stopped, f.log);
    EachTried(f.listeners, marks, mid, later);
    FirstDown(f.listeners, marks, mid, later, rolled);
    RolledBound(f.world, f.listeners, f.hasDiverter);
    assert Down(if rolled == 0 then f.listeners else rolled) <= Tries(f.log);
  }

  lemma MarksOf(f: Fakenet)
    requires f.Valid()
    ensures Marked(f.listeners, f.stopped, f.log)
  {
  }

  lemma MarkedOnce(listeners: nat, stopped: seq<bool>, log: seq<Event>)
    requires Marked(listeners, stopped, log)
    ensures forall i :: 0 <= i < listeners ==> Successes(log, i) <= 1
  {
    hide Successes;
  }

  /** Every listener is tried, before or after. */
  lemma EachTried(listeners: nat, marks: seq<bool>, mid: seq<Event>, later: seq<Event>)
    requires Marked(listeners, marks, mid) && |marks| == listeners && Tries(later) == Unstopped(marks, listeners)
    ensures forall i :: 0 <= i < listeners ==> i in Tries(mid + later)
  {
    TriesJoin(mid, later);
    hide Tries, Successes, Unstopped;
    forall i | 0 <= i < listeners
      ensures i in Tries(mid + later)
    {
      if marks[i] {
        SuccessIsTry(mid, i);
      } else {
        UnstoppedHolds(marks, listeners, i);
      }
    }
  }

  /** The first tries run backwards: those of the rollback, or without one those of the stop. */
  lemma FirstDown(listeners: nat, marks: seq<bool>, mid: seq<Event>, later: seq<Event>, rolled: nat)
    requires Marked(listeners, marks, mid) && |marks| == listeners
    requires Tries(mid) == Down(rolled) && Tries(later) == Unstopped(marks, listeners)
    ensures Down(if rolled == 0 then listeners else rolled) <= Tries(mid + later)
  {
    TriesJoin(mid, later);
    DownLength(rolled);
    hide Tries, Successes, Unstopped, Down;
    if rolled == 0 {
      forall i | 0 <= i < listeners
        ensures !marks[i]
      {
        NoTryNoSuccess(mid, i);
      }
      assert marks == seq(listeners, _ => false);
      AllUnstopped(listeners, listeners);
      assert Tries(mid) == [];
    }
  }

  lemma RolledBound(world: World, n: nat, hasDiverter: bool)
    ensures StartedCount(world, n) <= n && RolledBackCount(world, n, hasDiverter) <= n
    ensures RolledBackCount(world, n, hasDiverter) != 0 ==>
              StartedCount(world, n) <= RolledBackCount(world, n, hasDiverter)
  {
  }

  lemma TornDownStartsNothing(events: seq<Event>, policyMode: bool, hasDiverter: bool, world: World, tries: seq<nat>,
                              healthy: bool, error: Option<StopError>)
    requires TornDown(events, policyMode, hasDiverter, world, tries, healthy, error)
    ensures StartedListeners(events) == [] && Tries(events) == tries
  {
    var before: seq<Event> := if policyMode && hasDiverter then [Suspended(world.suspends)] else [];
    var after: seq<Event> := if hasDiverter then [DiverterStopped(world.diverterStops)] else [];
    var middle: seq<Event> :| OnlyTries(middle) && Tries(middle) == tries && events == before + middle + after;
    LogsJoin(before, middle, 0);
    LogsJoin(before + middle, after, 0);
    NoStartsTried(middle);
    assert before != [] ==> before[..0] == [];
    assert after != [] ==> after[..0] == [];
  }

  lemma {:induction false} UnstoppedHolds(stopped: seq<bool>, n: nat, i: nat)
    requires i < n <= |stopped| && !stopped[i]
    ensures i in Unstopped(stopped, n)
  {
    if i < n - 1 {
      UnstoppedHolds(stopped, n - 1, i);
    }
  }

  lemma {:induction false} SuccessIsTry(log: seq<Event>, i: nat)
    requires Successes(log, i) > 0
    ensures i in Tries(log)
  {
    var n := |log| - 1;
    if log[n] != StopTried(i, true) {
      SuccessIsTry(log[..n], i);
    }
  }

  lemma NoTryNoSuccess(log: seq<Event>, i: nat)
    requires Tries(log) == []
    ensures Successes(log, i) == 0
  {
    if Successes(log, i) > 0 {
      SuccessIsTry(log, i);
    }
  }

  /** In such a sequence of tries, of two started listeners the later one is tried first. */
  lemma {:induction false} FirstTryReversed(first: nat, i: nat)
    requires i < first
    ensures |Down(first)| == first && Down(first)[first - 1 - i] == i
    ensures forall k :: 0 <= k < first - 1 - i ==> Down(first)[k] > i
  {
    if i < first - 1 {
      FirstTryReversed(first - 1, i);
    } else {
      DownLength(first);
    }
  }

  lemma {:induction false} DownLength(n: nat)
    ensures |Down(n)| == n
  {
    if n > 0 {
      DownLength(n - 1);
    }
  }
}
