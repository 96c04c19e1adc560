/**
 Failover under concurrency: callers and health checks that interleave between the updates made under
 the lock. They keep every status in agreement with its counters, but not the rule that a circuit belongs
 to an unhealthy endpoint: the lemmas say which step breaks that rule, and that no other does.
 */
module FailoverThreads {
  import opened Options
  import opened Failover

  // ---------- the step that breaks the rule ----------

  /** An answer is recorded for an endpoint whose circuit is in the dictionary. */
  predicate AnswersInOpenCircuit(s: State, a: Action)
    requires Possible(s, a)
  {
    a.Succeed? && s.configs[a.i].url in s.circuits
  }

  lemma OthersUntouched(limits: Limits, s: State, a: Action, k: nat)
    requires Possible(s, a) && UrlsDiffer(s) && k < |s.configs| && (a.DropCircuit? || k != a.i)
    ensures Apply(limits, s, a).healths[k] == s.healths[k]
    ensures s.configs[k].url in Apply(limits, s, a).circuits ==> s.configs[k].url in s.circuits
  {
    if !a.DropCircuit? {
      assert s.configs[k].url != s.configs[a.i].url;
    }
  }

  /** From a sound state exactly that step leaves a circuit to an endpoint that is not unhealthy. */
  lemma CircuitsStayUnhealthyExactlyUnless(limits: Limits, s: State, a: Action)
    requires IsSound(limits, s) && Possible(s, a)
    ensures CircuitsAreUnhealthy(Apply(limits, s, a)) <==> !AnswersInOpenCircuit(s, a)
  {
    var t := Apply(limits, s, a);
    forall k | 0 <= k < |s.configs| && (a.DropCircuit? || k != a.i) && s.configs[k].url in t.circuits
      ensures t.healths[k].status == Unhealthy
    {
      OthersUntouched(limits, s, a, k);
    }
    if !a.DropCircuit? {
      assert IsConsistent(limits, s.healths[a.i]);
      assert t.configs[a.i] == s.configs[a.i];
    }
  }

  /** The rule holds after every step of a run. */
  ghost predicate SoundThroughout(limits: Limits, s: State, actions: seq<Action>)
    requires AllPossible(s, actions)
    decreases |actions|
  {
    CircuitsAreUnhealthy(s) && (actions != [] ==> SoundThroughout(limits, Apply(limits, s, actions[0]), actions[1..]))
  }

  /** Some step of it is of that kind. */
  predicate SomeAnswerInOpenCircuit(limits: Limits, s: State, actions: seq<Action>)
    requires AllPossible(s, actions)
    decreases |actions|
  {
    actions != [] &&
    (AnswersInOpenCircuit(s, actions[0]) || SomeAnswerInOpenCircuit(limits, Apply(limits, s, actions[0]), actions[1..]))
  }

  /** For every interleaving: the rule holds throughout exactly when no answer is recorded in an open circuit. */
  lemma {:induction false} SoundThroughoutExactlyUnless(limits: Limits, s: State, actions: seq<Action>)
    requires IsSound(limits, s) && AllPossible(s, actions)
    ensures SoundThroughout(limits, s, actions) <==> !SomeAnswerInOpenCircuit(limits, s, actions)
    decreases |actions|
  {
    if actions != [] {
      var t := Apply(limits, s, actions[0]);
      CircuitsStayUnhealthyExactlyUnless(limits, s, actions[0]);
      if !AnswersInOpenCircuit(s, actions[0]) {
        ActionIsConsistent(limits, s, actions[0]);
        SoundThroughoutExactlyUnless(limits, t, actions[1..]);
      } else {
        assert !CircuitsAreUnhealthy(t);
      }
    }
  }

  // ---------- threads ----------

  /** Where a caller of `rpc_call` is in its loop. */
  datatype Phase =
    | Testing(i: nat)      // about to test endpoint `i`
    | Calling(i: nat)      // past the tests, the request is out
    | Charging(i: nat)     // the failed request is counted, the endpoint not yet marked
    | Returned

  datatype System = System(state: State, callers: map<nat, Phase>)

  /** One step of a caller, or of the health checks, which touch any endpoint. */
  datatype Event =
    | Test(caller: nat, now: int)
    | Answered(caller: nat, now: int)
    | Refused(caller: nat)
    | Charged(caller: nat, now: int, openedAt: int)
    | CheckPassed(i: nat, now: int, latency: real)
    | CheckFailed(i: nat, now: int, openedAt: int)

  predicate Enabled(sys: System, e: Event) {
    WellFormed(sys.state) &&
    match e
    case Test(c, _) => c in sys.callers && sys.callers[c].Testing? && sys.callers[c].i < |sys.state.configs|
    case Answered(c, _) => c in sys.callers && sys.callers[c].Calling? && sys.callers[c].i < |sys.state.configs|
    case Refused(c) => c in sys.callers && sys.callers[c].Calling? && sys.callers[c].i < |sys.state.configs|
    case Charged(c, _, _) => c in sys.callers && sys.callers[c].Charging? && sys.callers[c].i < |sys.state.configs|
    case CheckPassed(i, _, _) => i < |sys.state.configs|
    case CheckFailed(i, _, _) => i < |sys.state.configs|
  }

  /** The update of the shared state, if the step makes one. */
  function Update(sys: System, e: Event): Option<Action>
    requires Enabled(sys, e)
  {
    match e
    case Test(c, now) =>
      var url := sys.state.configs[sys.callers[c].i].url;
      if url in sys.state.circuits && now >= sys.state.circuits[url] then Some(DropCircuit(url)) else None
    case Answered(c, now) => Some(Succeed(sys.callers[c].i, now))
    case Refused(c) => Some(CountFailure(sys.callers[c].i))
    case Charged(c, now, openedAt) => Some(Mark(sys.callers[c].i, now, openedAt))
    case CheckPassed(i, now, latency) => Some(Recover(i, now, latency))
    case CheckFailed(i, now, openedAt) => Some(Mark(i, now, openedAt))
  }

  function Moved(sys: System, e: Event): map<nat, Phase>
    requires Enabled(sys, e)
  {
    match e
    case Test(c, now) =>
      var i := sys.callers[c].i;
      sys.callers[c := if IsEligible(sys.state, i, now) then Calling(i) else Testing(i + 1)]
    case Answered(c, _) => sys.callers[c := Returned]
    case Refused(c) => sys.callers[c := Charging(sys.callers[c].i)]
    case Charged(c, _, _) => sys.callers[c := Testing(sys.callers[c].i + 1)]
    case _ => sys.callers
  }

  function Next(limits: Limits, sys: System, e: Event): System
    requires Enabled(sys, e)
  {
    var u := Update(sys, e);
    System(if u.Some? then Apply(limits, sys.state, u.value) else sys.state, Moved(sys, e))
  }

  /** The step in question, as a caller takes it: its answer comes after another thread has opened the circuit. */
  predicate AnsweredLate(sys: System, e: Event)
    requires Enabled(sys, e)
  {
    e.Answered? && sys.state.configs[sys.callers[e.caller].i].url in sys.state.circuits
  }

  lemma NextIsSoundExactlyUnless(limits: Limits, sys: System, e: Event)
    requires IsSound(limits, sys.state) && Enabled(sys, e)
    ensures AllConsistent(limits, Next(limits, sys, e).state)
    ensures IsSound(limits, Next(limits, sys, e).state) <==> !AnsweredLate(sys, e)
  {
    var u := Update(sys, e);
    if u.Some? {
      ActionIsConsistent(limits, sys.state, u.value);
      CircuitsStayUnhealthyExactlyUnless(limits, sys.state, u.value);
    }
  }

  /** A caller that is alone, with no health checks beside it, has its circuit closed while its request is out. */
  ghost predicate LoneCaller(sys: System, c: nat) {
    && sys.callers.Keys == {c}
    && (sys.callers[c].Calling? && sys.callers[c].i < |sys.state.configs| ==>
          sys.state.configs[sys.callers[c].i].url !in sys.state.circuits)
  }

  /** So it takes two threads: a caller alone keeps the rule with every step. */
  lemma LoneCallerKeepsTheRule(limits: Limits, sys: System, c: nat, e: Event)
    requires IsSound(limits, sys.state) && Enabled(sys, e) && LoneCaller(sys, c)
    requires !e.CheckPassed? && !e.CheckFailed?
    ensures IsSound(limits, Next(limits, sys, e).state) && LoneCaller(Next(limits, sys, e), c)
  {
    NextIsSoundExactlyUnless(limits, sys, e);
  }

  // ---------- one thread at a time ----------

  /** A caller's steps at its endpoint, undisturbed, when it finds what `v` says. */
  function Visited(limits: Limits, sys: System, c: nat, v: Visit): System
    requires WellFormed(sys.state) && c in sys.callers && sys.callers[c].Testing?
    requires sys.callers[c].i < |sys.state.configs| && limits.maxRetries <= |v.replies|
  {
    var tested := Next(limits, sys, Test(c, v.checkedAt));
    if !tested.callers[c].Calling? then tested
    else if FirstAnswer(v.replies, limits.maxRetries).Some? then Next(limits, tested, Answered(c, v.finishedAt))
    else Next(limits, Next(limits, tested, Refused(c)), Event.Charged(c, v.finishedAt, v.openedAt))
  }

  /** They are the body of the failover loop. */
  lemma VisitIsTheLoopsBody(limits: Limits, sys: System, c: nat, v: Visit)
    requires WellFormed(sys.state) && c in sys.callers && sys.callers[c].Testing?
    requires sys.callers[c].i < |sys.state.configs| && limits.maxRetries <= |v.replies|
    ensures var i := sys.callers[c].i;
            var r := Tried(limits, sys.state, i, v);
            Visited(limits, sys, c, v) ==
            System(r.state, sys.callers[c := if r.answer.Some? then Returned else Testing(i + 1)])
  {
    var i := sys.callers[c].i;
    var tested := Next(limits, sys, Test(c, v.checkedAt));
    assert tested.state.circuits == Swept(sys.state.circuits, sys.state.configs[i].url, v.checkedAt);
  }

  /** A caller's steps from its endpoint to the end of its call. */
  function Called(limits: Limits, sys: System, c: nat, visits: seq<Visit>, i: nat): System
    requires Ready(limits, sys.state, visits) && i <= |visits|
    requires c in sys.callers && sys.callers[c] == Testing(i)
    decreases |visits| - i
  {
    if i == |visits| then sys
    else
      VisitIsTheLoopsBody(limits, sys, c, visits[i]);
      var next := Visited(limits, sys, c, visits[i]);
      if next.callers[c].Returned? then next else Called(limits, next, c, visits, i + 1)
  }

  /** Undisturbed, a caller's steps are the call. */
  lemma {:induction false} StepsAreTheCall(limits: Limits, sys: System, c: nat, visits: seq<Visit>, i: nat)
    requires Ready(limits, sys.state, visits) && i <= |visits|
    requires c in sys.callers && sys.callers[c] == Testing(i)
    ensures var r := CallFrom(limits, sys.state, visits, i);
            Called(limits, sys, c, visits, i) ==
            System(r.state, sys.callers[c := if r.answer.Some? then Returned else Testing(|visits|)])
    decreases |visits| - i
  {
    if i < |visits| {
      var next := Visited(limits, sys, c, visits[i]);
      VisitIsTheLoopsBody(limits, sys, c, visits[i]);
      if !next.callers[c].Returned? {
        StepsAreTheCall(limits, next, c, visits, i + 1);
        assert sys.callers[c := Testing(i + 1)][c := Returned] == sys.callers[c := Returned];
        assert sys.callers[c := Testing(i + 1)][c := Testing(|visits|)] == sys.callers[c := Testing(|visits|)];
      }
    } else {
      assert sys.callers[c := Testing(i)] == sys.callers;
    }
  }

  // ---------- runs ----------

  function Play(limits: Limits, sys: System, events: seq<Event>): Option<System> {
    if events == [] then Some(sys)
    else
      var before := Play(limits, sys, events[..|events| - 1]);
      var e := events[|events| - 1];
      if before.None? || !Enabled(before.value, e) then None else Some(Next(limits, before.value, e))
  }

  lemma PlayOn(limits: Limits, sys: System, events: seq<Event>, now: System, e: Event)
    returns (events': seq<Event>, next: System)
    requires Play(limits, sys, events) == Some(now) && Enabled(now, e)
    ensures Play(limits, sys, events') == Some(next) && next == Next(limits, now, e)
  {
    events', next := events + [e], Next(limits, now, e);
    assert events'[..|events|] == events;
  }

  ghost predicate AlwaysSound(limits: Limits, sys: System, events: seq<Event>)
    requires Play(limits, sys, events).Some?
    decreases |events|
  {
    && IsSound(limits, Play(limits, sys, events).value.state)
    && (events != [] ==> AlwaysSound(limits, sys, events[..|events| - 1]))
  }

  predicate SomeAnsweredLate(limits: Limits, sys: System, events: seq<Event>)
    requires Play(limits, sys, events).Some?
    decreases |events|
  {
    events != [] &&
    var before := events[..|events| - 1];
    SomeAnsweredLate(limits, sys, before) || AnsweredLate(Play(limits, sys, before).value, events[|events| - 1])
  }

  /** Whatever callers and health checks do: the rule always holds exactly when no caller is answered that late. */
  lemma {:induction false} AlwaysSoundExactlyUnlessLate(limits: Limits, sys: System, events: seq<Event>)
    requires IsSound(limits, sys.state) && Play(limits, sys, events).Some?
    ensures AlwaysSound(limits, sys, events) <==> !SomeAnsweredLate(limits, sys, events)
    decreases |events|
  {
    if events != [] {
      var before := events[..|events| - 1];
      AlwaysSoundExactlyUnlessLate(limits, sys, before);
      if AlwaysSound(limits, sys, before) {
        NextIsSoundExactlyUnless(limits, Play(limits, sys, before).value, events[|events| - 1]);
      }
    }
  }

  /**
   Two callers do break it. Both find the endpoint usable one failure below its threshold; the first fails and opens
   the circuit, then the second is answered and makes the endpoint healthy, its circuit still open.
   */
  lemma TwoCallersBreakTheRule(limits: Limits, s: State, now: int) returns (events: seq<Event>, sys: System)
    requires IsSound(limits, s) && |s.configs| > 0
    requires s.healths[0].consecutiveFailures + 1 == limits.threshold && s.configs[0].url !in s.circuits
    ensures Play(limits, System(s, map[1 := Testing(0), 2 := Testing(0)]), events) == Some(sys)
    ensures WellFormed(sys.state) && sys.state.configs == s.configs
    ensures sys.state.healths[0].status == Healthy && s.configs[0].url in sys.state.circuits
  {
    var start := System(s, map[1 := Testing(0), 2 := Testing(0)]);
    assert IsConsistent(limits, s.healths[0]);
    events, sys := PlayOn(limits, start, [], start, Test(1, now));
    events, sys := PlayOn(limits, start, events, sys, Test(2, now));
    events, sys := PlayOn(limits, start, events, sys, Refused(1));
    events, sys := PlayOn(limits, start, events, sys, Charged(1, now, now));
    events, sys := PlayOn(limits, start, events, sys, Answered(2, now));
  }
}
