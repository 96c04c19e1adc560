/**
 What a future reports. For every interleaving: which promises have a value when `stop` returns,
 whose value it is, and that `stop` gets to return.
 */
module EngineOutcomes {
  import opened Options
  import opened MapSums
  import opened TaskQueues
  import opened Engines
  import opened EngineProtocol

  // ---------- promises that another one displaces ----------

  /** A registration under an id that is taken: promise `p` is dropped from the map. */
  predicate Displaces(s: State, a: Action, p: Promise)
    requires Enabled(s, a)
  {
    a.Register? && s.calls[a.promise].taskId in s.sh.pending && s.sh.pending[s.calls[a.promise].taskId] == p
  }

  predicate Displaced(acts: seq<Action>, p: Promise)
    requires Run(acts).Some?
    decreases |acts|
  {
    acts != [] &&
    var before := acts[..|acts| - 1];
    Displaced(before, p) || Displaces(Run(before).value, acts[|acts| - 1], p)
  }

  lemma OverwrittenBy(s: State, a: Action, p: Promise)
    requires PromisesOk(s) && Enabled(s, a)
    ensures (p in Apply(s, a).place && Apply(s, a).place[p].Overwritten?) <==>
            (p in s.place && s.place[p].Overwritten?) || Displaces(s, a, p)
  {
    if p in s.place && p in s.calls {
      assert PlaceIsReal(s, p);
    }
  }

  lemma {:induction false} OverwrittenExactlyWhenDisplaced(acts: seq<Action>, p: Promise)
    requires Run(acts).Some?
    ensures (p in Run(acts).value.place && Run(acts).value.place[p].Overwritten?) <==> Displaced(acts, p)
    decreases |acts|
  {
    if acts != [] {
      var before := acts[..|acts| - 1];
      RunKeepsInv(before);
      OverwrittenExactlyWhenDisplaced(before, p);
      OverwrittenBy(Run(before).value, acts[|acts| - 1], p);
    }
  }

  /**
   When `stop` returns, the promises with a value are exactly those that were registered before the map was
   swapped out and that no later registration under the same id displaced. Task ids may repeat.
   */
  lemma StopSettlesExactly(acts: seq<Action>, p: Promise)
    requires Run(acts).Some? && StopDone(Run(acts).value)
    ensures IsSettled(Run(acts).value, p) <==> p in Run(acts).value.stopper.registered && !Displaced(acts, p)
  {
    var s := Run(acts).value;
    RunKeepsInv(acts);
    OverwrittenExactlyWhenDisplaced(acts, p);
    if p in s.place {
      assert PlaceIsReal(s, p);
    }
  }

  /**
   A displaced promise gets no value at all, however the run goes on and however often the engine is started again.
   */
  lemma {:induction false} DisplacedNeverGetsAValue(acts: seq<Action>, more: seq<Action>, p: Promise)
    requires Run(acts).Some? && Displaced(acts, p) && Run(acts + more).Some?
    ensures Displaced(acts + more, p) && !IsSettled(Run(acts + more).value, p)
    decreases |more|
  {
    if more == [] {
      assert acts + more == acts;
    } else {
      assert (acts + more)[..|acts + more| - 1] == acts + more[..|more| - 1];
      DisplacedNeverGetsAValue(acts, more[..|more| - 1], p);
    }
    RunKeepsInv(acts + more);
    OverwrittenExactlyWhenDisplaced(acts + more, p);
  }

  // ---------- promises that a worker answers ----------

  /** A worker that looks up its task's id takes promise `p` out of the map. */
  predicate Finds(s: State, a: Action, p: Promise)
    requires Enabled(s, a)
  {
    a.Detach? && s.workers[a.worker].task.taskId in s.sh.pending && s.sh.pending[s.workers[a.worker].task.taskId] == p
  }

  predicate EverFound(acts: seq<Action>, p: Promise)
    requires Run(acts).Some?
    decreases |acts|
  {
    acts != [] &&
    var before := acts[..|acts| - 1];
    EverFound(before, p) || Finds(Run(before).value, acts[|acts| - 1], p)
  }

  ghost predicate SettledBy(s: State, p: Promise, byWorker: bool) {
    exists i :: 0 <= i < |s.sh.settled| && s.sh.settled[i].promise == p && s.sh.settled[i].source.ByWorker? == byWorker
  }

  /** A worker has the promise in hand or has given it its value. */
  ghost predicate InWorkersHands(s: State, p: Promise) {
    p in s.place &&
    match s.place[p]
    case HeldBy(_) => true
    case SettledAt(i) => i < |s.sh.settled| && s.sh.settled[i].source.ByWorker?
    case _ => false
  }

  /** What a step adds to the record of values set. */
  lemma SettledAfter(s: State, a: Action)
    requires Enabled(s, a)
    ensures var log, log' := s.sh.settled, Apply(s, a).sh.settled;
            match a
            case SetValue(w) =>
              var Setting(t, v, p) := s.workers[w];
              log' == log + [Settlement(p, v, ByWorker(t))]
            case Cancel(id) => log' == log + [Settlement(s.stopper.todo[id], Cancelled(id, STOPPED), BySweep)]
            case _ => log' == log
  {}

  lemma HandsAfter(s: State, a: Action, p: Promise)
    requires PromisesOk(s) && Enabled(s, a)
    ensures InWorkersHands(Apply(s, a), p) <==> InWorkersHands(s, p) || Finds(s, a, p)
  {
    SettledAfter(s, a);
    if p in s.place {
      assert PlaceIsReal(s, p);
    }
  }

  lemma {:induction false} HandsExactlyWhenFound(acts: seq<Action>, p: Promise)
    requires Run(acts).Some?
    ensures InWorkersHands(Run(acts).value, p) <==> EverFound(acts, p)
    decreases |acts|
  {
    if acts != [] {
      var before := acts[..|acts| - 1];
      RunKeepsInv(before);
      HandsExactlyWhenFound(before, p);
      HandsAfter(Run(before).value, acts[|acts| - 1], p);
    }
  }

  /**
   When `stop` returns, the futures that a worker has answered are exactly those whose promise some worker found
   in the map, and `stop` has cancelled exactly the others that it had to settle.
   */
  lemma WhoAnswers(acts: seq<Action>, p: Promise)
    requires Run(acts).Some? && StopDone(Run(acts).value)
    ensures var s := Run(acts).value;
            && (SettledBy(s, p, true) <==> EverFound(acts, p))
            && (SettledBy(s, p, false) <==>
                p in s.stopper.registered && !Displaced(acts, p) && !EverFound(acts, p))
  {
    var s := Run(acts).value;
    RunKeepsInv(acts);
    HandsExactlyWhenFound(acts, p);
    StopSettlesExactly(acts, p);
    if p in s.place {
      assert PlaceIsReal(s, p);
    }
  }

  // ---------- the values ----------

  /** Step `k` of the run is worker `w` running task `t`, of which `v` is to be reported. */
  predicate Ran(acts: seq<Action>, k: nat, w: nat, t: Task, v: Assignment) {
    && k < |acts| && acts[k].RunTask? && acts[k].worker == w && Reports(t, acts[k].choice, v)
    && var met := Run(acts[..k]);
       met.Some? && w in met.value.workers && met.value.workers[w] == Running(t)
  }

  lemma RanBefore(acts: seq<Action>, k: nat, w: nat, t: Task, v: Assignment)
    requires acts != [] && Ran(acts[..|acts| - 1], k, w, t, v)
    ensures Ran(acts, k, w, t, v)
  {
    assert acts[..|acts| - 1][..k] == acts[..k];
  }

  predicate Carries(s: State, w: nat, t: Task, v: Assignment) {
    && w in s.workers && (s.workers[w].Resolving? || s.workers[w].Setting?)
    && s.workers[w].task == t && s.workers[w].value == v
  }

  lemma CarriedAfter(s: State, a: Action, w: nat, t: Task, v: Assignment)
    requires Enabled(s, a) && Carries(Apply(s, a), w, t, v)
    ensures Carries(s, w, t, v) ||
            (a.RunTask? && a.worker == w && s.workers[w] == Running(t) && Reports(t, a.choice, v))
  {}

  /** The value that a worker carries to a promise is the outcome of the task that it ran. */
  lemma {:induction false} CarriedValue(acts: seq<Action>, w: nat, t: Task, v: Assignment) returns (k: nat)
    requires Run(acts).Some? && Carries(Run(acts).value, w, t, v)
    ensures Ran(acts, k, w, t, v)
    decreases |acts|
  {
    var before := acts[..|acts| - 1];
    CarriedAfter(Run(before).value, acts[|acts| - 1], w, t, v);
    if Carries(Run(before).value, w, t, v) {
      k := CarriedValue(before, w, t, v);
      RanBefore(acts, k, w, t, v);
    } else {
      k := |acts| - 1;
    }
  }

  /** Every value that a worker has set reports the choice that it ran its task with. */
  lemma {:induction false} WorkersReportWhatTheyRan(acts: seq<Action>, x: Settlement) returns (k: nat, w: nat)
    requires Run(acts).Some? && x in Run(acts).value.sh.settled && x.source.ByWorker?
    ensures Ran(acts, k, w, x.source.task, x.value)
    decreases |acts|
  {
    var before, a := acts[..|acts| - 1], acts[|acts| - 1];
    SettledAfter(Run(before).value, a);
    if x in Run(before).value.sh.settled {
      k, w := WorkersReportWhatTheyRan(before, x);
    } else {
      w := a.worker;
      k := CarriedValue(before, w, x.source.task, x.value);
    }
    RanBefore(acts, k, w, x.source.task, x.value);
  }

  /** What a future reports of task `id` when `stop` has settled it. */
  predicate ReportsStop(id: string, v: Assignment) {
    !v.placed && v.reason == "Engine stopped before assignment" && v.assignmentId == id + "-cancelled"
    && v.workerPeerId == ""
  }

  ghost predicate IsCancellation(s: State, x: Settlement) {
    x.promise in s.calls && ReportsStop(s.calls[x.promise].taskId, x.value)
  }

  lemma CancellationsAfter(s: State, a: Action, x: Settlement)
    requires PromisesOk(s) && Enabled(s, a) && x in Apply(s, a).sh.settled && x.source.BySweep?
    requires x in s.sh.settled ==> IsCancellation(s, x)
    ensures IsCancellation(Apply(s, a), x)
  {
    SettledAfter(s, a);
  }

  /** Every value that `stop` has set is the cancellation of the promise's own task. */
  lemma {:induction false} StopReportsCancellation(acts: seq<Action>, x: Settlement)
    requires Run(acts).Some? && x in Run(acts).value.sh.settled && x.source.BySweep?
    ensures IsCancellation(Run(acts).value, x)
    decreases |acts|
  {
    var before := acts[..|acts| - 1];
    RunKeepsInv(before);
    if x in Run(before).value.sh.settled {
      StopReportsCancellation(before, x);
    }
    CancellationsAfter(Run(before).value, acts[|acts| - 1], x);
  }

  /** A future reports a placed task exactly when a worker answered it whose run chose a placed assignment. */
  lemma PlacedExactlyWhenChosenPlaced(acts: seq<Action>, x: Settlement)
    requires Run(acts).Some? && x in Run(acts).value.sh.settled
    ensures x.value.placed <==>
            x.source.ByWorker? &&
            exists k: nat, w: nat :: Ran(acts, k, w, x.source.task, x.value) && ChoosesPlaced(acts[k])
  {
    if x.source.ByWorker? {
      var k, w := WorkersReportWhatTheyRan(acts, x);
    } else {
      StopReportsCancellation(acts, x);
    }
  }

  /** A worker runs its task with a placed assignment. */
  predicate ChoosesPlaced(a: Action) {
    a.RunTask? && a.choice.Chosen? && a.choice.assignment.placed
  }

  function RunsThat(acts: seq<Action>, placed: bool): nat {
    if acts == [] then 0
    else
      var a := acts[|acts| - 1];
      RunsThat(acts[..|acts| - 1], placed) + (if a.RunTask? && ChoosesPlaced(a) == placed then 1 else 0)
  }

  function TimesTaken(acts: seq<Action>): nat {
    if acts == [] then 0 else TimesTaken(acts[..|acts| - 1]) + (if acts[|acts| - 1].CountTaken? then 1 else 0)
  }

  lemma CountersAfter(s: State, a: Action)
    requires Enabled(s, a)
    ensures var sh, sh' := s.sh, Apply(s, a).sh;
            && sh'.completed == sh.completed + (if ChoosesPlaced(a) then 1 else 0)
            && sh'.failed == sh.failed + (if a.RunTask? && !ChoosesPlaced(a) then 1 else 0)
            && sh'.taken == sh.taken + (if a.CountTaken? then 1 else 0)
  {}

  /** The counters count these steps: runs with a placed assignment, all other runs, and tasks taken. */
  lemma {:induction false} CountersCountRuns(acts: seq<Action>)
    requires Run(acts).Some?
    ensures var sh := Run(acts).value.sh;
            && sh.completed == RunsThat(acts, true) && sh.failed == RunsThat(acts, false)
            && sh.taken == TimesTaken(acts)
    decreases |acts|
  {
    if acts != [] {
      var before := acts[..|acts| - 1];
      CountersCountRuns(before);
      CountersAfter(Run(before).value, acts[|acts| - 1]);
    }
  }

  // ---------- in terms of registration ----------

  /** No worker has a task. */
  predicate Quiet(s: State) {
    forall w | w in s.workers :: s.workers[w].AtTop? || s.workers[w].Waiting? || s.workers[w].Exited?
  }

  /** The queue stays shut down after the first `stop`, so from its sweep on no worker ever has a task. */
  ghost predicate ShutOk(s: State) {
    && (s.stopper.Joining? ==> s.sh.queue.shutdown)
    && (s.stopper.Sweeping? || (exists x :: x in s.sh.settled && x.source.BySweep?) ==> s.sh.queue.shutdown && Quiet(s))
  }

  lemma ShutOkKept(s: State, a: Action)
    requires ShutOk(s) && Enabled(s, a)
    ensures ShutOk(Apply(s, a))
  {
    SettledAfter(s, a);
  }

  lemma {:induction false} RunKeepsShutOk(acts: seq<Action>)
    requires Run(acts).Some?
    ensures ShutOk(Run(acts).value)
    decreases |acts|
  {
    if acts != [] {
      RunKeepsShutOk(acts[..|acts| - 1]);
      ShutOkKept(Run(acts[..|acts| - 1]).value, acts[|acts| - 1]);
    }
  }

  predicate CallsKept(s: State, t: State) {
    forall q | q in s.calls :: q in t.calls && t.calls[q] == s.calls[q]
  }

  lemma StepKeepsCalls(s: State, a: Action)
    requires Enabled(s, a)
    ensures CallsKept(s, Apply(s, a))
  {}

  /** Every beginning of a run is a run, and no call that it has seen is forgotten. */
  lemma {:induction false} Beginning(acts: seq<Action>, k: nat)
    requires Run(acts).Some? && k <= |acts|
    ensures Run(acts[..k]).Some? && CallsKept(Run(acts[..k]).value, Run(acts).value)
    ensures k < |acts| ==> Enabled(Run(acts[..k]).value, acts[k])
    decreases |acts|
  {
    if k == |acts| {
      assert acts[..k] == acts;
    } else {
      var before := acts[..|acts| - 1];
      assert acts[..k] == before[..k];
      Beginning(before, k);
      StepKeepsCalls(Run(before).value, acts[|acts| - 1]);
      if k == |before| {
        assert before[..k] == before;
      }
    }
  }

  lemma {:induction false} FoundStaysFound(acts: seq<Action>, k: nat, p: Promise)
    requires Run(acts).Some? && k <= |acts| && Run(acts[..k]).Some? && EverFound(acts[..k], p)
    ensures EverFound(acts, p)
    decreases |acts|
  {
    if k == |acts| {
      assert acts[..k] == acts;
    } else {
      assert acts[..k] == acts[..|acts| - 1][..k];
      FoundStaysFound(acts[..|acts| - 1], k, p);
    }
  }

  lemma {:induction false} WhenFound(acts: seq<Action>, p: Promise) returns (k: nat)
    requires Run(acts).Some? && EverFound(acts, p)
    ensures k < |acts| && Run(acts[..k]).Some? && Enabled(Run(acts[..k]).value, acts[k])
    ensures Finds(Run(acts[..k]).value, acts[k], p)
    decreases |acts|
  {
    var before := acts[..|acts| - 1];
    if EverFound(before, p) {
      k := WhenFound(before, p);
      assert acts[..k] == before[..k];
    } else {
      k := |before|;
    }
  }

  /**
   Step `k` is a worker with the outcome of task `t` in hand looking up its id, and promise `p` is registered by
   then.
   */
  predicate InTime(acts: seq<Action>, k: nat, t: Task, p: Promise) {
    && k < |acts| && acts[k].Detach?
    && var met, w := Run(acts[..k]), acts[k].worker;
       && met.Some? && w in met.value.workers && met.value.workers[w].Resolving?
       && met.value.workers[w].task == t && p in met.value.place
  }

  lemma FoundIsInTime(acts: seq<Action>, p: Promise) returns (k: nat)
    requires Run(acts).Some? && DistinctIds(Run(acts).value.calls) && p in Run(acts).value.calls
    requires EverFound(acts, p)
    ensures InTime(acts, k, Run(acts).value.calls[p], p)
  {
    k := WhenFound(acts, p);
    Beginning(acts, k);
    RunKeepsInv(acts[..k]);
    var s, w := Run(acts[..k]).value, acts[k].worker;
    assert Submitted(s, s.workers[w].task);
    var q :| q in s.calls && s.calls[q] == s.workers[w].task;
  }

  /** A worker at that point either finds the promise or some worker has found it before. */
  lemma InTimeIsFoundHere(s: State, w: nat, p: Promise)
    requires p in s.place && p in s.calls && PlaceIsReal(s, p) && ShutOk(s) && DistinctIds(s.calls)
    requires w in s.workers && s.workers[w].Resolving? && s.workers[w].task == s.calls[p]
    ensures InWorkersHands(s, p) || Finds(s, Detach(w), p)
  {
    assert !Quiet(s);
    match s.place[p]
    case SettledAt(i) => assert s.sh.settled[i] in s.sh.settled;
    case _ =>
  }

  lemma InTimeIsFound(acts: seq<Action>, k: nat, p: Promise)
    requires Run(acts).Some? && DistinctIds(Run(acts).value.calls) && p in Run(acts).value.calls
    requires InTime(acts, k, Run(acts).value.calls[p], p)
    ensures EverFound(acts, p)
  {
    var first, w := acts[..k], acts[k].worker;
    Beginning(acts, k);
    RunKeepsInv(first);
    RunKeepsShutOk(first);
    assert PlaceIsReal(Run(first).value, p);
    InTimeIsFoundHere(Run(first).value, w, p);
    HandsExactlyWhenFound(first, p);
    Beginning(acts, k + 1);
    assert acts[..k + 1][..k] == first;
    FoundStaysFound(acts, k + 1, p);
  }

  /**
   With distinct ids, a worker answers a future exactly when its promise was registered before the worker
   that had run its task looked for it.
   */
  lemma AnsweredExactlyWhenInTime(acts: seq<Action>, p: Promise)
    requires Run(acts).Some? && DistinctIds(Run(acts).value.calls) && p in Run(acts).value.calls
    ensures EverFound(acts, p) <==> exists k: nat :: InTime(acts, k, Run(acts).value.calls[p], p)
  {
    if EverFound(acts, p) {
      var k := FoundIsInTime(acts, p);
    }
    if k: nat :| InTime(acts, k, Run(acts).value.calls[p], p) {
      InTimeIsFound(acts, k, p);
    }
  }

  /**
   So with distinct ids this is what a future reports when `stop` returns, for a promise registered before the
   sweep: the outcome of its own task, for a choice that a worker ran it with, if the promise was registered in
   time, and otherwise a cancellation.
   */
  lemma WhatTheFutureReports(acts: seq<Action>, p: Promise)
    requires Run(acts).Some? && StopDone(Run(acts).value) && DistinctIds(Run(acts).value.calls)
    requires p in Run(acts).value.stopper.registered && p in Run(acts).value.calls
    ensures var s := Run(acts).value;
            exists x :: x in s.sh.settled && x.promise == p &&
              if exists k: nat :: InTime(acts, k, s.calls[p], p)
              then exists k: nat, w: nat :: Ran(acts, k, w, s.calls[p], x.value)
              else ReportsStop(s.calls[p].taskId, x.value)
  {
    var s := Run(acts).value;
    StopSettlesWhatWasRegistered(acts, p);
    WhoAnswers(acts, p);
    AnsweredExactlyWhenInTime(acts, p);
    var i :| 0 <= i < |s.sh.settled| && s.sh.settled[i].promise == p;
    var x := s.sh.settled[i];
    NoPromiseSettledTwice(acts);
    if x.source.ByWorker? {
      assert SettledBy(s, p, true);
      WorkersAnswerTheirOwnPromise(acts, i);
      var k, w := WorkersReportWhatTheyRan(acts, x);
    } else {
      assert SettledBy(s, p, false);
      StopReportsCancellation(acts, x);
    }
  }

  // ---------- after `stop` ----------

  /** Nothing of the engine moves until it is started again. */
  ghost predicate Asleep(s: State) {
    && !s.sh.running && (s.stopper.Idle? || StopDone(s))
    && (forall w | w in s.workers :: s.workers[w].Exited?)
  }

  lemma StaysAsleep(s: State, a: Action)
    requires Asleep(s) && Enabled(s, a) && !a.Start?
    ensures Asleep(Apply(s, a)) && Apply(s, a).sh.settled == s.sh.settled
  {}

  /** What has no value when `stop` returns gets none unless the engine is started again. */
  lemma {:induction false} NoValueWithoutAnotherStart(acts: seq<Action>, more: seq<Action>)
    requires Run(acts).Some? && StopDone(Run(acts).value)
    requires Run(acts + more).Some? && forall a | a in more :: !a.Start?
    ensures Asleep(Run(acts + more).value) && Run(acts + more).value.sh.settled == Run(acts).value.sh.settled
    decreases |more|
  {
    if more == [] {
      RunKeepsInv(acts);
      assert acts + more == acts;
    } else {
      var some, a := more[..|more| - 1], more[|more| - 1];
      assert (acts + more)[..|acts + more| - 1] == acts + some;
      NoValueWithoutAnotherStart(acts, some);
      StaysAsleep(Run(acts + some).value, a);
    }
  }

  lemma StopsAgain(acts: seq<Action>, s: State) returns (acts': seq<Action>, s': State)
    requires Run(acts) == Some(s) && StopDone(s) && Asleep(s)
    ensures acts < acts' && Run(acts') == Some(s')
    ensures s' == s.(stopper := Joining, sh := s.sh.(queue := s.sh.queue.(shutdown := true)))
  {
    acts', s' := Step(acts, s, StopReturns);
    acts', s' := Step(acts', s', Start({}));
    assert s'.workers == s.workers;
    acts', s' := Step(acts', s', StopBegins);
    acts', s' := Step(acts', s', ShutDownQueue);
  }

  lemma SweepSettles(acts: seq<Action>, s: State, id: string) returns (acts': seq<Action>, s': State)
    requires Run(acts) == Some(s) && Enabled(s, Sweep) && id in s.sh.pending
    ensures acts < acts' && Run(acts') == Some(s') && IsSettled(s', s.sh.pending[id])
  {
    acts', s' := Step(acts, s, Sweep);
    acts', s' := Step(acts', s', Cancel(id));
    assert s'.sh.settled[|s.sh.settled|].promise == s.sh.pending[id];
  }

  /** If it is started and stopped again, the second sweep gives a late registration its value after all. */
  lemma AnotherStopSettlesLateRegistrations(acts: seq<Action>, p: Promise) returns (acts': seq<Action>, s: State)
    requires Run(acts).Some? && StopDone(Run(acts).value)
    requires p in Run(acts).value.place && Run(acts).value.place[p].InMap?
    ensures acts < acts' && Run(acts') == Some(s) && IsSettled(s, p)
  {
    RunKeepsInv(acts);
    s := Run(acts).value;
    assert PlaceIsReal(s, p);
    var id := s.calls[p].taskId;
    acts', s := StopsAgain(acts, s);
    acts', s := SweepSettles(acts', s, id);
  }

  /** The queue hands out no task any more, and no worker has one. */
  ghost predicate IsRetired(s: State) {
    s.sh.queue.shutdown && Quiet(s)
  }

  lemma StaysRetired(s: State, a: Action)
    requires IsRetired(s) && Enabled(s, a)
    ensures IsRetired(Apply(s, a))
    ensures Apply(s, a).sh.taken == s.sh.taken
    ensures Apply(s, a).sh.completed == s.sh.completed && Apply(s, a).sh.failed == s.sh.failed
    ensures s.sh.queue.Size() <= Apply(s, a).sh.queue.Size()
  {
    if a.Submit? {
      EnqueueAddsOne(s.sh.queue, a.task, a.task.priority);
    }
  }

  /** The queue is never opened again: an engine that has been stopped runs no task, however often it is started. */
  lemma {:induction false} StoppedEngineRunsNothing(acts: seq<Action>, more: seq<Action>)
    requires Run(acts).Some? && StopDone(Run(acts).value) && Run(acts + more).Some?
    ensures IsRetired(Run(acts + more).value)
    ensures var sh, sh' := Run(acts).value.sh, Run(acts + more).value.sh;
            && sh'.taken == sh.taken && sh'.completed == sh.completed && sh'.failed == sh.failed
            && sh.queue.Size() <= sh'.queue.Size()
    decreases |more|
  {
    if more == [] {
      RunKeepsShutOk(acts);
      assert acts + more == acts;
    } else {
      var some := more[..|more| - 1];
      assert (acts + more)[..|acts + more| - 1] == acts + some;
      StoppedEngineRunsNothing(acts, some);
      StaysRetired(Run(acts + some).value, more[|more| - 1]);
    }
  }

  // ---------- `stop` gets to return ----------

  /** The most steps that a worker can still take once the engine is shutting down. */
  function StepsLeft(phase: Phase): nat {
    match phase
    case AtTop => 1
    case Waiting => 1
    case Holding(_) => 5
    case Running(_) => 4
    case Resolving(_, _) => 3
    case Setting(_, _, _) => 2
    case Exited => 0
  }

  function StepsOf(ws: map<nat, Phase>): map<nat, nat> {
    map w | w in ws :: StepsLeft(ws[w])
  }

  ghost function AllStepsLeft(s: State): nat {
    Sum(StepsOf(s.workers))
  }

  predicate IsWorkerStep(a: Action) {
    a.TestRunning? || a.Dequeue? || a.CountTaken? || a.RunTask? || a.Detach? || a.SetValue?
  }

  /** The step that a worker is about to take. */
  function NextStep(w: nat, phase: Phase, c: Choice): Action
    requires !phase.Exited?
  {
    match phase
    case AtTop => TestRunning(w)
    case Waiting => Dequeue(w)
    case Holding(_) => CountTaken(w)
    case Running(_) => RunTask(w, c)
    case Resolving(_, _) => Detach(w)
    case Setting(_, _, _) => SetValue(w)
  }

  /** `stop` is joining the workers. */
  ghost predicate IsJoining(s: State) {
    s.stopper.Joining? && s.sh.queue.shutdown && !s.sh.running
  }

  /** No worker blocks: each one that has not exited can take its next step, whatever its task comes to. */
  lemma NoWorkerBlocks(s: State, w: nat, c: Choice)
    requires IsJoining(s) && w in s.workers && !s.workers[w].Exited?
    ensures Enabled(s, NextStep(w, s.workers[w], c))
  {}

  lemma WorkerStepUsesUp(s: State, a: Action)
    requires IsJoining(s) && Enabled(s, a) && IsWorkerStep(a)
    ensures AllStepsLeft(Apply(s, a)) < AllStepsLeft(s)
  {
    var s', w := Apply(s, a), a.worker;
    assert StepsOf(s'.workers) == StepsOf(s.workers)[w := StepsLeft(s'.workers[w])];
    SumPuts(StepsOf(s.workers), w, StepsLeft(s'.workers[w]));
  }

  /** Until the sweep the stop goes on joining, and only worker steps use up what is left. */
  lemma JoiningGoesOn(s: State, a: Action)
    requires IsJoining(s) && Enabled(s, a) && !a.Sweep?
    ensures IsJoining(Apply(s, a))
    ensures AllStepsLeft(Apply(s, a)) + (if IsWorkerStep(a) then 1 else 0) <= AllStepsLeft(s)
  {
    if IsWorkerStep(a) {
      WorkerStepUsesUp(s, a);
    }
  }

  function WorkerSteps(acts: seq<Action>): nat {
    if acts == [] then 0
    else WorkerSteps(acts[..|acts| - 1]) + (if IsWorkerStep(acts[|acts| - 1]) then 1 else 0)
  }

  /** However submissions and workers interleave, the workers take no more than the steps that were left. */
  lemma {:induction false} JoinIsBounded(acts: seq<Action>, more: seq<Action>)
    requires Run(acts).Some? && Run(acts).value.stopper.Joining?
    requires Run(acts + more).Some? && forall a | a in more :: !a.Sweep?
    ensures IsJoining(Run(acts + more).value)
    ensures AllStepsLeft(Run(acts + more).value) + WorkerSteps(more) <= AllStepsLeft(Run(acts).value)
    decreases |more|
  {
    if more == [] {
      RunKeepsInv(acts);
      RunKeepsShutOk(acts);
      assert acts + more == acts;
    } else {
      var some, a := more[..|more| - 1], more[|more| - 1];
      assert (acts + more)[..|acts + more| - 1] == acts + some;
      JoinIsBounded(acts, some);
      JoiningGoesOn(Run(acts + some).value, a);
    }
  }

  /** And the join returns exactly when no steps are left. */
  lemma SweepWhenNoStepsAreLeft(s: State)
    requires IsJoining(s)
    ensures Enabled(s, Sweep) <==> AllStepsLeft(s) == 0
  {
    if AllStepsLeft(s) == 0 {
      forall w | w in s.workers
        ensures s.workers[w].Exited?
      {
        SumTakesOut(StepsOf(s.workers), w);
      }
    } else {
      SumOfZeros(StepsOf(s.workers));
    }
  }

  lemma {:induction false} SumOfZeros(m: map<nat, nat>)
    ensures (forall k | k in m :: m[k] == 0) ==> Sum(m) == 0
    decreases |m|
  {
    if m != map[] {
      var k :| k in m;
      SumTakesOut(m, k);
      SumOfZeros(m - {k});
    }
  }
}
