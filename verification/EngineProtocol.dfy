/**
 The engine under concurrency: submitters, any number of workers and `stop`, interleaved at
 the granularity of one locked section or one atomic access a step.

 `submitTask` takes two steps, first the queue's lock and then the promise map's, so a worker
 may finish a task before the promise for it is registered.
 */
module EngineProtocol {
  import opened Options
  import opened TaskQueues
  import opened Engines

  /** Where a worker thread is. */
  datatype Phase =
    | AtTop                                                         // about to test `running_`
    | Waiting                                                       // inside `dequeue`
    | Holding(task: Task)                                           // dequeued, not yet counted as taken
    | Running(task: Task)                                           // counted as taken, outcome not yet counted
    | Resolving(task: Task, value: Assignment)                      // before the lock of `resolvePromise`
    | Setting(task: Task, value: Assignment, promise: Promise)      // promise in hand, before `set_value`
    | Exited

  /** Where `stop` is; `registered` are the promises that were registered when the map was swapped out. */
  datatype Stopper =
    | Idle
    | Closing                                                       // `running_` cleared
    | Joining                                                       // queue shut down
    | Sweeping(todo: map<string, Promise>, registered: set<Promise>)

  /** Where a registered promise is: bookkeeping that no step tests. */
  datatype Place = InMap | Overwritten | HeldBy(worker: nat) | InSweep | SettledAt(index: nat)

  datatype State = State(
    sh: Shared,
    workers: map<nat, Phase>,
    stopper: Stopper,
    calls: map<Promise, Task>,      // every `submitTask` that has taken its first step
    place: map<Promise, Place>)     // every one that has taken its second

  const INITIAL := State(FRESH, map[], Idle, map[], map[])

  datatype Action =
    | Start(threads: set<nat>)
    | Submit(promise: Promise, task: Task)
    | Register(promise: Promise)
    | TestRunning(worker: nat)
    | Dequeue(worker: nat)
    | CountTaken(worker: nat)
    | RunTask(worker: nat, choice: Choice)
    | Detach(worker: nat)
    | SetValue(worker: nat)
    | StopBegins
    | ShutDownQueue
    | Sweep
    | Cancel(taskId: string)
    | StopReturns

  predicate Enabled(s: State, a: Action) {
    match a
    case Start(ws) => !s.sh.running && s.stopper.Idle? && ws !! s.workers.Keys
    case Submit(p, _) => p !in s.calls
    case Register(p) => p in s.calls && p !in s.place
    case TestRunning(w) => w in s.workers && s.workers[w].AtTop?
    case Dequeue(w) => w in s.workers && s.workers[w].Waiting? && s.sh.queue.Ready()
    case CountTaken(w) => w in s.workers && s.workers[w].Holding?
    case RunTask(w, _) => w in s.workers && s.workers[w].Running?
    case Detach(w) => w in s.workers && s.workers[w].Resolving?
    case SetValue(w) => w in s.workers && s.workers[w].Setting?
    case StopBegins => s.sh.running && s.stopper.Idle?
    case ShutDownQueue => s.stopper.Closing?
    case Sweep => s.stopper.Joining? && forall w | w in s.workers :: s.workers[w].Exited?
    case Cancel(id) => s.stopper.Sweeping? && id in s.stopper.todo
    case StopReturns => s.stopper.Sweeping? && s.stopper.todo == map[]
  }

  const STOPPED := "Engine stopped before assignment"

  function Apply(s: State, a: Action): State
    requires Enabled(s, a)
  {
    match a
    case Start(ws) =>
      s.(sh := s.sh.(running := true), workers := s.workers + map w | w in ws :: AtTop)
    case Submit(p, t) =>
      s.(sh := s.sh.(queue := Enqueued(s.sh.queue, t, t.priority)), calls := s.calls[p := t])
    case Register(p) =>
      var id := s.calls[p].taskId;
      var displaced := if id in s.sh.pending then s.place[s.sh.pending[id] := Overwritten] else s.place;
      s.(sh := s.sh.(pending := s.sh.pending[id := p]), place := displaced[p := InMap])
    case TestRunning(w) =>
      s.(workers := s.workers[w := if s.sh.running then Waiting else Exited])
    case Dequeue(w) =>
      var (t, q) := Dequeued(s.sh.queue);
      s.(sh := s.sh.(queue := q), workers := s.workers[w := if t.None? then Exited else Holding(t.value)])
    case CountTaken(w) =>
      s.(sh := s.sh.(taken := s.sh.taken + 1), workers := s.workers[w := Running(s.workers[w].task)])
    case RunTask(w, c) =>
      var t := s.workers[w].task;
      s.(sh := Counted(s.sh, c), workers := s.workers[w := Resolving(t, Outcome(t, c))])
    case Detach(w) =>
      var Resolving(t, v) := s.workers[w];
      if t.taskId !in s.sh.pending then s.(workers := s.workers[w := AtTop])
      else
        var p := s.sh.pending[t.taskId];
        s.(sh := Detached(s.sh, t.taskId),
           workers := s.workers[w := Setting(t, v, p)],
           place := s.place[p := HeldBy(w)])
    case SetValue(w) =>
      var Setting(t, v, p) := s.workers[w];
      s.(sh := Engines.Settled(s.sh, Settlement(p, v, ByWorker(t))),
         workers := s.workers[w := AtTop],
         place := s.place[p := SettledAt(|s.sh.settled|)])
    case StopBegins =>
      s.(sh := s.sh.(running := false), stopper := Closing)
    case ShutDownQueue =>
      s.(sh := s.sh.(queue := s.sh.queue.(shutdown := true)), stopper := Joining)
    case Sweep =>
      s.(sh := s.sh.(pending := map[]),
         stopper := Sweeping(s.sh.pending, s.place.Keys),
         place := map p | p in s.place :: if s.place[p].InMap? then InSweep else s.place[p])
    case Cancel(id) =>
      var p := s.stopper.todo[id];
      s.(sh := Engines.Settled(s.sh, Settlement(p, Cancelled(id, STOPPED), BySweep)),
         stopper := s.stopper.(todo := s.stopper.todo - {id}),
         place := s.place[p := SettledAt(|s.sh.settled|)])
    case StopReturns =>
      s.(stopper := Idle)
  }

  /** The state after a run from the start, or none if some step of it was not enabled. */
  function Run(acts: seq<Action>): Option<State>
    decreases |acts|
  {
    if acts == [] then Some(INITIAL)
    else
      var before := Run(acts[..|acts| - 1]);
      var a := acts[|acts| - 1];
      if before.None? || !Enabled(before.value, a) then None else Some(Apply(before.value, a))
  }

  // ---------- where the promises are ----------

  ghost predicate PlaceIsReal(s: State, p: Promise)
    requires p in s.place && p in s.calls
  {
    var id := s.calls[p].taskId;
    match s.place[p]
    case InMap => id in s.sh.pending && s.sh.pending[id] == p
    case Overwritten => exists q :: q in s.place && q in s.calls && q != p && s.calls[q].taskId == id
    case HeldBy(w) => w in s.workers && s.workers[w].Setting? && s.workers[w].promise == p
    case InSweep => s.stopper.Sweeping? && id in s.stopper.todo && s.stopper.todo[id] == p
    case SettledAt(i) => i < |s.sh.settled| && s.sh.settled[i].promise == p
  }

  /** A promise is in one place at a time, and every place holds only promises of its own. */
  ghost predicate PromisesOk(s: State) {
    && s.place.Keys <= s.calls.Keys
    && (forall p | p in s.place :: PlaceIsReal(s, p))
    && (forall id | id in s.sh.pending ::
          var p := s.sh.pending[id]; p in s.place && s.place[p] == InMap && s.calls[p].taskId == id)
    && (forall w | w in s.workers && s.workers[w].Setting? ::
          var p := s.workers[w].promise;
          p in s.place && s.place[p] == HeldBy(w) && s.calls[p].taskId == s.workers[w].task.taskId)
    && (s.stopper.Sweeping? ==> forall id | id in s.stopper.todo ::
          var p := s.stopper.todo[id]; p in s.place && s.place[p] == InSweep && s.calls[p].taskId == id)
    && (forall i | 0 <= i < |s.sh.settled| ::
          var p := s.sh.settled[i].promise;
          && p in s.place && s.place[p] == SettledAt(i)
          && (s.sh.settled[i].source.ByWorker? ==> s.sh.settled[i].source.task.taskId == s.calls[p].taskId))
  }

  /** `resolvePromise` returns early: no promise is registered under the task's id. */
  predicate FindsNothing(s: State, a: Action)
    requires Enabled(s, a)
  {
    a.Detach? && s.workers[a.worker].task.taskId !in s.sh.pending
  }

  lemma PromisesOkAfterSubmit(s: State, a: Action)
    requires PromisesOk(s) && Enabled(s, a)
    requires a.Submit?
    ensures PromisesOk(Apply(s, a))
  {
    var s' := Apply(s, a);
    forall p | p in s'.place
      ensures PlaceIsReal(s', p)
    {
      assert p in s.place ==> PlaceIsReal(s, p);
    }
  }

  lemma PromisesOkAfterRegister(s: State, a: Action)
    requires PromisesOk(s) && Enabled(s, a)
    requires a.Register?
    ensures PromisesOk(Apply(s, a))
  {
    var s' := Apply(s, a);
    forall p | p in s'.place
      ensures PlaceIsReal(s', p)
    {
      assert p in s.place ==> PlaceIsReal(s, p);
    }
  }

  lemma PromisesOkAfterWorker(s: State, a: Action)
    requires PromisesOk(s) && Enabled(s, a)
    requires a.TestRunning? || a.Dequeue? || a.CountTaken? || a.RunTask? || FindsNothing(s, a)
    ensures PromisesOk(Apply(s, a))
  {
    var s' := Apply(s, a);
    forall p | p in s'.place
      ensures PlaceIsReal(s', p)
    {
      assert p in s.place ==> PlaceIsReal(s, p);
    }
  }

  lemma PromisesOkAfterDetach(s: State, a: Action)
    requires PromisesOk(s) && Enabled(s, a)
    requires a.Detach? && !FindsNothing(s, a)
    ensures PromisesOk(Apply(s, a))
  {
    var s' := Apply(s, a);
    forall p | p in s'.place
      ensures PlaceIsReal(s', p)
    {
      assert p in s.place ==> PlaceIsReal(s, p);
    }
  }

  lemma PromisesOkAfterSetValue(s: State, a: Action)
    requires PromisesOk(s) && Enabled(s, a)
    requires a.SetValue?
    ensures PromisesOk(Apply(s, a))
  {
    var s' := Apply(s, a);
    forall p | p in s'.place
      ensures PlaceIsReal(s', p)
    {
      assert p in s.place ==> PlaceIsReal(s, p);
    }
  }

  lemma PromisesOkAfterSweep(s: State, a: Action)
    requires PromisesOk(s) && Enabled(s, a)
    requires a.Sweep?
    ensures PromisesOk(Apply(s, a))
  {
    var s' := Apply(s, a);
    forall p | p in s'.place
      ensures PlaceIsReal(s', p)
    {
      assert p in s.place ==> PlaceIsReal(s, p);
    }
  }

  lemma PromisesOkAfterCancel(s: State, a: Action)
    requires PromisesOk(s) && Enabled(s, a)
    requires a.Cancel?
    ensures PromisesOk(Apply(s, a))
  {
    var s' := Apply(s, a);
    forall p | p in s'.place
      ensures PlaceIsReal(s', p)
    {
      assert p in s.place ==> PlaceIsReal(s, p);
    }
  }

  lemma PromisesOkAfterFlags(s: State, a: Action)
    requires PromisesOk(s) && Enabled(s, a)
    requires a.Start? || a.StopBegins? || a.ShutDownQueue? || a.StopReturns?
    ensures PromisesOk(Apply(s, a))
  {
    var s' := Apply(s, a);
    forall p | p in s'.place
      ensures PlaceIsReal(s', p)
    {
      assert p in s.place ==> PlaceIsReal(s, p);
    }
  }

  lemma PromisesOkKept(s: State, a: Action)
    requires PromisesOk(s) && Enabled(s, a)
    ensures PromisesOk(Apply(s, a))
  {
    match a
    case Submit(_, _) => PromisesOkAfterSubmit(s, a);
    case Register(_) => PromisesOkAfterRegister(s, a);
    case Detach(_) =>
      if FindsNothing(s, a) {
        PromisesOkAfterWorker(s, a);
      } else {
        PromisesOkAfterDetach(s, a);
      }
    case SetValue(_) => PromisesOkAfterSetValue(s, a);
    case Sweep => PromisesOkAfterSweep(s, a);
    case Cancel(_) => PromisesOkAfterCancel(s, a);
    case TestRunning(_) => PromisesOkAfterWorker(s, a);
    case Dequeue(_) => PromisesOkAfterWorker(s, a);
    case CountTaken(_) => PromisesOkAfterWorker(s, a);
    case RunTask(_, _) => PromisesOkAfterWorker(s, a);
    case Start(_) => PromisesOkAfterFlags(s, a);
    case StopBegins => PromisesOkAfterFlags(s, a);
    case ShutDownQueue => PromisesOkAfterFlags(s, a);
    case StopReturns => PromisesOkAfterFlags(s, a);
  }

  // ---------- shutting down ----------

  /**
   While `stop` runs the flags are as it left them, no worker runs once the map has been
   swapped out, and what was registered by then is no longer in the map, while what is
   registered later is nowhere else.
   */
  ghost predicate StopOk(s: State) {
    && (!s.stopper.Idle? ==> !s.sh.running)
    && (s.stopper.Sweeping? ==>
          && (forall w | w in s.workers :: s.workers[w].Exited?)
          && s.stopper.registered <= s.place.Keys
          && (forall p | p in s.stopper.registered ::
                s.place[p].Overwritten? || s.place[p].InSweep? || s.place[p].SettledAt?)
          && (forall p | p in s.place && p !in s.stopper.registered :: s.place[p].InMap? || s.place[p].Overwritten?))
  }

  lemma StopOkKept(s: State, a: Action)
    requires PromisesOk(s) && StopOk(s) && Enabled(s, a)
    ensures StopOk(Apply(s, a))
  {
    if a.Sweep? {
      forall p | p in s.place
        ensures !s.place[p].HeldBy?
      {
        assert PlaceIsReal(s, p);
      }
    }
    if a.Cancel? {
      assert PlaceIsReal(s, s.stopper.todo[a.taskId]);
    }
  }

  // ---------- counting ----------

  function Busy(ws: map<nat, Phase>): set<nat> {
    set w | w in ws && ws[w].Running?
  }

  function Carrying(ws: map<nat, Phase>): set<nat> {
    set w | w in ws && ws[w].Holding?
  }

  /** Tasks taken are completed, failed or in a worker's hands; tasks submitted are queued, just dequeued or taken. */
  ghost predicate CountsOk(s: State) {
    && s.sh.taken == s.sh.completed + s.sh.failed + |Busy(s.workers)|
    && |s.calls| == s.sh.queue.Size() + |Carrying(s.workers)| + s.sh.taken
  }

  lemma BusyAfterMove(ws: map<nat, Phase>, w: nat, phase: Phase)
    requires w in ws
    ensures |Busy(ws[w := phase])| == |Busy(ws)| - (if ws[w].Running? then 1 else 0) + (if phase.Running? then 1 else 0)
  {
    var others := Busy(ws) - {w};
    assert Busy(ws) == if ws[w].Running? then others + {w} else others;
    assert Busy(ws[w := phase]) == if phase.Running? then others + {w} else others;
  }

  lemma CarryingAfterMove(ws: map<nat, Phase>, w: nat, phase: Phase)
    requires w in ws
    ensures |Carrying(ws[w := phase])| ==
            |Carrying(ws)| - (if ws[w].Holding? then 1 else 0) + (if phase.Holding? then 1 else 0)
  {
    var others := Carrying(ws) - {w};
    assert Carrying(ws) == if ws[w].Holding? then others + {w} else others;
    assert Carrying(ws[w := phase]) == if phase.Holding? then others + {w} else others;
  }

  lemma CountsOkAfterWorker(s: State, a: Action)
    requires CountsOk(s) && Enabled(s, a)
    requires a.TestRunning? || a.Dequeue? || a.CountTaken? || a.RunTask? || a.Detach? || a.SetValue?
    ensures CountsOk(Apply(s, a))
  {
    var s' := Apply(s, a);
    assert s'.workers == s.workers[a.worker := s'.workers[a.worker]];
    BusyAfterMove(s.workers, a.worker, s'.workers[a.worker]);
    CarryingAfterMove(s.workers, a.worker, s'.workers[a.worker]);
  }

  lemma CountsOkAfterStart(s: State, a: Action)
    requires CountsOk(s) && Enabled(s, a) && a.Start?
    ensures CountsOk(Apply(s, a))
  {
    var ws' := Apply(s, a).workers;
    assert Busy(ws') == Busy(s.workers) && Carrying(ws') == Carrying(s.workers);
  }

  lemma OneMoreCall(calls: map<Promise, Task>, p: Promise, t: Task)
    requires p !in calls
    ensures |calls[p := t]| == |calls| + 1
  {
    assert calls[p := t].Keys == calls.Keys + {p};
  }

  lemma CountsOkAfterSubmit(s: State, a: Action)
    requires CountsOk(s) && Enabled(s, a) && a.Submit?
    ensures CountsOk(Apply(s, a))
  {
    EnqueueAddsOne(s.sh.queue, a.task, a.task.priority);
    OneMoreCall(s.calls, a.promise, a.task);
  }

  lemma CountsOkKept(s: State, a: Action)
    requires CountsOk(s) && Enabled(s, a)
    ensures CountsOk(Apply(s, a))
  {
    if a.TestRunning? || a.Dequeue? || a.CountTaken? || a.RunTask? || a.Detach? || a.SetValue? {
      CountsOkAfterWorker(s, a);
    } else if a.Start? {
      CountsOkAfterStart(s, a);
    } else if a.Submit? {
      CountsOkAfterSubmit(s, a);
    }
  }

  // ---------- whose task a worker holds ----------

  ghost predicate Submitted(s: State, t: Task) {
    exists p :: p in s.calls && s.calls[p] == t
  }

  /** Every task in the queue, in a worker's hands or in the record of settlements was submitted. */
  ghost predicate TasksOk(s: State) {
    && (forall t | t in s.sh.queue.Snapshot() :: Submitted(s, t))
    && (forall w | w in s.workers && !s.workers[w].AtTop? && !s.workers[w].Waiting? && !s.workers[w].Exited? ::
          Submitted(s, s.workers[w].task))
    && (forall x | x in s.sh.settled && x.source.ByWorker? :: Submitted(s, x.source.task))
  }

  lemma StaysSubmitted(s: State, a: Action, t: Task)
    requires Enabled(s, a) && Submitted(s, t)
    ensures Submitted(Apply(s, a), t)
  {
    var p :| p in s.calls && s.calls[p] == t;
    var s' := Apply(s, a);
    assert p in s'.calls && s'.calls[p] == t;
  }

  lemma QueuedTasksKept(s: State, a: Action)
    requires TasksOk(s) && Enabled(s, a)
    ensures forall t | t in Apply(s, a).sh.queue.Snapshot() :: Submitted(Apply(s, a), t)
    ensures a.Dequeue? && Dequeued(s.sh.queue).0.Some? ==> Submitted(Apply(s, a), Dequeued(s.sh.queue).0.value)
  {
    var s' := Apply(s, a);
    if a.Submit? {
      assert s'.calls[a.promise] == a.task;
      forall t | t in s'.sh.queue.Snapshot()
        ensures Submitted(s', t)
      {
        if t != a.task {
          assert t in s.sh.queue.Snapshot();
          StaysSubmitted(s, a, t);
        }
      }
    } else {
      forall t | t in s'.sh.queue.Snapshot() || (a.Dequeue? && Dequeued(s.sh.queue).0 == Some(t))
        ensures Submitted(s', t)
      {
        assert t in s.sh.queue.Snapshot();
        StaysSubmitted(s, a, t);
      }
    }
  }

  lemma TasksOkKept(s: State, a: Action)
    requires TasksOk(s) && Enabled(s, a)
    ensures TasksOk(Apply(s, a))
  {
    var s' := Apply(s, a);
    QueuedTasksKept(s, a);
    forall t | Submitted(s, t)
      ensures Submitted(s', t)
    {
      StaysSubmitted(s, a, t);
    }
  }

  // ---------- every run ----------

  ghost predicate Inv(s: State) {
    PromisesOk(s) && StopOk(s) && CountsOk(s) && TasksOk(s)
  }

  lemma {:induction false} RunKeepsInv(acts: seq<Action>)
    requires Run(acts).Some?
    ensures Inv(Run(acts).value)
    decreases |acts|
  {
    if acts != [] {
      var before := acts[..|acts| - 1];
      RunKeepsInv(before);
      var s, a := Run(before).value, acts[|acts| - 1];
      PromisesOkKept(s, a);
      StopOkKept(s, a);
      CountsOkKept(s, a);
      TasksOkKept(s, a);
    }
  }

  /** No promise is ever given a value twice, even when task ids repeat. */
  lemma NoPromiseSettledTwice(acts: seq<Action>)
    requires Run(acts).Some?
    ensures var log := Run(acts).value.sh.settled;
            forall i, j | 0 <= i < j < |log| :: log[i].promise != log[j].promise
  {
    RunKeepsInv(acts);
  }

  /** Taken tasks are completed, failed or in hand at every moment, and no submitted task is lost or duplicated. */
  lemma TasksAreAccountedFor(acts: seq<Action>)
    requires Run(acts).Some?
    ensures var s := Run(acts).value;
            && s.sh.taken == s.sh.completed + s.sh.failed + |Busy(s.workers)|
            && |s.calls| == s.sh.queue.Size() + |Carrying(s.workers)| + s.sh.taken
  {
    RunKeepsInv(acts);
  }

  ghost predicate DistinctIds(calls: map<Promise, Task>) {
    forall p, q | p in calls && q in calls && p != q :: calls[p].taskId != calls[q].taskId
  }

  ghost predicate IsSettled(s: State, p: Promise) {
    exists i :: 0 <= i < |s.sh.settled| && s.sh.settled[i].promise == p
  }

  /** `stop` has swept the map and is about to return. */
  predicate StopDone(s: State) {
    s.stopper.Sweeping? && s.stopper.todo == map[]
  }

  /**
   When `stop` returns, with distinct task ids, the promises that have a value are exactly
   those registered before the map was swapped out, whether or not a worker had finished
   the task by the time its promise was registered.
   */
  lemma StopSettlesWhatWasRegistered(acts: seq<Action>, p: Promise)
    requires Run(acts).Some? && StopDone(Run(acts).value) && DistinctIds(Run(acts).value.calls)
    requires p in Run(acts).value.calls
    ensures var s := Run(acts).value; IsSettled(s, p) <==> p in s.stopper.registered
  {
    RunKeepsInv(acts);
    var s := Run(acts).value;
    if p in s.place {
      assert PlaceIsReal(s, p);
    }
  }

  /** So if every submission has finished by then, every future handed out has its value. */
  lemma StopSettlesEverything(acts: seq<Action>)
    requires Run(acts).Some? && StopDone(Run(acts).value) && DistinctIds(Run(acts).value.calls)
    requires Run(acts).value.stopper.registered == Run(acts).value.calls.Keys
    ensures var s := Run(acts).value; forall p | p in s.calls :: IsSettled(s, p)
  {
    forall p | p in Run(acts).value.calls
      ensures IsSettled(Run(acts).value, p)
    {
      StopSettlesWhatWasRegistered(acts, p);
    }
  }

  /** Without distinct ids, a promise registered in time can only miss its value to another one with its task id. */
  lemma OnlyARepeatedIdLosesAPromise(acts: seq<Action>, p: Promise)
    requires Run(acts).Some? && StopDone(Run(acts).value)
    requires p in Run(acts).value.stopper.registered
    ensures var s := Run(acts).value;
            || IsSettled(s, p)
            || exists q :: q in s.calls && q != p && p in s.calls && s.calls[q].taskId == s.calls[p].taskId
  {
    RunKeepsInv(acts);
    assert PlaceIsReal(Run(acts).value, p);
  }

  /** With distinct ids a value set by a worker is for the very task the promise was handed out for. */
  lemma WorkersAnswerTheirOwnPromise(acts: seq<Action>, i: nat)
    requires Run(acts).Some? && DistinctIds(Run(acts).value.calls)
    requires i < |Run(acts).value.sh.settled| && Run(acts).value.sh.settled[i].source.ByWorker?
    ensures var s := Run(acts).value;
            var x := s.sh.settled[i];
            x.promise in s.calls && s.calls[x.promise] == x.source.task
  {
    RunKeepsInv(acts);
    var s := Run(acts).value;
    var x := s.sh.settled[i];
    assert x in s.sh.settled;
    var q :| q in s.calls && s.calls[q] == x.source.task;
  }

  // ---------- one thread at a time ----------

  /** Undisturbed, the two steps of a submission are the method. */
  lemma SubmissionIsSubmitTask(s: State, p: Promise, t: Task)
    requires p !in s.calls && s.place.Keys <= s.calls.Keys
    ensures var s1 := Apply(s, Submit(p, t));
            && Enabled(s1, Register(p))
            && Apply(s1, Register(p)).sh == s.sh.(queue := Enqueued(s.sh.queue, t, t.priority),
                                                  pending := s.sh.pending[t.taskId := p])
  {}

  /** A worker's steps from the top of its loop until it has counted the task as taken. */
  function TakeSteps(s: State, w: nat): State
    requires w in s.workers && s.workers[w].AtTop? && s.sh.running
    requires !s.sh.queue.shutdown && s.sh.queue.Size() > 0
  {
    Apply(Apply(Apply(s, TestRunning(w)), Dequeue(w)), CountTaken(w))
  }

  /** Its steps from there back to the top, given what the task comes to. */
  function FinishSteps(s: State, w: nat, c: Choice): State
    requires w in s.workers && s.workers[w].Running?
  {
    var s' := Apply(Apply(s, RunTask(w, c)), Detach(w));
    if s'.workers[w].Setting? then Apply(s', SetValue(w)) else s'
  }

  lemma TakeStepsTake(s: State, w: nat)
    requires w in s.workers && s.workers[w].AtTop? && s.sh.running
    requires !s.sh.queue.shutdown && s.sh.queue.Size() > 0
    ensures var (t, q) := Dequeued(s.sh.queue);
            && TakeSteps(s, w).sh == s.sh.(queue := q, taken := s.sh.taken + 1)
            && TakeSteps(s, w).workers == s.workers[w := Running(t.value)]
  {}

  lemma FinishStepsHandle(s: State, w: nat, c: Choice)
    requires w in s.workers && s.workers[w].Running?
    ensures FinishSteps(s, w, c).sh == Handled(s.sh, s.workers[w].task, c)
    ensures FinishSteps(s, w, c).workers == s.workers[w := AtTop]
  {}

  /** Undisturbed, a worker's steps are one turn of its loop. */
  lemma TurnIsWorkerTurn(s: State, w: nat, c: Choice)
    requires w in s.workers && s.workers[w].AtTop? && s.sh.running
    requires !s.sh.queue.shutdown && s.sh.queue.Size() > 0
    ensures var (t, q) := Dequeued(s.sh.queue);
            var taken := TakeSteps(s, w);
            && taken.workers[w] == Running(t.value)
            && FinishSteps(taken, w, c).sh == Handled(s.sh.(queue := q, taken := s.sh.taken + 1), t.value, c)
            && FinishSteps(taken, w, c).workers == s.workers
  {
    TakeStepsTake(s, w);
    FinishStepsHandle(TakeSteps(s, w), w, c);
  }

  // ---------- three runs that show where the guarantee ends ----------

  lemma Step(acts: seq<Action>, s: State, a: Action) returns (acts': seq<Action>, s': State)
    requires Run(acts) == Some(s) && Enabled(s, a)
    ensures Run(acts') == Some(s') && s' == Apply(s, a) && acts < acts'
  {
    acts', s' := acts + [a], Apply(s, a);
    assert acts'[..|acts|] == acts;
  }

  const JOB := Task("j", NORMAL, 0)
  const DONE := Chosen(Assignment(true, "", "a", "peer"))

  /** One worker takes and completes the only task before its promise is registered. */
  lemma FinishedBeforeRegistration() returns (acts: seq<Action>, s: State)
    ensures Run(acts) == Some(s)
    ensures s == State(Shared(true, EMPTY, map[], 1, 1, 0, []), map[0 := AtTop], Idle, map[0 := JOB], map[])
  {
    acts, s := Step([], INITIAL, Start({0}));
    assert s.workers == map[0 := AtTop];
    acts, s := Step(acts, s, Submit(0, JOB));
    acts, s := Step(acts, s, TestRunning(0));
    acts, s := Step(acts, s, Dequeue(0));
    assert s.workers[0] == Holding(JOB);
    acts, s := Step(acts, s, CountTaken(0));
    acts, s := Step(acts, s, RunTask(0, DONE));
    acts, s := Step(acts, s, Detach(0));
    assert s.workers == map[0 := AtTop];
  }

  /** The promise is registered after that and before the sweep: a completed task reports that it was cancelled. */
  lemma CompletedTaskCanReportCancelled() returns (acts: seq<Action>, s: State)
    ensures Run(acts) == Some(s) && StopDone(s) && s.sh.completed == 1
    ensures s.sh.settled == [Settlement(0, Cancelled("j", STOPPED), BySweep)]
  {
    acts, s := FinishedBeforeRegistration();
    acts, s := Step(acts, s, Register(0));
    acts, s := Step(acts, s, StopBegins);
    acts, s := Step(acts, s, ShutDownQueue);
    acts, s := Step(acts, s, TestRunning(0));
    acts, s := Step(acts, s, Sweep);
    assert s.stopper.todo == map["j" := 0];
    acts, s := Step(acts, s, Cancel("j"));
  }

  /** The promise is registered after the sweep: `stop` returns and its future has no value. */
  lemma LateRegistrationIsLeftUnset() returns (acts: seq<Action>, s: State)
    ensures Run(acts) == Some(s) && StopDone(s) && DistinctIds(s.calls)
    ensures 0 in s.place && !IsSettled(s, 0)
  {
    acts, s := FinishedBeforeRegistration();
    acts, s := Step(acts, s, StopBegins);
    acts, s := Step(acts, s, ShutDownQueue);
    acts, s := Step(acts, s, TestRunning(0));
    acts, s := Step(acts, s, Sweep);
    acts, s := Step(acts, s, Register(0));
  }

  lemma OneSubmission() returns (acts: seq<Action>, s: State)
    ensures Run(acts) == Some(s)
    ensures s == State(FRESH.(running := true, queue := EMPTY.(normal := [JOB]), pending := map["j" := 0]),
                       map[], Idle, map[0 := JOB], map[0 := InMap])
  {
    acts, s := Step([], INITIAL, Start({}));
    assert s.workers == map[];
    acts, s := Step(acts, s, Submit(0, JOB));
    acts, s := Step(acts, s, Register(0));
  }

  lemma TwoSubmissionsUnderOneId() returns (acts: seq<Action>, s: State)
    ensures Run(acts) == Some(s)
    ensures s.sh == FRESH.(running := true, queue := EMPTY.(normal := [JOB, JOB]), pending := map["j" := 1])
    ensures s.workers == map[] && s.stopper == Idle
    ensures s.calls == map[0 := JOB, 1 := JOB] && s.place == map[0 := Overwritten, 1 := InMap]
  {
    acts, s := OneSubmission();
    acts, s := Step(acts, s, Submit(1, JOB));
    acts, s := Step(acts, s, Register(1));
  }

  /**
   Two submissions under one task id, the second before the first is answered: the first promise has no value when
   `stop` returns.
   */
  lemma RepeatedIdIsLeftUnset() returns (acts: seq<Action>, s: State)
    ensures Run(acts) == Some(s) && StopDone(s) && s.stopper.registered == s.calls.Keys == {0, 1}
    ensures !IsSettled(s, 0) && IsSettled(s, 1)
  {
    acts, s := TwoSubmissionsUnderOneId();
    acts, s := Step(acts, s, StopBegins);
    acts, s := Step(acts, s, ShutDownQueue);
    acts, s := Step(acts, s, Sweep);
    acts, s := Step(acts, s, Cancel("j"));
    assert s.sh.settled[0].promise == 1;
  }
}
