/**
 The task engine, as one thread sees it.

 `Shared` is what the engine's locks and atomics protect; each function on it is one locked
 section or one atomic update. Class `Engine` runs the source's methods on it one after the
 other. What happens when threads interleave is the subject of `EngineProtocol`.
 */
module Engines {
  import opened Options
  import opened TaskQueues

  /** `placed` is the field `assigned` of the source, a reserved word here. */
  datatype Assignment = Assignment(placed: bool, reason: string, assignmentId: string, workerPeerId: string)

  /** A promise is known by a number, given out in the order of the submissions. */
  type Promise = nat

  /** Who called `set_value`: a worker, for the task it had dequeued, or `failAllPending`. */
  datatype Source = ByWorker(task: Task) | BySweep

  /** One call of `set_value`. */
  datatype Settlement = Settlement(promise: Promise, value: Assignment, source: Source)

  datatype Shared = Shared(
    running: bool,
    queue: Queues,
    pending: map<string, Promise>,
    taken: nat,
    completed: nat,
    failed: nat,
    settled: seq<Settlement>)

  const FRESH := Shared(false, EMPTY, map[], 0, 0, 0, [])

  /** What node discovery and `assignBestWorker` come up with: no node, an assignment, or an exception. */
  datatype Choice = NoNodes | Chosen(assignment: Assignment) | Threw(what: string)

  function FailureAssignment(t: Task, reason: string): Assignment {
    Assignment(false, reason, t.taskId + "-failed", "")
  }

  function Cancelled(taskId: string, reason: string): Assignment {
    Assignment(false, reason, taskId + "-cancelled", "")
  }

  function Outcome(t: Task, c: Choice): Assignment {
    match c
    case NoNodes => FailureAssignment(t, "No available nodes for task")
    case Chosen(a) => a
    case Threw(what) => FailureAssignment(t, "Task processing error: " + what)
  }

  /**
   What a future may report of a task that was run with choice `c`: the assignment itself, or a failure that names the
   task and the reason.
   */
  predicate Reports(t: Task, c: Choice, v: Assignment) {
    match c
    case Chosen(a) => v == a
    case NoNodes => IsFailure(t, v) && v.reason == "No available nodes for task"
    case Threw(what) => IsFailure(t, v) && v.reason == "Task processing error: " + what
  }

  predicate IsFailure(t: Task, v: Assignment) {
    !v.placed && v.assignmentId == t.taskId + "-failed" && v.workerPeerId == ""
  }

  /** The counter update that goes with an outcome. */
  function Counted(sh: Shared, c: Choice): Shared {
    if c.Chosen? && c.assignment.placed then sh.(completed := sh.completed + 1)
    else sh.(failed := sh.failed + 1)
  }

  /** The locked half of `resolvePromise`: the promise leaves the map. */
  function Detached(sh: Shared, taskId: string): Shared {
    sh.(pending := sh.pending - {taskId})
  }

  function Settled(sh: Shared, s: Settlement): Shared {
    sh.(settled := sh.settled + [s])
  }

  /** `resolvePromise` as a whole. */
  function Resolved(sh: Shared, taskId: string, a: Assignment, source: Source): Shared {
    if taskId in sh.pending then Settled(Detached(sh, taskId), Settlement(sh.pending[taskId], a, source)) else sh
  }

  /** `runTask` with the handler around it. */
  function Handled(sh: Shared, t: Task, c: Choice): Shared {
    Resolved(Counted(sh, c), t.taskId, Outcome(t, c), ByWorker(t))
  }

  class Engine {
    var running_: bool
    const taskQueue_: TaskQueue
    var pendingPromises_: map<string, Promise>
    var totalTasksSubmitted_: nat
    var totalTasksCompleted_: nat
    var totalTasksFailed_: nat
    /** The calls of `set_value` so far: what the futures handed out have received. */
    var settled: seq<Settlement>
    var nextPromise: Promise

    ghost function State(): Shared
      reads this, taskQueue_
    {
      Shared(running_, taskQueue_.State(), pendingPromises_, totalTasksSubmitted_, totalTasksCompleted_,
             totalTasksFailed_, settled)
    }

    constructor ()
      ensures State() == FRESH && fresh(taskQueue_) && nextPromise == 0
    {
      running_ := false;
      taskQueue_ := new TaskQueue();
      pendingPromises_ := map[];
      totalTasksSubmitted_, totalTasksCompleted_, totalTasksFailed_ := 0, 0, 0;
      settled := [];
      nextPromise := 0;
    }

    method SubmitTask(task: Task) returns (promise: Promise)
      modifies this, taskQueue_
      ensures promise == old(nextPromise) && nextPromise == promise + 1
      ensures State() == old(State()).(queue := Enqueued(old(State()).queue, task, task.priority),
                                       pending := old(State()).pending[task.taskId := promise])
    {
      promise := nextPromise;
      nextPromise := nextPromise + 1;
      taskQueue_.Enqueue(task, task.priority);
      pendingPromises_ := pendingPromises_[task.taskId := promise];
    }

    method ResolvePromise(taskId: string, a: Assignment, source: Source)
      modifies this
      ensures State() == Resolved(old(State()), taskId, a, source)
      ensures nextPromise == old(nextPromise)
    {
      if taskId !in pendingPromises_ {
        return;
      }
      var promise := pendingPromises_[taskId];
      pendingPromises_ := pendingPromises_ - {taskId};
      settled := settled + [Settlement(promise, a, source)];
    }

    method Dispatch(a: Assignment, task: Task)
      requires a.placed
      modifies this
      ensures State() == Handled(old(State()), task, Chosen(a))
      ensures task.taskId in old(State()).pending ==>
                settled == old(settled) + [Settlement(old(State()).pending[task.taskId], a, ByWorker(task))]
      ensures nextPromise == old(nextPromise)
    {
      totalTasksCompleted_ := totalTasksCompleted_ + 1;
      ResolvePromise(task.taskId, a, ByWorker(task));
    }

    /** An exception leaves the state alone and reaches the caller as `error`. */
    method RunTask(task: Task, c: Choice) returns (error: Option<string>)
      modifies this
      ensures error == if c.Threw? then Some(c.what) else None
      ensures State() == if c.Threw? then old(State()) else Handled(old(State()), task, c)
      ensures nextPromise == old(nextPromise)
    {
      error := None;
      match c
      case NoNodes =>
        totalTasksFailed_ := totalTasksFailed_ + 1;
        ResolvePromise(task.taskId, FailureAssignment(task, "No available nodes for task"), ByWorker(task));
      case Threw(what) =>
        error := Some(what);
      case Chosen(a) =>
        if a.placed {
          Dispatch(a, task);
        } else {
          totalTasksFailed_ := totalTasksFailed_ + 1;
          ResolvePromise(task.taskId, a, ByWorker(task));
        }
    }

    /** One turn of `workerLoop`, entered when `dequeue` would not block; `more` is false when the loop is left. */
    method WorkerTurn(c: Choice) returns (more: bool)
      requires taskQueue_.State().Ready()
      modifies this, taskQueue_
      ensures nextPromise == old(nextPromise)
      ensures var was := old(State());
              var (t, q) := Dequeued(was.queue);
              && more == (was.running && t.Some?)
              && State() == if !more then was
                            else Handled(was.(queue := q, taken := was.taken + 1), t.value, c)
      ensures var was := old(State());
              var t := Dequeued(was.queue).0;
              more && t.value.taskId in was.pending ==>
                exists v :: Reports(t.value, c, v) &&
                  settled == was.settled + [Settlement(was.pending[t.value.taskId], v, ByWorker(t.value))]
    {
      if !running_ {
        return false;
      }
      var taskOpt := taskQueue_.Dequeue();
      if taskOpt.None? {
        return false;
      }
      totalTasksSubmitted_ := totalTasksSubmitted_ + 1;
      var error := RunTask(taskOpt.value, c);
      if error.Some? {
        totalTasksFailed_ := totalTasksFailed_ + 1;
        ResolvePromise(taskOpt.value.taskId,
                       FailureAssignment(taskOpt.value, "Task processing error: " + error.value),
                       ByWorker(taskOpt.value));
      }
      return true;
    }

    /** Every promise in the map gets exactly one value, in the order, `walk`, in which the map is walked. */
    method FailAllPending(reason: string) returns (ghost walk: seq<string>)
      modifies this`pendingPromises_, this`settled
      ensures Lists(walk, old(State()).pending.Keys)
      ensures State() == old(State()).(pending := map[],
                                       settled := old(State()).settled +
                                                  Cancellations(walk, old(State()).pending, reason))
    {
      var pending := pendingPromises_;
      pendingPromises_ := map[];
      walk := [];
      var todo := pending.Keys;
      while todo != {}
        invariant todo <= pending.Keys && Lists(walk, pending.Keys - todo)
        invariant pendingPromises_ == map[]
        invariant settled == old(settled) + Cancellations(walk, pending, reason)
        decreases |todo|
      {
        var taskId :| taskId in todo;
        settled := settled + [Settlement(pending[taskId], Cancelled(taskId, reason), BySweep)];
        walk := walk + [taskId];
        todo := todo - {taskId};
      }
    }
  }

  /** `walk` goes through the elements of `s`, once each. */
  ghost predicate Lists(walk: seq<string>, s: set<string>) {
    && (forall id :: id in walk <==> id in s)
    && (forall i, j | 0 <= i < j < |walk| :: walk[i] != walk[j])
  }

  ghost function Cancellations(walk: seq<string>, pending: map<string, Promise>, reason: string): seq<Settlement>
    requires forall id | id in walk :: id in pending
  {
    seq(|walk|, i requires 0 <= i < |walk| => Settlement(pending[walk[i]], Cancelled(walk[i], reason), BySweep))
  }
}
