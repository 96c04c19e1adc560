/**
 The engine's task queue: four first-in-first-out levels under one lock.

 `Queues` is the state the lock protects, with one function for each locked section, and
 class `TaskQueue` is the source's object. The lemmas compare it with a single list kept in
 order of priority, and follow whole runs of it.
 */
module TaskQueues {
  import opened Options

  datatype Priority = LOW | NORMAL | HIGH | CRITICAL {
    function Rank(): nat {
      match this
      case LOW => 0
      case NORMAL => 1
      case HIGH => 2
      case CRITICAL => 3
    }
  }

  /** A task payload; `body` stands for the fields the queue and the engine only pass on. */
  datatype Task = Task(taskId: string, priority: Priority, body: nat)

  datatype Queues = Queues(critical: seq<Task>, high: seq<Task>, normal: seq<Task>, low: seq<Task>, shutdown: bool) {
    function Level(p: Priority): seq<Task> {
      match p
      case CRITICAL => critical
      case HIGH => high
      case NORMAL => normal
      case LOW => low
    }

    function Size(): nat {
      |critical| + |high| + |normal| + |low|
    }

    /** What a blocked `dequeue` waits for. */
    predicate Ready() {
      Size() > 0 || shutdown
    }

    function Snapshot(): seq<Task> {
      critical + high + normal + low
    }
  }

  const EMPTY := Queues([], [], [], [], false)

  function Enqueued(q: Queues, t: Task, p: Priority): Queues {
    match p
    case CRITICAL => q.(critical := q.critical + [t])
    case HIGH => q.(high := q.high + [t])
    case NORMAL => q.(normal := q.normal + [t])
    case LOW => q.(low := q.low + [t])
  }

  function Dequeued(q: Queues): (Option<Task>, Queues) {
    if q.shutdown then (None, q)
    else if q.critical != [] then (Some(q.critical[0]), q.(critical := q.critical[1..]))
    else if q.high != [] then (Some(q.high[0]), q.(high := q.high[1..]))
    else if q.normal != [] then (Some(q.normal[0]), q.(normal := q.normal[1..]))
    else if q.low != [] then (Some(q.low[0]), q.(low := q.low[1..]))
    else (None, q)
  }

  lemma EnqueueAddsOne(q: Queues, t: Task, p: Priority)
    ensures Enqueued(q, t, p).Size() == q.Size() + 1
  {}

  class TaskQueue {
    var criticalQueue: seq<Task>
    var highQueue: seq<Task>
    var normalQueue: seq<Task>
    var lowQueue: seq<Task>
    var shutdown_: bool

    ghost function State(): Queues
      reads this
    {
      Queues(criticalQueue, highQueue, normalQueue, lowQueue, shutdown_)
    }

    constructor ()
      ensures State() == EMPTY
    {
      criticalQueue, highQueue, normalQueue, lowQueue := [], [], [], [];
      shutdown_ := false;
    }

    method Enqueue(task: Task, priority: Priority := NORMAL)
      modifies this
      ensures State() == Enqueued(old(State()), task, priority)
    {
      if priority == CRITICAL {
        criticalQueue := criticalQueue + [task];
      } else if priority == HIGH {
        highQueue := highQueue + [task];
      } else if priority == NORMAL {
        normalQueue := normalQueue + [task];
      } else {
        lowQueue := lowQueue + [task];
      }
    }

    /** The part of `dequeue` after the condition variable has let the caller through. */
    method Dequeue() returns (task: Option<Task>)
      requires State().Ready()
      modifies this
      ensures (task, State()) == Dequeued(old(State()))
    {
      if shutdown_ {
        return None;
      }
      if criticalQueue != [] {
        task := Some(criticalQueue[0]);
        criticalQueue := criticalQueue[1..];
        return;
      }
      if highQueue != [] {
        task := Some(highQueue[0]);
        highQueue := highQueue[1..];
        return;
      }
      if normalQueue != [] {
        task := Some(normalQueue[0]);
        normalQueue := normalQueue[1..];
        return;
      }
      if lowQueue != [] {
        task := Some(lowQueue[0]);
        lowQueue := lowQueue[1..];
        return;
      }
      return None;
    }

    method Size() returns (n: nat)
      ensures n == State().Size()
    {
      n := |criticalQueue| + |highQueue| + |normalQueue| + |lowQueue|;
    }

    /** `snapshot` empties a copy of each queue in turn. */
    method Snapshot() returns (tasks: seq<Task>)
      ensures tasks == State().Snapshot()
    {
      tasks := Collect([], criticalQueue);
      tasks := Collect(tasks, highQueue);
      tasks := Collect(tasks, normalQueue);
      tasks := Collect(tasks, lowQueue);
    }

    static method Collect(soFar: seq<Task>, queue: seq<Task>) returns (tasks: seq<Task>)
      ensures tasks == soFar + queue
    {
      tasks := soFar;
      var queueCopy := queue;
      while queueCopy != []
        invariant tasks + queueCopy == soFar + queue
        decreases |queueCopy|
      {
        tasks := tasks + [queueCopy[0]];
        queueCopy := queueCopy[1..];
      }
    }

    method Shutdown()
      modifies this
      ensures State() == old(State()).(shutdown := true)
    {
      shutdown_ := true;
    }
  }

  /** A caller is let through exactly when there is a task for it or the queue is shut down. */
  lemma ReadyExactlyWhenAnswered(q: Queues)
    ensures q.Ready() <==> q.shutdown || Dequeued(q).0.Some?
  {}

  // ---------- one stable priority list ----------

  type Ranked = seq<(Priority, Task)>

  function Tagged(p: Priority, ts: seq<Task>): (r: Ranked)
    ensures |r| == |ts|
    ensures forall i | 0 <= i < |ts| :: r[i] == (p, ts[i])
  {
    seq(|ts|, i requires 0 <= i < |ts| => (p, ts[i]))
  }

  /** The four levels as one list. */
  function AsList(q: Queues): Ranked {
    Tagged(CRITICAL, q.critical) + (Tagged(HIGH, q.high) + (Tagged(NORMAL, q.normal) + Tagged(LOW, q.low)))
  }

  /** Stable insertion: behind everything of the same or a higher priority. */
  function Insert(r: Ranked, p: Priority, t: Task): Ranked {
    if r == [] || r[0].0.Rank() < p.Rank() then [(p, t)] + r
    else [r[0]] + Insert(r[1..], p, t)
  }

  lemma {:induction false} InsertSkips(ts: seq<Task>, o: Priority, r: Ranked, p: Priority, t: Task)
    requires o.Rank() >= p.Rank()
    ensures Insert(Tagged(o, ts) + r, p, t) == Tagged(o, ts) + Insert(r, p, t)
  {
    var before := Tagged(o, ts);
    if ts == [] {
      assert before + r == r;
    } else {
      InsertSkips(ts[1..], o, r, p, t);
      assert before == [(o, ts[0])] + Tagged(o, ts[1..]);
      assert (before + r)[1..] == Tagged(o, ts[1..]) + r;
    }
  }

  lemma InsertAtEndOfLevel(ts: seq<Task>, below: Ranked, p: Priority, t: Task)
    requires below == [] || below[0].0.Rank() < p.Rank()
    ensures Insert(Tagged(p, ts) + below, p, t) == Tagged(p, ts + [t]) + below
  {
    InsertSkips(ts, p, below, p, t);
    assert Tagged(p, ts + [t]) == Tagged(p, ts) + [(p, t)];
  }

  /** Enqueueing is stable insertion. */
  lemma EnqueueRefinesList(q: Queues, t: Task, p: Priority)
    ensures AsList(Enqueued(q, t, p)) == Insert(AsList(q), p, t)
  {
    var h, n, l := Tagged(HIGH, q.high), Tagged(NORMAL, q.normal), Tagged(LOW, q.low);
    if p == CRITICAL {
      InsertAtEndOfLevel(q.critical, h + (n + l), p, t);
    } else {
      InsertSkips(q.critical, CRITICAL, h + (n + l), p, t);
      if p == HIGH {
        InsertAtEndOfLevel(q.high, n + l, p, t);
      } else {
        InsertSkips(q.high, HIGH, n + l, p, t);
        if p == NORMAL {
          InsertAtEndOfLevel(q.normal, l, p, t);
        } else {
          InsertSkips(q.normal, NORMAL, l, p, t);
          InsertAtEndOfLevel(q.low, [], p, t);
          assert l + [] == l && Tagged(LOW, q.low + [t]) + [] == Tagged(LOW, q.low + [t]);
        }
      }
    }
  }

  /** Dequeueing takes the list's head, and nothing once the queue is shut down. */
  lemma DequeueRefinesList(q: Queues)
    ensures var (t, q') := Dequeued(q);
            if q.shutdown || AsList(q) == [] then t == None && q' == q
            else t == Some(AsList(q)[0].1) && AsList(q') == AsList(q)[1..] && !q'.shutdown
  {
    var h, n, l := Tagged(HIGH, q.high), Tagged(NORMAL, q.normal), Tagged(LOW, q.low);
    if q.critical != [] {
      HeadOff(CRITICAL, q.critical, h + (n + l));
    } else if q.high != [] {
      HeadOff(HIGH, q.high, n + l);
      assert AsList(q) == h + (n + l);
    } else if q.normal != [] {
      HeadOff(NORMAL, q.normal, l);
      assert AsList(q) == n + l;
    } else if q.low != [] {
      HeadOff(LOW, q.low, []);
      assert AsList(q) == l + [];
    }
  }

  lemma HeadOff(p: Priority, ts: seq<Task>, r: Ranked)
    requires ts != []
    ensures Tagged(p, ts) + r == [(p, ts[0])] + (Tagged(p, ts[1..]) + r)
  {
    assert Tagged(p, ts) == [(p, ts[0])] + Tagged(p, ts[1..]);
  }

  /** The tasks that dequeueing until nothing is left would return. */
  function Drain(q: Queues): seq<Task>
    decreases q.Size()
  {
    var (t, q') := Dequeued(q);
    if t.None? then [] else [t.value] + Drain(q')
  }

  lemma SnapshotAfterDequeue(q: Queues)
    requires !q.shutdown && q.Size() > 0
    ensures var (t, q') := Dequeued(q);
            t.Some? && q.Snapshot() == [t.value] + q'.Snapshot() && !q'.shutdown && q'.Size() == q.Size() - 1
  {}

  /** A snapshot is what later dequeues return, if nothing intervenes. */
  lemma {:induction false} SnapshotIsDrain(q: Queues)
    requires !q.shutdown
    ensures q.Snapshot() == Drain(q)
    decreases q.Size()
  {
    if q.Size() > 0 {
      SnapshotAfterDequeue(q);
      SnapshotIsDrain(Dequeued(q).1);
    }
  }

  // ---------- runs ----------

  datatype Op = DoEnqueue(task: Task, priority: Priority) | DoDequeue | DoShutdown

  /**
   One operation: the new state, and the task that came out with its level, if any; a dequeue that would block does
   nothing.
   */
  function StepQueue(q: Queues, op: Op): (Queues, Ranked) {
    match op
    case DoEnqueue(t, p) => (Enqueued(q, t, p), [])
    case DoShutdown => (q.(shutdown := true), [])
    case DoDequeue =>
      var (t, q') := Dequeued(q);
      (q', if t.None? then [] else [(AsList(q)[0].0, t.value)])
  }

  function RunQueue(q: Queues, ops: seq<Op>): (Queues, Ranked)
    decreases |ops|
  {
    if ops == [] then (q, [])
    else
      var (q1, got) := StepQueue(q, ops[0]);
      var (q2, later) := RunQueue(q1, ops[1..]);
      (q2, got + later)
  }

  function PutBy(op: Op, p: Priority): seq<Task> {
    if op.DoEnqueue? && op.priority == p then [op.task] else []
  }

  /** The tasks ever enqueued at a level, in order. */
  function PutAt(ops: seq<Op>, p: Priority): seq<Task> {
    if ops == [] then [] else PutBy(ops[0], p) + PutAt(ops[1..], p)
  }

  function GotAt(got: Ranked, p: Priority): seq<Task> {
    if got == [] then []
    else (if got[0].0 == p then [got[0].1] else []) + GotAt(got[1..], p)
  }

  /** A task that comes out was the front of the highest level that was not empty. */
  lemma DequeueTakesHighest(q: Queues)
    requires Dequeued(q).0.Some?
    ensures var p := AsList(q)[0].0; var (t, q') := Dequeued(q);
            && (forall h: Priority | h.Rank() > p.Rank() :: q.Level(h) == [])
            && q.Level(p) == [t.value] + q'.Level(p)
            && (forall o: Priority | o != p :: q'.Level(o) == q.Level(o))
  {}

  lemma EnqueueGrowsItsLevel(q: Queues, t: Task, o: Priority, p: Priority)
    ensures Enqueued(q, t, o).Level(p) == if o == p then q.Level(p) + [t] else q.Level(p)
  {}

  lemma StepIsFifoPerLevel(q: Queues, op: Op, p: Priority)
    ensures var (q', got) := StepQueue(q, op);
            q.Level(p) + PutBy(op, p) == GotAt(got, p) + q'.Level(p)
  {
    match op
    case DoEnqueue(t, o) =>
      EnqueueGrowsItsLevel(q, t, o, p);
    case DoShutdown =>
      assert q.(shutdown := true).Level(p) == q.Level(p);
    case DoDequeue =>
      var (t, q') := Dequeued(q);
      if t.Some? {
        var o := AsList(q)[0].0;
        DequeueTakesHighest(q);
        GotAtOne(o, t.value, p);
        assert if o == p then q.Level(p) == [t.value] + q'.Level(p) else q.Level(p) == q'.Level(p);
      }
  }

  lemma GotAtOne(o: Priority, t: Task, p: Priority)
    ensures GotAt([(o, t)], p) == if o == p then [t] else []
  {
    assert [(o, t)][1..] == [];
  }

  lemma GotAtAppends(got: Ranked, later: Ranked, p: Priority)
    requires |got| <= 1
    ensures GotAt(got + later, p) == GotAt(got, p) + GotAt(later, p)
  {
    if got == [] {
      assert got + later == later;
    } else {
      assert (got + later)[1..] == later && got[1..] == [];
    }
  }

  lemma Rearranged<T>(q: seq<T>, put: seq<T>, puts: seq<T>, got: seq<T>, q1: seq<T>, gots: seq<T>, q2: seq<T>)
    requires q + put == got + q1 && q1 + puts == gots + q2
    ensures q + (put + puts) == (got + gots) + q2
  {
    calc {
      q + (put + puts);
      (q + put) + puts;
      got + (q1 + puts);
      (got + gots) + q2;
    }
  }

  /**
   Every level is first-in-first-out over every run, and loses nothing: what was there and
   what was ever put there is what was ever taken from there, then what is still there.
   */
  lemma {:induction false} RunIsFifoPerLevel(q: Queues, ops: seq<Op>, p: Priority)
    ensures var (q', got) := RunQueue(q, ops);
            q.Level(p) + PutAt(ops, p) == GotAt(got, p) + q'.Level(p)
    decreases |ops|
  {
    if ops != [] {
      var (q1, got) := StepQueue(q, ops[0]);
      var (q2, later) := RunQueue(q1, ops[1..]);
      StepIsFifoPerLevel(q, ops[0], p);
      RunIsFifoPerLevel(q1, ops[1..], p);
      GotAtAppends(got, later, p);
      Rearranged(q.Level(p), PutBy(ops[0], p), PutAt(ops[1..], p), GotAt(got, p), q1.Level(p), GotAt(later, p),
                 q2.Level(p));
    }
  }

  /**
   In every run of a queue that starts empty, a task that comes out next is the oldest of
   its level still there, and every task ever put at a higher level has already come out.
   */
  lemma NextOutIsOldestOfHighest(ops: seq<Op>)
    ensures var (q, got) := RunQueue(EMPTY, ops);
            Dequeued(q).0.Some? ==>
              var p := AsList(q)[0].0;
              && |GotAt(got, p)| < |PutAt(ops, p)|
              && Dequeued(q).0.value == PutAt(ops, p)[|GotAt(got, p)|]
              && (forall h: Priority | h.Rank() > p.Rank() :: GotAt(got, h) == PutAt(ops, h))
  {
    var (q, got) := RunQueue(EMPTY, ops);
    if Dequeued(q).0.Some? {
      var p := AsList(q)[0].0;
      DequeueTakesHighest(q);
      forall o: Priority
        ensures PutAt(ops, o) == GotAt(got, o) + q.Level(o)
      {
        RunIsFifoPerLevel(EMPTY, ops, o);
        assert EMPTY.Level(o) + PutAt(ops, o) == PutAt(ops, o);
      }
    }
  }
}
