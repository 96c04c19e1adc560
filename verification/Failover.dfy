/**
 RPC failover with a circuit breaker, on values: the updates made under the lock, a call and a round
 of health checks. Times are integers read from a clock that is part of the environment; what the
 endpoints answer is part of it too.
 */
module Failover {
  import opened Options

  datatype EndpointStatus = Healthy | Degraded | Unhealthy | Unknown

  datatype Config = Config(url: string, priority: int, settings: string)

  /** The health-tracking fields of an endpoint. */
  datatype Health = Health(
    status: EndpointStatus, consecutiveFailures: nat, totalRequests: nat, successfulRequests: nat,
    lastSuccess: Option<int>, lastFailure: Option<int>, latency: real)

  const UNTRIED := Health(Unknown, 0, 0, 0, None, None, 0.0)

  datatype Limits = Limits(maxRetries: nat, threshold: nat, timeout: int)

  /** What one manager knows: its endpoints in order, and until when the circuit of a URL is open. */
  datatype State = State(configs: seq<Config>, healths: seq<Health>, circuits: map<string, int>)

  predicate WellFormed(s: State) {
    |s.configs| == |s.healths|
  }

  predicate UrlsDiffer(s: State) {
    forall i, j | 0 <= i < j < |s.configs| :: s.configs[i].url != s.configs[j].url
  }

  // ---------- the updates under the lock ----------

  /** `_mark_endpoint_unhealthy`. */
  function Marked(limits: Limits, h: Health, now: int): Health {
    var failures := h.consecutiveFailures + 1;
    h.(consecutiveFailures := failures, lastFailure := Some(now),
       status := if failures >= limits.threshold then Unhealthy else Degraded)
  }

  /** And the circuit that it opens, by a later reading of the clock, when the failures reach the threshold. */
  function Opened(limits: Limits, marked: Health, circuits: map<string, int>, url: string, now: int): map<string, int> {
    if marked.consecutiveFailures >= limits.threshold then circuits[url := now + limits.timeout] else circuits
  }

  /** A health check that was answered. */
  function Recovered(h: Health, now: int, latency: real): Health {
    h.(status := Healthy, lastSuccess := Some(now), consecutiveFailures := 0,
       latency := if h.latency == 0.0 then latency else h.latency * 0.9 + latency * 0.1)
  }

  /** A call that was answered. */
  function Succeeded(h: Health, now: int): Health {
    h.(successfulRequests := h.successfulRequests + 1, totalRequests := h.totalRequests + 1,
       lastSuccess := Some(now), consecutiveFailures := 0, status := Healthy)
  }

  function Counted(h: Health): Health {
    h.(totalRequests := h.totalRequests + 1)
  }

  /** One atomic step of some thread. Dropping an expired circuit takes no lock, but is one dictionary operation. */
  datatype Action =
    | Mark(i: nat, now: int, openedAt: int)
    | Recover(i: nat, now: int, latency: real)
    | Succeed(i: nat, now: int)
    | CountFailure(i: nat)
    | DropCircuit(url: string)

  predicate Possible(s: State, a: Action) {
    WellFormed(s) && (a.DropCircuit? || a.i < |s.configs|)
  }

  function Apply(limits: Limits, s: State, a: Action): (r: State)
    requires Possible(s, a)
    ensures WellFormed(r) && r.configs == s.configs
  {
    match a
    case Mark(i, now, openedAt) =>
      var marked := Marked(limits, s.healths[i], now);
      State(s.configs, s.healths[i := marked], Opened(limits, marked, s.circuits, s.configs[i].url, openedAt))
    case Recover(i, now, latency) =>
      State(s.configs, s.healths[i := Recovered(s.healths[i], now, latency)], s.circuits - {s.configs[i].url})
    case Succeed(i, now) => s.(healths := s.healths[i := Succeeded(s.healths[i], now)])
    case CountFailure(i) => s.(healths := s.healths[i := Counted(s.healths[i])])
    case DropCircuit(url) => s.(circuits := s.circuits - {url})
  }

  predicate AllPossible(s: State, actions: seq<Action>) {
    WellFormed(s) && forall k | 0 <= k < |actions| :: Possible(s, actions[k])
  }

  function Interleaved(limits: Limits, s: State, actions: seq<Action>): State
    requires AllPossible(s, actions)
    decreases |actions|
  {
    if actions == [] then s
    else
      var next := Apply(limits, s, actions[0]);
      Interleaved(limits, next, actions[1..])
  }

  /** The status says how many failures there were in a row. */
  predicate IsConsistent(limits: Limits, h: Health) {
    && (h.status == Unhealthy <==> h.consecutiveFailures >= limits.threshold)
    && (h.status == Degraded <==> 0 < h.consecutiveFailures < limits.threshold)
    && h.successfulRequests <= h.totalRequests
  }

  predicate AllConsistent(limits: Limits, s: State) {
    forall h | h in s.healths :: IsConsistent(limits, h)
  }

  lemma UpdatesAreConsistent(limits: Limits, h: Health, now: int, latency: real)
    requires limits.threshold >= 1 && IsConsistent(limits, h)
    ensures IsConsistent(limits, Marked(limits, h, now)) && IsConsistent(limits, Recovered(h, now, latency))
    ensures IsConsistent(limits, Succeeded(h, now)) && IsConsistent(limits, Counted(h))
  {}

  lemma ActionIsConsistent(limits: Limits, s: State, a: Action)
    requires limits.threshold >= 1 && Possible(s, a) && AllConsistent(limits, s)
    ensures AllConsistent(limits, Apply(limits, s, a))
  {
    if !a.DropCircuit? {
      UpdatesAreConsistent(
        limits, s.healths[a.i], if a.CountFailure? then 0 else a.now, if a.Recover? then a.latency else 0.0);
    }
  }

  /** Whatever the threads do, and in whatever order, every status agrees with its counters. */
  lemma {:induction false} EveryInterleavingIsConsistent(limits: Limits, s: State, actions: seq<Action>)
    requires limits.threshold >= 1 && AllConsistent(limits, s)
    requires AllPossible(s, actions)
    ensures AllConsistent(limits, Interleaved(limits, s, actions))
    decreases |actions|
  {
    if actions != [] {
      ActionIsConsistent(limits, s, actions[0]);
      EveryInterleavingIsConsistent(limits, Apply(limits, s, actions[0]), actions[1..]);
    }
  }

  /** How often an endpoint was marked since the last answer it gave. */
  function MarksInARow(actions: seq<Action>, i: nat, before: nat): nat {
    if actions == [] then before
    else
      var n := MarksInARow(actions[..|actions| - 1], i, before);
      match actions[|actions| - 1]
      case Mark(k, _, _) => if k == i then n + 1 else n
      case Recover(k, _, _) => if k == i then 0 else n
      case Succeed(k, _) => if k == i then 0 else n
      case _ => n
  }

  lemma {:induction false} InterleavedInParts(limits: Limits, s: State, first: seq<Action>, last: Action)
    requires Possible(s, last) && AllPossible(s, first)
    ensures Possible(Interleaved(limits, s, first), last)
    ensures Interleaved(limits, s, first + [last]) == Apply(limits, Interleaved(limits, s, first), last)
    decreases |first|
  {
    if first == [] {
      assert [last][1..] == [];
    } else {
      assert (first + [last])[1..] == first[1..] + [last];
      InterleavedInParts(limits, Apply(limits, s, first[0]), first[1..], last);
    }
  }

  /** So the status of an endpoint is decided by what happened since its last answer. */
  lemma {:induction false} FailuresAreMarksInARow(limits: Limits, s: State, actions: seq<Action>, i: nat)
    requires AllPossible(s, actions) && i < |s.configs|
    ensures var r := Interleaved(limits, s, actions);
            && |r.healths| == |s.healths| && r.configs == s.configs
            && r.healths[i].consecutiveFailures == MarksInARow(actions, i, s.healths[i].consecutiveFailures)
    decreases |actions|
  {
    if actions != [] {
      var first, last := actions[..|actions| - 1], actions[|actions| - 1];
      assert actions == first + [last];
      FailuresAreMarksInARow(limits, s, first, i);
      InterleavedInParts(limits, s, first, last);
    }
  }

  // ---------- a call ----------

  /** What one HTTP request comes to. */
  datatype Reply = Answer(result: Option<string>) | Failed

  /** The first answer among a number of attempts. */
  function FirstAnswer(replies: seq<Reply>, attempts: nat): (r: Option<Option<string>>)
    requires attempts <= |replies|
  {
    if attempts == 0 then None
    else
      var earlier := FirstAnswer(replies, attempts - 1);
      var last := replies[attempts - 1];
      if earlier.Some? then earlier else if last.Answer? then Some(last.result) else None
  }

  /** What the environment holds ready for one endpoint: three clock readings, the replies, and the latency. */
  datatype Visit = Visit(checkedAt: int, replies: seq<Reply>, finishedAt: int, openedAt: int, latency: real)

  predicate CircuitIsOpen(circuits: map<string, int>, url: string, now: int) {
    url in circuits && now < circuits[url]
  }

  /** An expired circuit is dropped when it is looked at. */
  function Swept(circuits: map<string, int>, url: string, now: int): map<string, int> {
    if url in circuits && now >= circuits[url] then circuits - {url} else circuits
  }

  /** The comparison with the last endpoint is one of values: every field takes part. */
  predicate EqualsLast(s: State, i: nat)
    requires WellFormed(s) && i < |s.configs|
  {
    s.configs[i] == s.configs[|s.configs| - 1] && s.healths[i] == s.healths[|s.healths| - 1]
  }

  predicate IsEligible(s: State, i: nat, now: int)
    requires WellFormed(s) && i < |s.configs|
  {
    !CircuitIsOpen(s.circuits, s.configs[i].url, now) && (s.healths[i].status != Unhealthy || EqualsLast(s, i))
  }

  /** A failed call counts as a request and as one failure. */
  function Charged(limits: Limits, h: Health, now: int): Health {
    Marked(limits, Counted(h), now)
  }

  datatype Outcome = Outcome(state: State, answer: Option<Option<string>>)

  /** The body of the failover loop. */
  function Tried(limits: Limits, s: State, i: nat, v: Visit): (r: Outcome)
    requires WellFormed(s) && i < |s.configs| && limits.maxRetries <= |v.replies|
    ensures WellFormed(r.state) && r.state.configs == s.configs
  {
    var swept := s.(circuits := Swept(s.circuits, s.configs[i].url, v.checkedAt));
    if !IsEligible(s, i, v.checkedAt) then Outcome(swept, None)
    else
      var answer := FirstAnswer(v.replies, limits.maxRetries);
      if answer.Some? then Outcome(Apply(limits, swept, Succeed(i, v.finishedAt)), answer)
      else Outcome(Apply(limits, Apply(limits, swept, CountFailure(i)), Mark(i, v.finishedAt, v.openedAt)), None)
  }

  predicate Ready(limits: Limits, s: State, visits: seq<Visit>) {
    WellFormed(s) && |visits| == |s.configs| && forall v | v in visits :: limits.maxRetries <= |v.replies|
  }

  /** `rpc_call` from endpoint `i` on; no answer is the exception that all endpoints failed. */
  function CallFrom(limits: Limits, s: State, visits: seq<Visit>, i: nat): (r: Outcome)
    requires Ready(limits, s, visits) && i <= |visits|
    ensures WellFormed(r.state) && r.state.configs == s.configs
    decreases |visits| - i
  {
    if i == |visits| then Outcome(s, None)
    else
      var r := Tried(limits, s, i, visits[i]);
      if r.answer.Some? then r else CallFrom(limits, r.state, visits, i + 1)
  }

  // ---------- which endpoint answers ----------

  predicate Answers(limits: Limits, s: State, i: nat, v: Visit)
    requires WellFormed(s) && i < |s.configs| && limits.maxRetries <= |v.replies|
  {
    IsEligible(s, i, v.checkedAt) && FirstAnswer(v.replies, limits.maxRetries).Some?
  }

  /** The first endpoint from `i` on that is eligible and answers. */
  function FirstToAnswer(limits: Limits, s: State, visits: seq<Visit>, i: nat): (j: nat)
    requires Ready(limits, s, visits) && i <= |visits|
    ensures i <= j <= |visits|
    ensures j < |visits| ==> Answers(limits, s, j, visits[j])
    ensures forall k | i <= k < j :: !Answers(limits, s, k, visits[k])
    decreases |visits| - i
  {
    if i == |visits| || Answers(limits, s, i, visits[i]) then i else FirstToAnswer(limits, s, visits, i + 1)
  }

  /** Nothing about endpoint `k` differs. */
  predicate SameAt(s: State, t: State, k: nat)
    requires WellFormed(s) && WellFormed(t) && k < |s.configs| == |t.configs|
  {
    && s.healths[k] == t.healths[k]
    && (s.configs[k].url in s.circuits <==> s.configs[k].url in t.circuits)
    && (s.configs[k].url in s.circuits ==> s.circuits[s.configs[k].url] == t.circuits[s.configs[k].url])
  }

  lemma TryingTouchesOne(limits: Limits, s: State, i: nat, v: Visit, k: nat)
    requires WellFormed(s) && UrlsDiffer(s) && i < |s.configs| && limits.maxRetries <= |v.replies|
    requires k < |s.configs| && k != i
    ensures SameAt(s, Tried(limits, s, i, v).state, k)
  {}

  lemma EligibilityIsLocal(s: State, t: State, k: nat, v: Visit)
    requires WellFormed(s) && WellFormed(t) && UrlsDiffer(s) && t.configs == s.configs && k < |s.configs|
    requires SameAt(s, t, k)
    ensures IsEligible(s, k, v.checkedAt) == IsEligible(t, k, v.checkedAt)
  {}

  lemma EligibilityIsKept(limits: Limits, s: State, t: State, visits: seq<Visit>, i: nat)
    requires Ready(limits, s, visits) && Ready(limits, t, visits) && UrlsDiffer(s) && t.configs == s.configs
    requires i <= |visits| && forall k | i <= k < |visits| :: SameAt(s, t, k)
    ensures FirstToAnswer(limits, t, visits, i) == FirstToAnswer(limits, s, visits, i)
    decreases |visits| - i
  {
    if i < |visits| {
      EligibilityIsLocal(s, t, i, visits[i]);
      EligibilityIsKept(limits, s, t, visits, i + 1);
    }
  }

  /** What a call leaves of endpoint `k`, if `j` is the first one that answers. */
  function HealthAfterCall(limits: Limits, s: State, visits: seq<Visit>, j: nat, k: nat): Health
    requires Ready(limits, s, visits) && k < |visits|
  {
    if k < j && IsEligible(s, k, visits[k].checkedAt) then Charged(limits, s.healths[k], visits[k].finishedAt)
    else if k == j then Succeeded(s.healths[k], visits[k].finishedAt)
    else s.healths[k]
  }

  /** The result of a call from endpoint `i` on, in terms of the state `s` before it. */
  ghost predicate IsResult(limits: Limits, s: State, visits: seq<Visit>, i: nat, r: Outcome)
    requires Ready(limits, s, visits) && i <= |visits|
  {
    var j := FirstToAnswer(limits, s, visits, i);
    && WellFormed(r.state) && r.state.configs == s.configs
    && r.answer == (if j < |visits| then FirstAnswer(visits[j].replies, limits.maxRetries) else None)
    && (forall k | 0 <= k < i :: r.state.healths[k] == s.healths[k])
    && (forall k | i <= k < |visits| :: r.state.healths[k] == HealthAfterCall(limits, s, visits, j, k))
    && (forall k | j < k < |visits| :: SameAt(s, r.state, k))
  }

  lemma AnswerIsTheResult(limits: Limits, s: State, visits: seq<Visit>, i: nat)
    requires Ready(limits, s, visits) && UrlsDiffer(s) && i < |visits| && Answers(limits, s, i, visits[i])
    requires forall k | 0 <= k < |visits| && k != i :: SameAt(s, Tried(limits, s, i, visits[i]).state, k)
    ensures IsResult(limits, s, visits, i, Tried(limits, s, i, visits[i]))
  {}

  lemma {:induction false} CallFromResult(limits: Limits, s: State, visits: seq<Visit>, i: nat)
    requires Ready(limits, s, visits) && UrlsDiffer(s) && i <= |visits|
    ensures IsResult(limits, s, visits, i, CallFrom(limits, s, visits, i))
    decreases |visits| - i
  {
    if i < |visits| {
      var t := Tried(limits, s, i, visits[i]).state;
      forall k | 0 <= k < |visits| && k != i
        ensures SameAt(s, t, k)
      {
        TryingTouchesOne(limits, s, i, visits[i], k);
      }
      if Answers(limits, s, i, visits[i]) {
        AnswerIsTheResult(limits, s, visits, i);
      } else {
        EligibilityIsKept(limits, s, t, visits, i + 1);
        CallFromResult(limits, t, visits, i + 1);
        ResultCarriesOver(limits, s, t, visits, i, CallFrom(limits, t, visits, i + 1));
      }
    }
  }

  lemma ResultCarriesOver(limits: Limits, s: State, t: State, visits: seq<Visit>, i: nat, r: Outcome)
    requires Ready(limits, s, visits) && UrlsDiffer(s) && i < |visits| && !Answers(limits, s, i, visits[i])
    requires t == Tried(limits, s, i, visits[i]).state && Ready(limits, t, visits)
    requires forall k | 0 <= k < |visits| && k != i :: SameAt(s, t, k)
    requires FirstToAnswer(limits, t, visits, i + 1) == FirstToAnswer(limits, s, visits, i + 1)
    requires IsResult(limits, t, visits, i + 1, r)
    ensures IsResult(limits, s, visits, i, r)
  {
    var j := FirstToAnswer(limits, s, visits, i);
    forall k | i <= k < |visits|
      ensures r.state.healths[k] == HealthAfterCall(limits, s, visits, j, k)
    {
      if k != i {
        EligibilityIsLocal(s, t, k, visits[k]);
      }
    }
    forall k | j < k < |visits|
      ensures SameAt(s, r.state, k)
    {
      assert SameAt(s, t, k) && SameAt(t, r.state, k);
    }
  }

  /** With different URLs, the endpoint compared equal to the last one is the last one. */
  lemma OnlyTheLastEqualsLast(s: State, i: nat)
    requires WellFormed(s) && UrlsDiffer(s) && i < |s.configs|
    ensures EqualsLast(s, i) <==> i == |s.configs| - 1
  {}

  /**
   `rpc_call` returns the answer of the first eligible endpoint that gives one; every eligible endpoint before it
   is charged one request and one failure, and every other endpoint is left alone.
   */
  lemma CallReturnsTheFirstAnswer(limits: Limits, s: State, visits: seq<Visit>)
    requires Ready(limits, s, visits) && UrlsDiffer(s)
    ensures IsResult(limits, s, visits, 0, CallFrom(limits, s, visits, 0))
  {
    CallFromResult(limits, s, visits, 0);
  }

  // ---------- health checks and sequential runs ----------

  /** One endpoint's health check: one attempt, and an answer without a result is a failure. */
  function Probed(limits: Limits, s: State, i: nat, v: Visit): (r: State)
    requires WellFormed(s) && i < |s.configs| && 1 <= |v.replies|
    ensures WellFormed(r) && r.configs == s.configs
  {
    var answer := FirstAnswer(v.replies, 1);
    if answer.Some? && answer.value.Some? then Apply(limits, s, Recover(i, v.finishedAt, v.latency))
    else Apply(limits, s, Mark(i, v.finishedAt, v.openedAt))
  }

  function ProbedFrom(limits: Limits, s: State, visits: seq<Visit>, i: nat): (r: State)
    requires WellFormed(s) && |visits| == |s.configs| && i <= |visits|
    requires forall v | v in visits :: 1 <= |v.replies|
    ensures WellFormed(r) && r.configs == s.configs
    decreases |visits| - i
  {
    if i == |visits| then s else ProbedFrom(limits, Probed(limits, s, i, visits[i]), visits, i + 1)
  }

  /** An open circuit, expired or not, belongs to an unhealthy endpoint. */
  predicate CircuitsAreUnhealthy(s: State) {
    && WellFormed(s)
    && forall k | 0 <= k < |s.configs| && s.configs[k].url in s.circuits :: s.healths[k].status == Unhealthy
  }

  /** What sequential operations keep. */
  predicate IsSound(limits: Limits, s: State) {
    limits.threshold >= 1 && UrlsDiffer(s) && CircuitsAreUnhealthy(s) && AllConsistent(limits, s)
  }

  lemma TryingIsSound(limits: Limits, s: State, i: nat, v: Visit)
    requires IsSound(limits, s) && i < |s.configs| && limits.maxRetries <= |v.replies|
    ensures IsSound(limits, Tried(limits, s, i, v).state)
  {
    TryingIsConsistent(limits, s, i, v);
    forall k | 0 <= k < |s.configs| && k != i
      ensures SameAt(s, Tried(limits, s, i, v).state, k)
    {
      TryingTouchesOne(limits, s, i, v, k);
    }
  }

  lemma TryingIsConsistent(limits: Limits, s: State, i: nat, v: Visit)
    requires IsSound(limits, s) && i < |s.configs| && limits.maxRetries <= |v.replies|
    ensures AllConsistent(limits, Tried(limits, s, i, v).state)
  {
    var swept := s.(circuits := Swept(s.circuits, s.configs[i].url, v.checkedAt));
    ActionIsConsistent(limits, swept, Succeed(i, v.finishedAt));
    ActionIsConsistent(limits, swept, CountFailure(i));
    ActionIsConsistent(limits, Apply(limits, swept, CountFailure(i)), Mark(i, v.finishedAt, v.openedAt));
  }

  lemma ProbingTouchesOne(limits: Limits, s: State, i: nat, v: Visit, k: nat)
    requires WellFormed(s) && UrlsDiffer(s) && i < |s.configs| && 1 <= |v.replies| && k < |s.configs| && k != i
    ensures SameAt(s, Probed(limits, s, i, v), k)
  {}

  lemma ProbingIsSound(limits: Limits, s: State, i: nat, v: Visit)
    requires IsSound(limits, s) && i < |s.configs| && 1 <= |v.replies|
    ensures IsSound(limits, Probed(limits, s, i, v))
  {
    ActionIsConsistent(limits, s, Recover(i, v.finishedAt, v.latency));
    ActionIsConsistent(limits, s, Mark(i, v.finishedAt, v.openedAt));
    assert IsConsistent(limits, s.healths[i]);
    forall k | 0 <= k < |s.configs| && k != i
      ensures SameAt(s, Probed(limits, s, i, v), k)
    {
      ProbingTouchesOne(limits, s, i, v, k);
    }
  }

  lemma {:induction false} CallIsSound(limits: Limits, s: State, visits: seq<Visit>, i: nat)
    requires IsSound(limits, s) && Ready(limits, s, visits) && i <= |visits|
    ensures IsSound(limits, CallFrom(limits, s, visits, i).state)
    decreases |visits| - i
  {
    if i < |visits| {
      TryingIsSound(limits, s, i, visits[i]);
      if !Answers(limits, s, i, visits[i]) {
        CallIsSound(limits, Tried(limits, s, i, visits[i]).state, visits, i + 1);
      }
    }
  }

  lemma {:induction false} ProbesAreSound(limits: Limits, s: State, visits: seq<Visit>, i: nat)
    requires IsSound(limits, s) && |visits| == |s.configs| && i <= |visits|
    requires forall v | v in visits :: 1 <= |v.replies|
    ensures IsSound(limits, ProbedFrom(limits, s, visits, i))
    decreases |visits| - i
  {
    if i < |visits| {
      ProbingIsSound(limits, s, i, visits[i]);
      ProbesAreSound(limits, Probed(limits, s, i, visits[i]), visits, i + 1);
    }
  }

  /** What one thread does one after the other. */
  datatype Operation = RpcCall(visits: seq<Visit>) | HealthChecks(visits: seq<Visit>)

  /** The environment of an operation covers all of `n` endpoints and all attempts. */
  predicate Covers(limits: Limits, n: nat, op: Operation) {
    |op.visits| == n && forall v | v in op.visits :: 1 <= |v.replies| && limits.maxRetries <= |v.replies|
  }

  predicate AllCover(limits: Limits, n: nat, ops: seq<Operation>) {
    forall k | 0 <= k < |ops| :: Covers(limits, n, ops[k])
  }

  function Done(limits: Limits, s: State, op: Operation): (r: State)
    requires WellFormed(s) && Covers(limits, |s.configs|, op)
    ensures WellFormed(r) && r.configs == s.configs
  {
    match op
    case RpcCall(visits) => CallFrom(limits, s, visits, 0).state
    case HealthChecks(visits) => ProbedFrom(limits, s, visits, 0)
  }

  function Run(limits: Limits, s: State, ops: seq<Operation>): (r: State)
    requires WellFormed(s) && AllCover(limits, |s.configs|, ops)
    ensures WellFormed(r) && r.configs == s.configs
    decreases |ops|
  {
    if ops == [] then s else Run(limits, Done(limits, s, ops[0]), ops[1..])
  }

  /** A manager starts out sound: its endpoints have not been tried and no circuit is open. */
  lemma NewManagerIsSound(limits: Limits, s: State)
    requires limits.threshold >= 1 && WellFormed(s) && UrlsDiffer(s) && s.circuits == map[]
    requires forall h | h in s.healths :: h == UNTRIED
    ensures IsSound(limits, s)
  {}

  /** Run one after the other, operations leave no circuit to an endpoint that is not unhealthy. */
  lemma {:induction false} SequentialRunsAreSound(limits: Limits, s: State, ops: seq<Operation>)
    requires IsSound(limits, s) && AllCover(limits, |s.configs|, ops)
    ensures IsSound(limits, Run(limits, s, ops))
    decreases |ops|
  {
    if ops != [] {
      var op := ops[0];
      if op.RpcCall? {
        CallIsSound(limits, s, op.visits, 0);
      } else {
        ProbesAreSound(limits, s, op.visits, 0);
      }
      SequentialRunsAreSound(limits, Done(limits, s, op), ops[1..]);
    }
  }

  /** A call passes over an unhealthy endpoint that is not the last, whether or not its circuit has expired. */
  lemma CallPassesOver(limits: Limits, s: State, visits: seq<Visit>, k: nat)
    requires Ready(limits, s, visits) && UrlsDiffer(s) && k < |visits| - 1 && s.healths[k].status == Unhealthy
    ensures CallFrom(limits, s, visits, 0).state.healths[k] == s.healths[k]
  {
    CallReturnsTheFirstAnswer(limits, s, visits);
    OnlyTheLastEqualsLast(s, k);
    assert !IsEligible(s, k, visits[k].checkedAt);
  }

  /** So without health checks such an endpoint is never used again: calls alone recover no endpoint but the last. */
  lemma {:induction false} CallsAloneRecoverOnlyTheLast(limits: Limits, s: State, ops: seq<Operation>, k: nat)
    requires WellFormed(s) && AllCover(limits, |s.configs|, ops) && forall n | 0 <= n < |ops| :: ops[n].RpcCall?
    requires UrlsDiffer(s) && k < |s.configs| - 1 && s.healths[k].status == Unhealthy
    ensures Run(limits, s, ops).healths[k] == s.healths[k]
    decreases |ops|
  {
    if ops != [] {
      CallPassesOver(limits, s, ops[0].visits, k);
      CallsAloneRecoverOnlyTheLast(limits, Done(limits, s, ops[0]), ops[1..], k);
    }
  }
}
