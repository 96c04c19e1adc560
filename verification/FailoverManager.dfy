/**
 The failover manager as the source keeps it: endpoint objects whose fields change in place, and a dictionary of
 circuits.
 */
module FailoverManagers {
  import opened Options
  import opened Failover

  class Endpoint {
    const config: Config
    var status: EndpointStatus
    var lastSuccess: Option<int>
    var lastFailure: Option<int>
    var consecutiveFailures: nat
    var totalRequests: nat
    var successfulRequests: nat
    var avgLatency: real

    constructor (config: Config)
      ensures this.config == config && View() == UNTRIED
    {
      this.config := config;
      status, lastSuccess, lastFailure := Unknown, None, None;
      consecutiveFailures, totalRequests, successfulRequests, avgLatency := 0, 0, 0, 0.0;
    }

    function View(): Health
      reads this
    {
      Health(status, consecutiveFailures, totalRequests, successfulRequests, lastSuccess, lastFailure, avgLatency)
    }
  }

  // ---------- the order of the endpoints ----------

  predicate InPriorityOrder(es: seq<Endpoint>) {
    forall i, j | 0 <= i < j < |es| :: es[i].config.priority <= es[j].config.priority
  }

  /** `sorted` is stable: an endpoint goes before later ones of its own priority. */
  function Placed(e: Endpoint, es: seq<Endpoint>): (r: seq<Endpoint>)
    ensures |r| == |es| + 1
  {
    if es == [] || e.config.priority <= es[0].config.priority then [e] + es else [es[0]] + Placed(e, es[1..])
  }

  function ByPriority(es: seq<Endpoint>): (r: seq<Endpoint>)
    ensures |r| == |es|
  {
    if es == [] then [] else Placed(es[0], ByPriority(es[1..]))
  }

  /** The endpoints of one priority, in the order in which they come. */
  function OfPriority(es: seq<Endpoint>, p: int): seq<Endpoint> {
    if es == [] then []
    else if es[0].config.priority == p then [es[0]] + OfPriority(es[1..], p)
    else OfPriority(es[1..], p)
  }

  lemma {:induction false} PlacedInOrder(e: Endpoint, es: seq<Endpoint>)
    requires InPriorityOrder(es)
    ensures InPriorityOrder(Placed(e, es))
    ensures Placed(e, es)[0] == e || (es != [] && Placed(e, es)[0] == es[0])
  {
    if es != [] && e.config.priority > es[0].config.priority {
      PlacedInOrder(e, es[1..]);
    }
  }

  lemma {:induction false} PlacedAdds(e: Endpoint, es: seq<Endpoint>)
    ensures multiset(Placed(e, es)) == multiset(es) + multiset{e}
  {
    if es != [] && e.config.priority > es[0].config.priority {
      PlacedAdds(e, es[1..]);
      assert es == [es[0]] + es[1..];
    }
  }

  lemma {:induction false} PlacedIsStable(e: Endpoint, es: seq<Endpoint>, p: int)
    requires InPriorityOrder(es)
    ensures OfPriority(Placed(e, es), p) == OfPriority([e] + es, p)
  {
    assert ([e] + es)[1..] == es;
    if es != [] && e.config.priority > es[0].config.priority {
      PlacedIsStable(e, es[1..], p);
      assert ([e] + es[1..])[1..] == es[1..];
      assert Placed(e, es)[1..] == Placed(e, es[1..]);
    }
  }

  lemma {:induction false} SortedInOrder(es: seq<Endpoint>)
    ensures InPriorityOrder(ByPriority(es)) && multiset(ByPriority(es)) == multiset(es)
  {
    if es != [] {
      SortedInOrder(es[1..]);
      PlacedInOrder(es[0], ByPriority(es[1..]));
      PlacedAdds(es[0], ByPriority(es[1..]));
      assert es == [es[0]] + es[1..];
    }
  }

  /** The endpoints in priority order: a rearrangement that keeps the given order within each priority. */
  lemma {:induction false} EndpointsAreInPriorityOrder(es: seq<Endpoint>, p: int)
    ensures InPriorityOrder(ByPriority(es)) && multiset(ByPriority(es)) == multiset(es)
    ensures OfPriority(ByPriority(es), p) == OfPriority(es, p)
  {
    SortedInOrder(es);
    if es != [] {
      var rest := ByPriority(es[1..]);
      EndpointsAreInPriorityOrder(es[1..], p);
      PlacedIsStable(es[0], rest, p);
      assert ([es[0]] + rest)[1..] == rest;
    }
  }

  predicate Distinct(es: seq<Endpoint>) {
    forall i, j | 0 <= i < j < |es| :: es[i] != es[j]
  }

  /** No object is listed twice. */
  ghost predicate NoRepeats(es: seq<Endpoint>) {
    forall e | e in es :: multiset(es)[e] == 1
  }

  // ---------- the manager ----------

  class BitcoinRpcFailoverManager {
    const limits: Limits
    const endpoints: seq<Endpoint>
    var circuitOpenUntil: map<string, int>

    ghost predicate Valid() {
      endpoints != [] && Distinct(endpoints) && limits.maxRetries >= 1 && limits.threshold >= 1
    }

    /** The manager and its endpoints hold what `s` says. */
    ghost predicate Holds(s: State)
      reads this, endpoints
    {
      && |s.configs| == |s.healths| == |endpoints|
      && (forall k {:trigger endpoints[k]} | 0 <= k < |endpoints| ::
            endpoints[k].config == s.configs[k] && endpoints[k].View() == s.healths[k])
      && circuitOpenUntil == s.circuits
    }

    constructor (endpoints: seq<Endpoint>, limits: Limits)
      ensures this.endpoints == ByPriority(endpoints) && this.limits == limits && circuitOpenUntil == map[]
    {
      this.endpoints := ByPriority(endpoints);
      this.limits := limits;
      circuitOpenUntil := map[];
    }

    /** The constructor's checks; `None` is the `ValueError`. */
    static method Create(endpoints: seq<Endpoint>, maxRetries: int, threshold: int, timeout: int)
      returns (m: Option<BitcoinRpcFailoverManager>)
      requires NoRepeats(endpoints)
      ensures m.None? <==> endpoints == [] || maxRetries < 1 || threshold < 1
      ensures m.Some? ==>
                && fresh(m.value) && m.value.Valid() && m.value.endpoints == ByPriority(endpoints)
                && m.value.limits == Limits(maxRetries, threshold, timeout) && m.value.circuitOpenUntil == map[]
    {
      if endpoints == [] || maxRetries < 1 || threshold < 1 {
        return None;
      }
      SortingKeepsThemDistinct(endpoints);
      var manager := new BitcoinRpcFailoverManager(endpoints, Limits(maxRetries, threshold, timeout));
      m := Some(manager);
    }

    method MarkEndpointUnhealthy(i: nat, now: int, openedAt: int, ghost s: State)
      requires Valid() && Holds(s) && i < |endpoints|
      modifies this, endpoints[i]
      ensures Holds(Apply(limits, s, Mark(i, now, openedAt)))
    {
      var endpoint := endpoints[i];
      endpoint.consecutiveFailures := endpoint.consecutiveFailures + 1;
      endpoint.lastFailure := Some(now);
      if endpoint.consecutiveFailures >= limits.threshold {
        endpoint.status := Unhealthy;
        circuitOpenUntil := circuitOpenUntil[endpoint.config.url := openedAt + limits.timeout];
      } else {
        endpoint.status := Degraded;
      }
    }

    method IsCircuitOpen(i: nat, now: int, ghost s: State) returns (open: bool)
      requires Valid() && Holds(s) && i < |endpoints|
      modifies this
      ensures open == CircuitIsOpen(s.circuits, s.configs[i].url, now)
      ensures Holds(s.(circuits := Swept(s.circuits, s.configs[i].url, now)))
    {
      var url := endpoints[i].config.url;
      if url !in circuitOpenUntil {
        return false;
      }
      if now < circuitOpenUntil[url] {
        return true;
      }
      circuitOpenUntil := circuitOpenUntil - {url};
      return false;
    }

    /** The retry loop of `_rpc_call`; no answer is the last attempt's exception. */
    static method Post(replies: seq<Reply>, attempts: nat) returns (answer: Option<Option<string>>)
      requires 1 <= attempts <= |replies|
      ensures answer == FirstAnswer(replies, attempts)
    {
      for attempt := 0 to attempts
        invariant FirstAnswer(replies, attempt) == None
      {
        if replies[attempt].Answer? {
          FirstAnswerStays(replies, attempt + 1, attempts);
          return Some(replies[attempt].result);
        }
      }
      return None;
    }

    method RecordSuccess(i: nat, now: int, ghost s: State)
      requires Valid() && Holds(s) && i < |endpoints|
      modifies endpoints[i]
      ensures Holds(Apply(limits, s, Succeed(i, now)))
    {
      var endpoint := endpoints[i];
      endpoint.successfulRequests := endpoint.successfulRequests + 1;
      endpoint.totalRequests := endpoint.totalRequests + 1;
      endpoint.lastSuccess := Some(now);
      endpoint.consecutiveFailures := 0;
      if endpoint.status != Healthy {
        endpoint.status := Healthy;
      }
    }

    /** The two reasons for passing over an endpoint. */
    method IsSkipped(i: nat, v: Visit, ghost s: State) returns (skip: bool)
      requires Valid() && Holds(s) && i < |endpoints|
      modifies this
      ensures skip == !IsEligible(s, i, v.checkedAt)
      ensures Holds(s.(circuits := Swept(s.circuits, s.configs[i].url, v.checkedAt)))
    {
      var endpoint, last := endpoints[i], endpoints[|endpoints| - 1];
      skip := IsCircuitOpen(i, v.checkedAt, s);
      if !skip && endpoint.status == Unhealthy {
        skip := !(endpoint.config == last.config && endpoint.View() == last.View());
      }
    }

    /** The body of the failover loop; `answer` is what the call returns there and then. */
    method Try(i: nat, v: Visit, ghost s: State) returns (answer: Option<Option<string>>)
      requires Valid() && Holds(s) && i < |endpoints| && limits.maxRetries <= |v.replies|
      modifies this, endpoints[i]
      ensures answer == Tried(limits, s, i, v).answer
      ensures Holds(Tried(limits, s, i, v).state)
    {
      ghost var swept := s.(circuits := Swept(s.circuits, s.configs[i].url, v.checkedAt));
      var skip := IsSkipped(i, v, s);
      if skip {
        return None;
      }
      answer := Post(v.replies, limits.maxRetries);
      if answer.Some? {
        RecordSuccess(i, v.finishedAt, swept);
      } else {
        endpoints[i].totalRequests := endpoints[i].totalRequests + 1;
        MarkEndpointUnhealthy(i, v.finishedAt, v.openedAt, Apply(limits, swept, CountFailure(i)));
      }
    }

    /** No answer is the exception that all endpoints failed. */
    method RpcCall(visits: seq<Visit>, ghost s: State) returns (answer: Option<Option<string>>)
      requires Valid() && Holds(s) && Ready(limits, s, visits)
      modifies this, endpoints
      ensures answer == CallFrom(limits, s, visits, 0).answer
      ensures Holds(CallFrom(limits, s, visits, 0).state)
    {
      ghost var now := s;
      for i := 0 to |endpoints|
        invariant Holds(now) && Ready(limits, now, visits)
        invariant CallFrom(limits, s, visits, 0) == CallFrom(limits, now, visits, i)
      {
        answer := Try(i, visits[i], now);
        now := Tried(limits, now, i, visits[i]).state;
        if answer.Some? {
          return;
        }
      }
      answer := None;
    }

    method CheckHealth(i: nat, v: Visit, ghost s: State)
      requires Valid() && Holds(s) && i < |endpoints| && 1 <= |v.replies|
      modifies this, endpoints[i]
      ensures Holds(Probed(limits, s, i, v))
    {
      var answer := Post(v.replies, 1);
      if answer.Some? && answer.value.Some? {
        var endpoint := endpoints[i];
        endpoint.status := Healthy;
        endpoint.lastSuccess := Some(v.finishedAt);
        endpoint.consecutiveFailures := 0;
        circuitOpenUntil := circuitOpenUntil - {endpoint.config.url};
        endpoint.avgLatency :=
          if endpoint.avgLatency == 0.0 then v.latency else endpoint.avgLatency * 0.9 + v.latency * 0.1;
      } else {
        MarkEndpointUnhealthy(i, v.finishedAt, v.openedAt, s);
      }
    }

    method PerformHealthChecks(visits: seq<Visit>, ghost s: State)
      requires Valid() && Holds(s) && |visits| == |endpoints| && forall v | v in visits :: 1 <= |v.replies|
      modifies this, endpoints
      ensures Holds(ProbedFrom(limits, s, visits, 0))
    {
      ghost var now := s;
      for i := 0 to |endpoints|
        invariant Holds(now)
        invariant ProbedFrom(limits, s, visits, 0) == ProbedFrom(limits, now, visits, i)
      {
        CheckHealth(i, visits[i], now);
        now := Probed(limits, now, i, visits[i]);
      }
    }
  }

  lemma {:induction false} FirstAnswerStays(replies: seq<Reply>, m: nat, n: nat)
    requires m <= n <= |replies| && FirstAnswer(replies, m).Some?
    ensures FirstAnswer(replies, n) == FirstAnswer(replies, m)
  {
    if m < n {
      FirstAnswerStays(replies, m, n - 1);
    }
  }

  /** An object that stands in two places is counted twice. */
  lemma PlacesDiffer(es: seq<Endpoint>, i: nat, j: nat)
    requires NoRepeats(es) && i < j < |es|
    ensures es[i] != es[j]
  {
    var front, back := es[..j], es[j..];
    assert es == front + back;
    assert front[i] in multiset(front) && back[0] in multiset(back);
    assert multiset(es) == multiset(front) + multiset(back);
    assert es[i] in es && es[i] == front[i] && es[j] == back[0];
  }

  lemma SortingKeepsThemDistinct(es: seq<Endpoint>)
    requires NoRepeats(es)
    ensures Distinct(ByPriority(es))
  {
    var sorted := ByPriority(es);
    SortedInOrder(es);
    assert forall e | e in sorted :: e in multiset(sorted);
    forall i, j | 0 <= i < j < |sorted|
      ensures sorted[i] != sorted[j]
    {
      PlacesDiffer(sorted, i, j);
    }
  }
}
