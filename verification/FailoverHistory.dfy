/**
 What the updates so far, and the clock, say about an endpoint: every field of its record, until when its circuit is
 open, and when it may be called.
 */
module FailoverHistory {
  import opened Options
  import opened Failover

  // ---------- the record of an endpoint ----------

  function Earlier(actions: seq<Action>): seq<Action>
    requires actions != []
  {
    actions[..|actions| - 1]
  }

  function Latest(actions: seq<Action>): Action
    requires actions != []
  {
    actions[|actions| - 1]
  }

  /** How many calls endpoint `i` has answered, and how many have failed. */
  function AnsweredCalls(actions: seq<Action>, i: nat): nat {
    if actions == [] then 0
    else AnsweredCalls(Earlier(actions), i) + (if Latest(actions).Succeed? && Latest(actions).i == i then 1 else 0)
  }

  function FailedCalls(actions: seq<Action>, i: nat): nat {
    if actions == [] then 0
    else FailedCalls(Earlier(actions), i) + (if Latest(actions).CountFailure? && Latest(actions).i == i then 1 else 0)
  }

  /** The status after the latest mark or answer. */
  function LatestStatus(limits: Limits, actions: seq<Action>, i: nat, before: Health): EndpointStatus {
    if actions == [] then before.status
    else
      match Latest(actions)
      case Mark(k, _, _) =>
        if k != i then LatestStatus(limits, Earlier(actions), i, before)
        else if MarksInARow(actions, i, before.consecutiveFailures) < limits.threshold then Degraded
        else Unhealthy
      case Recover(k, _, _) => if k == i then Healthy else LatestStatus(limits, Earlier(actions), i, before)
      case Succeed(k, _) => if k == i then Healthy else LatestStatus(limits, Earlier(actions), i, before)
      case _ => LatestStatus(limits, Earlier(actions), i, before)
  }

  /** When the endpoint last answered, a call or a health check, and when it was last marked. */
  function LatestAnswer(actions: seq<Action>, i: nat, before: Option<int>): Option<int> {
    if actions == [] then before
    else
      match Latest(actions)
      case Recover(k, now, _) => if k == i then Some(now) else LatestAnswer(Earlier(actions), i, before)
      case Succeed(k, now) => if k == i then Some(now) else LatestAnswer(Earlier(actions), i, before)
      case _ => LatestAnswer(Earlier(actions), i, before)
  }

  function LatestMark(actions: seq<Action>, i: nat, before: Option<int>): Option<int> {
    if actions == [] then before
    else
      var a := Latest(actions);
      if a.Mark? && a.i == i then Some(a.now) else LatestMark(Earlier(actions), i, before)
  }

  /** Nine parts of the latency so far and one part of the new one, for every health check that was answered. */
  function RollingLatency(actions: seq<Action>, i: nat, before: real): real {
    if actions == [] then before
    else
      var earlier := RollingLatency(Earlier(actions), i, before);
      var a := Latest(actions);
      if !a.Recover? || a.i != i then earlier
      else if earlier == 0.0 then a.latency
      else (9.0 * earlier + a.latency) / 10.0
  }

  /** Until when the circuit is open: a mark that reaches the threshold opens it for the time-out. */
  function OpenUntil(limits: Limits, actions: seq<Action>, s: State, i: nat): Option<int>
    requires WellFormed(s) && i < |s.configs|
    decreases |actions|
  {
    var url := s.configs[i].url;
    if actions == [] then (if url in s.circuits then Some(s.circuits[url]) else None)
    else
      match Latest(actions)
      case Mark(k, _, openedAt) =>
        if k == i && MarksInARow(actions, i, s.healths[i].consecutiveFailures) >= limits.threshold
        then Some(openedAt + limits.timeout)
        else OpenUntil(limits, Earlier(actions), s, i)
      case Recover(k, _, _) => if k == i then None else OpenUntil(limits, Earlier(actions), s, i)
      case DropCircuit(dropped) => if dropped == url then None else OpenUntil(limits, Earlier(actions), s, i)
      case _ => OpenUntil(limits, Earlier(actions), s, i)
  }

  /** `h` and the circuit are what the history of updates from `s` on makes of endpoint `i`. */
  predicate IsHistory(limits: Limits, s: State, actions: seq<Action>, i: nat, r: State)
    requires WellFormed(s) && i < |s.configs|
  {
    WellFormed(r) && r.configs == s.configs &&
    var was, h, url := s.healths[i], r.healths[i], s.configs[i].url;
    && h.consecutiveFailures == MarksInARow(actions, i, was.consecutiveFailures)
    && h.status == LatestStatus(limits, actions, i, was)
    && h.successfulRequests == was.successfulRequests + AnsweredCalls(actions, i)
    && h.totalRequests == was.totalRequests + AnsweredCalls(actions, i) + FailedCalls(actions, i)
    && h.lastSuccess == LatestAnswer(actions, i, was.lastSuccess)
    && h.lastFailure == LatestMark(actions, i, was.lastFailure)
    && h.latency == RollingLatency(actions, i, was.latency)
    && (if url in r.circuits then Some(r.circuits[url]) else None) == OpenUntil(limits, actions, s, i)
  }

  lemma OneMoreUpdate(limits: Limits, s: State, actions: seq<Action>, i: nat, r: State)
    requires WellFormed(s) && UrlsDiffer(s) && i < |s.configs| && actions != [] && Possible(s, Latest(actions))
    requires IsHistory(limits, s, Earlier(actions), i, r)
    ensures IsHistory(limits, s, actions, i, Apply(limits, r, Latest(actions)))
  {
    var a := Latest(actions);
    if !a.DropCircuit? && a.i != i {
      assert s.configs[a.i].url != s.configs[i].url;
    }
  }

  /** For every interleaving of updates, an endpoint's record and its circuit are what their history says. */
  lemma {:induction false} HistoryDecides(limits: Limits, s: State, actions: seq<Action>, i: nat)
    requires AllPossible(s, actions) && UrlsDiffer(s) && i < |s.configs|
    ensures IsHistory(limits, s, actions, i, Interleaved(limits, s, actions))
    decreases |actions|
  {
    if actions != [] {
      var first, last := Earlier(actions), Latest(actions);
      assert actions == first + [last];
      HistoryDecides(limits, s, first, i);
      InterleavedInParts(limits, s, first, last);
      OneMoreUpdate(limits, s, actions, i, Interleaved(limits, s, first));
    }
  }

  /** For an endpoint that starts untried this is all there is to its record. */
  lemma HistoryOfNewEndpoint(limits: Limits, s: State, actions: seq<Action>, i: nat)
    requires AllPossible(s, actions) && UrlsDiffer(s) && i < |s.configs| && s.healths[i] == UNTRIED
    ensures var r := Interleaved(limits, s, actions);
            i < |r.healths| &&
            var h := r.healths[i];
            && h.consecutiveFailures == MarksInARow(actions, i, 0)
            && h.successfulRequests == AnsweredCalls(actions, i)
            && h.totalRequests == AnsweredCalls(actions, i) + FailedCalls(actions, i)
            && h.lastSuccess == LatestAnswer(actions, i, None) && h.lastFailure == LatestMark(actions, i, None)
            && h.latency == RollingLatency(actions, i, 0.0)
            && (actions == [] ==> h.status == Unknown)
  {
    HistoryDecides(limits, s, actions, i);
  }

  // ---------- who is called, and until when not ----------

  /**
   An endpoint may be called unless its circuit has been opened and has not expired; while it is unhealthy, only if it
   is the last.
   */
  lemma EligibleExactlyWhen(s: State, k: nat, now: int)
    requires WellFormed(s) && UrlsDiffer(s) && k < |s.configs|
    ensures var url := s.configs[k].url;
            IsEligible(s, k, now) <==>
            && (url in s.circuits ==> now >= s.circuits[url])
            && (s.healths[k].status == Unhealthy ==> k == |s.configs| - 1)
  {
    OnlyTheLastEqualsLast(s, k);
  }

  /** The comparison is one of values: an unhealthy endpoint that equals the last one in every field is called too. */
  lemma TwinOfTheLastIsEligible(s: State, k: nat, now: int)
    requires WellFormed(s) && k < |s.configs| && s.healths[k].status == Unhealthy
    ensures var last := |s.configs| - 1;
            IsEligible(s, k, now) <==>
            && (s.configs[k].url in s.circuits ==> now >= s.circuits[s.configs[k].url])
            && s.configs[k] == s.configs[last] && s.healths[k] == s.healths[last]
  {}

  /** The answer is that of the first attempt that is answered, if any of the allowed ones is. */
  lemma {:induction false} AnswerIsTheFirst(replies: seq<Reply>, attempts: nat)
    requires attempts <= |replies|
    ensures FirstAnswer(replies, attempts) == None <==> forall m | 0 <= m < attempts :: replies[m] == Failed
    ensures forall m | 0 <= m < attempts && replies[m].Answer? && forall n | 0 <= n < m :: replies[n] == Failed ::
              FirstAnswer(replies, attempts) == Some(replies[m].result)
  {
    if attempts > 0 {
      AnswerIsTheFirst(replies, attempts - 1);
    }
  }

  /** A call from endpoint `i` on leaves the endpoints before it alone. */
  lemma {:induction false} EarlierAreLeftAlone(limits: Limits, s: State, visits: seq<Visit>, i: nat, k: nat)
    requires Ready(limits, s, visits) && UrlsDiffer(s) && k < i <= |visits|
    ensures SameAt(s, CallFrom(limits, s, visits, i).state, k)
    decreases |visits| - i
  {
    if i < |visits| {
      var t := Tried(limits, s, i, visits[i]);
      TryingTouchesOne(limits, s, i, visits[i], k);
      if t.answer.None? {
        EarlierAreLeftAlone(limits, t.state, visits, i + 1, k);
      }
    }
  }

  /** A call that endpoint `k` fails for the last time allowed opens its circuit, for the time-out. */
  lemma {:induction false} FailingCallOpensTheCircuit(limits: Limits, s: State, visits: seq<Visit>, i: nat, k: nat)
    requires Ready(limits, s, visits) && UrlsDiffer(s) && i <= |visits|
    requires i <= k < FirstToAnswer(limits, s, visits, i)
    requires IsEligible(s, k, visits[k].checkedAt) && s.healths[k].consecutiveFailures + 1 >= limits.threshold
    ensures var r, url := CallFrom(limits, s, visits, i).state, s.configs[k].url;
            && r.healths[k].status == Unhealthy
            && url in r.circuits && r.circuits[url] == visits[k].openedAt + limits.timeout
    decreases |visits| - i
  {
    var t := Tried(limits, s, i, visits[i]).state;
    if i == k {
      EarlierAreLeftAlone(limits, t, visits, i + 1, k);
    } else {
      forall n | 0 <= n < |visits| && n != i
        ensures SameAt(s, t, n)
      {
        TryingTouchesOne(limits, s, i, visits[i], n);
      }
      EligibilityIsKept(limits, s, t, visits, i + 1);
      EligibilityIsLocal(s, t, k, visits[k]);
      FailingCallOpensTheCircuit(limits, t, visits, i + 1, k);
    }
  }

  /** So after such a call the endpoint may be called exactly if it is the last and the time-out has passed. */
  lemma ClosedOutForTheTimeout(limits: Limits, s: State, visits: seq<Visit>, k: nat, now: int)
    requires Ready(limits, s, visits) && UrlsDiffer(s) && k < FirstToAnswer(limits, s, visits, 0)
    requires IsEligible(s, k, visits[k].checkedAt) && s.healths[k].consecutiveFailures + 1 >= limits.threshold
    ensures IsEligible(CallFrom(limits, s, visits, 0).state, k, now) <==>
            k == |s.configs| - 1 && now >= visits[k].openedAt + limits.timeout
  {
    FailingCallOpensTheCircuit(limits, s, visits, 0, k);
    EligibleExactlyWhen(CallFrom(limits, s, visits, 0).state, k, now);
  }

  // ---------- a round of health checks ----------

  /** The one request of the check is answered, with a result. */
  predicate Passes(v: Visit) {
    v.replies != [] && v.replies[0].Answer? && v.replies[0].result.Some?
  }

  /** What a check leaves of an endpoint and its circuit. */
  predicate IsChecked(limits: Limits, s: State, v: Visit, k: nat, r: State)
    requires WellFormed(s) && WellFormed(r) && k < |s.configs| == |r.configs|
  {
    var was, h, url := s.healths[k], r.healths[k], s.configs[k].url;
    h.totalRequests == was.totalRequests && h.successfulRequests == was.successfulRequests &&
    if Passes(v) then
      && h.status == Healthy && h.consecutiveFailures == 0 && h.lastSuccess == Some(v.finishedAt)
      && h.lastFailure == was.lastFailure && url !in r.circuits
      && 10.0 * h.latency == if was.latency == 0.0 then 10.0 * v.latency else 9.0 * was.latency + v.latency
    else
      && h.consecutiveFailures == was.consecutiveFailures + 1 && h.lastFailure == Some(v.finishedAt)
      && h.lastSuccess == was.lastSuccess && h.latency == was.latency
      && if h.consecutiveFailures < limits.threshold
         then h.status == Degraded && (url in r.circuits <==> url in s.circuits)
              && (url in s.circuits ==> r.circuits[url] == s.circuits[url])
         else h.status == Unhealthy && url in r.circuits && r.circuits[url] == v.openedAt + limits.timeout
  }

  lemma CheckedNow(limits: Limits, s: State, k: nat, v: Visit)
    requires WellFormed(s) && k < |s.configs| && 1 <= |v.replies|
    ensures IsChecked(limits, s, v, k, Probed(limits, s, k, v))
  {
    AnswerIsTheFirst(v.replies, 1);
  }

  lemma {:induction false} EarlierAreNotChecked(limits: Limits, s: State, visits: seq<Visit>, i: nat, k: nat)
    requires WellFormed(s) && UrlsDiffer(s) && |visits| == |s.configs| && k < i <= |visits|
    requires forall v | v in visits :: 1 <= |v.replies|
    ensures SameAt(s, ProbedFrom(limits, s, visits, i), k)
    decreases |visits| - i
  {
    if i < |visits| {
      ProbingTouchesOne(limits, s, i, visits[i], k);
      EarlierAreNotChecked(limits, Probed(limits, s, i, visits[i]), visits, i + 1, k);
    }
  }

  /** A round of health checks does this to every endpoint. */
  lemma {:induction false} RoundChecksEveryEndpoint(limits: Limits, s: State, visits: seq<Visit>, i: nat, k: nat)
    requires WellFormed(s) && UrlsDiffer(s) && |visits| == |s.configs| && i <= k < |visits|
    requires forall v | v in visits :: 1 <= |v.replies|
    ensures IsChecked(limits, s, visits[k], k, ProbedFrom(limits, s, visits, i))
    decreases |visits| - i
  {
    var t := Probed(limits, s, i, visits[i]);
    if i == k {
      CheckedNow(limits, s, k, visits[k]);
      EarlierAreNotChecked(limits, t, visits, i + 1, k);
    } else {
      ProbingTouchesOne(limits, s, i, visits[i], k);
      RoundChecksEveryEndpoint(limits, t, visits, i + 1, k);
    }
  }
}
