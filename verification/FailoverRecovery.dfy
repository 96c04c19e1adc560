/** Which endpoints calls alone can bring back: the last one, once its circuit has expired, and no other. */
module FailoverRecovery {
  import opened Options
  import opened Failover

  /** An unhealthy endpoint whose circuit is not open may be called exactly when it is the last. */
  lemma UnhealthyIsEligibleExactlyWhenLast(s: State, k: nat, now: int)
    requires WellFormed(s) && UrlsDiffer(s) && k < |s.configs|
    requires s.healths[k].status == Unhealthy && !CircuitIsOpen(s.circuits, s.configs[k].url, now)
    ensures IsEligible(s, k, now) <==> k == |s.configs| - 1
  {
    OnlyTheLastEqualsLast(s, k);
  }

  /** As many attempts as there are, all of them without an answer, or all of them with one. */
  function Replies(attempts: nat, reply: Reply): (r: seq<Reply>)
    ensures |r| == attempts && forall i | 0 <= i < attempts :: r[i] == reply
  {
    if attempts == 0 then [] else Replies(attempts - 1, reply) + [reply]
  }

  lemma {:induction false} FirstOfReplies(attempts: nat, reply: Reply, n: nat)
    requires n <= attempts
    ensures FirstAnswer(Replies(attempts, reply), n) ==
            if n > 0 && reply.Answer? then Some(reply.result) else None
  {
    if n > 0 {
      FirstOfReplies(attempts, reply, n - 1);
    }
  }

  /** When the circuit of the last endpoint has expired. */
  function Expiry(s: State): int
    requires WellFormed(s) && |s.configs| > 0
  {
    var url := s.configs[|s.configs| - 1].url;
    if url in s.circuits then s.circuits[url] else 0
  }

  /** Every endpoint is found at that time; the others fail, and the last one replies with `reply`. */
  function VisitsAtExpiry(limits: Limits, s: State, reply: Reply, n: nat): (visits: seq<Visit>)
    requires WellFormed(s) && n <= |s.configs| && |s.configs| > 0
    ensures |visits| == n
    ensures forall i | 0 <= i < n ::
              var r := if i == |s.configs| - 1 then reply else Failed;
              visits[i] == Visit(Expiry(s), Replies(limits.maxRetries, r), 0, 0, 0.0)
  {
    if n == 0 then []
    else
      VisitsAtExpiry(limits, s, reply, n - 1) +
      [Visit(Expiry(s), Replies(limits.maxRetries, if n == |s.configs| then reply else Failed), 0, 0, 0.0)]
  }

  /** In such a call the last endpoint gets its turn, and what becomes of it is decided by its reply. */
  lemma LastIsUsedAgain(limits: Limits, s: State, reply: Reply)
    requires WellFormed(s) && UrlsDiffer(s) && |s.configs| > 0 && s.healths[|s.configs| - 1].status == Unhealthy
    ensures var k, visits := |s.configs| - 1, VisitsAtExpiry(limits, s, reply, |s.configs|);
            && Ready(limits, s, visits)
            && CallFrom(limits, s, visits, 0).state.healths[k] ==
               if limits.maxRetries > 0 && reply.Answer? then Succeeded(s.healths[k], 0)
               else Charged(limits, s.healths[k], 0)
  {
    var k, visits := |s.configs| - 1, VisitsAtExpiry(limits, s, reply, |s.configs|);
    forall i | 0 <= i < |visits|
      ensures Answers(limits, s, i, visits[i]) ==> i == k && limits.maxRetries > 0 && reply.Answer?
    {
      FirstOfReplies(limits.maxRetries, if i == k then reply else Failed, limits.maxRetries);
    }
    UnhealthyIsEligibleExactlyWhenLast(s, k, Expiry(s));
    FirstOfReplies(limits.maxRetries, reply, limits.maxRetries);
    CallReturnsTheFirstAnswer(limits, s, visits);
  }

  /** A call makes use of an unhealthy endpoint, for some behaviour of clock and network, exactly if it is the last. */
  lemma UsedAgainExactlyWhenLast(limits: Limits, s: State, k: nat)
    requires WellFormed(s) && UrlsDiffer(s) && k < |s.configs| && s.healths[k].status == Unhealthy
    ensures (exists visits ::
               Ready(limits, s, visits) && CallFrom(limits, s, visits, 0).state.healths[k] != s.healths[k]) <==>
            k == |s.configs| - 1
  {
    if k == |s.configs| - 1 {
      var visits := VisitsAtExpiry(limits, s, Failed, |s.configs|);
      LastIsUsedAgain(limits, s, Failed);
      assert Ready(limits, s, visits) && CallFrom(limits, s, visits, 0).state.healths[k] != s.healths[k];
    } else {
      forall visits | Ready(limits, s, visits)
        ensures CallFrom(limits, s, visits, 0).state.healths[k] == s.healths[k]
      {
        CallPassesOver(limits, s, visits, k);
      }
    }
  }

  /** A run of calls that leaves endpoint `k` healthy. */
  ghost predicate RecoversBy(limits: Limits, s: State, k: nat, ops: seq<Operation>)
    requires WellFormed(s) && k < |s.configs|
  {
    && AllCover(limits, |s.configs|, ops) && (forall n | 0 <= n < |ops| :: ops[n].RpcCall?)
    && Run(limits, s, ops).healths[k].status == Healthy
  }

  lemma LastRecovers(limits: Limits, s: State, k: nat)
    requires WellFormed(s) && UrlsDiffer(s) && limits.maxRetries >= 1
    requires k == |s.configs| - 1 && s.healths[k].status == Unhealthy
    ensures exists ops :: RecoversBy(limits, s, k, ops)
  {
    var visits := VisitsAtExpiry(limits, s, Answer(None), |s.configs|);
    var ops := [RpcCall(visits)];
    LastIsUsedAgain(limits, s, Answer(None));
    assert ops[1..] == [];
    assert Run(limits, s, ops) == Done(limits, s, ops[0]);
    assert RecoversBy(limits, s, k, ops);
  }

  /** So runs of calls alone can recover an unhealthy endpoint exactly if it is the last. */
  lemma RecoversExactlyWhenLast(limits: Limits, s: State, k: nat)
    requires WellFormed(s) && UrlsDiffer(s) && limits.maxRetries >= 1
    requires k < |s.configs| && s.healths[k].status == Unhealthy
    ensures (exists ops :: RecoversBy(limits, s, k, ops)) <==> k == |s.configs| - 1
  {
    if k == |s.configs| - 1 {
      LastRecovers(limits, s, k);
    } else {
      forall ops: seq<Operation> | AllCover(limits, |s.configs|, ops) && forall n | 0 <= n < |ops| :: ops[n].RpcCall?
        ensures !RecoversBy(limits, s, k, ops)
      {
        CallsAloneRecoverOnlyTheLast(limits, s, ops, k);
      }
    }
  }
}
