/** Runs of the DAO, from its founding on, in which a guarantee ends; and the limit on active proposals. */
module GovernanceWitnesses {
  import opened Options
  import opened Words
  import T = Treasuries
  import opened Proposals
  import opened Governance
  import opened GovernanceRuns
  import opened GovernanceQuorum

  /** A root that is larger for larger stakes, and a parser that reads every number as 1. */
  function Root(stake: uint64): real {
    if stake <= 1000 then 1.0 else 100.0
  }

  function Parse(text: string): Option<uint64> {
    Some(1)
  }

  const ENV := Env(Root, Parse)

  /** One more action of a run. */
  lemma Go(env: Env, acts: seq<Action>, d: Dao, effects: seq<string>, a: Action)
    returns (acts': seq<Action>, d': Dao, effects': seq<string>)
    requires Run(env, 0, acts).dao == d && Run(env, 0, acts).effects == effects
    ensures acts' == acts + [a] && d' == NextDao(env, d, a)
    ensures effects' ==
            if a.Execute? && TakesEffect(d, env, a.id, a.allocationId, a.clock) then effects + [a.id] else effects
    ensures Run(env, 0, acts').dao == d' && Run(env, 0, acts').effects == effects'
  {
    acts', d' := acts + [a], NextDao(env, d, a);
    assert acts'[..|acts|] == acts;
    effects' := Run(env, 0, acts').effects;
  }

  /** The treasury that the DAO is founded with. */
  const NOTHING := T.Book(0, 0, map[])

  /** Kinds of proposals that pass by the ordinary threshold; the second is to have an effect. */
  predicate IsOrdinary(kind: ProposalType) {
    kind == PARAMETER_CHANGE || kind == TREASURY_ALLOCATION
  }

  /** One holder, one proposal that is open since time 0. */
  predicate IsOpened(d: Dao, kind: ProposalType) {
    && "h" in d.holders && d.holders["h"].stakedAmount == 1000 && 0.5 < d.holders["h"].reputationScore <= 1.0
    && d.totalStake == 1000 && d.active == {"p"} && "p" in d.proposals && d.treasury == NOTHING
    && var p := d.proposals["p"];
       && p.status == ACTIVE && p.kind == kind && p.votingStartTime == 0 && p.votingEndTime == 14 * DAY
       && p.voters == {} && p.votesFor == p.votesAgainst == p.votesAbstain == p.totalVotingPower == 0.0
  }

  lemma HolderThere() returns (acts: seq<Action>, d: Dao)
    ensures Run(ENV, 0, acts).dao == d && Run(ENV, 0, acts).effects == []
    ensures d.holders == map["h" := NewHolder("h", 1000)] && d.proposals == map[]
    ensures d.active == {} && d.totalStake == 1000 && d.treasury == NOTHING
  {
    var effects;
    acts, d, effects := Go(ENV, [], Founded(0), [], Register("h", 1000));
  }

  lemma ProposalDrafted(kind: ProposalType) returns (acts: seq<Action>, d: Dao)
    ensures Run(ENV, 0, acts).dao == d && Run(ENV, 0, acts).effects == []
    ensures d.holders == map["h" := Credited(NewHolder("h", 1000), Submission)]
    ensures d.proposals == map["p" := NewProposal("p", "", "", kind, "h", 0)]
    ensures d.active == {} && d.totalStake == 1000 && d.treasury == NOTHING
  {
    var effects;
    acts, d := HolderThere();
    acts, d, effects := Go(ENV, acts, d, [], Submit("h", "", "", kind, "p", 0));
  }

  lemma ProposalOpened(kind: ProposalType) returns (acts: seq<Action>, d: Dao)
    ensures Run(ENV, 0, acts).dao == d && Run(ENV, 0, acts).effects == [] && IsOpened(d, kind)
  {
    var effects;
    acts, d := ProposalDrafted(kind);
    acts, d, effects := Go(ENV, acts, d, [], Action.Activate("p", 0));
  }

  /** Finalized too early, the open proposal drops out of the active set. */
  lemma EarlyFinalizationLosesAnOpenProposal() returns (acts: seq<Action>, d: Dao)
    ensures Run(ENV, 0, acts).dao == d
    ensures "p" in d.proposals && d.proposals["p"].status == ACTIVE && "p" !in d.active
  {
    var effects;
    acts, d := ProposalOpened(PARAMETER_CHANGE);
    acts, d, effects := Go(ENV, acts, d, [], Finalize("p", 0));
  }

  /** Its one holder has voted for it. */
  predicate IsVotedOn(d: Dao, kind: ProposalType) {
    && "h" in d.holders && d.totalStake == 1000 && "p" in d.proposals && d.treasury == NOTHING
    && var p := d.proposals["p"];
       && p.status == ACTIVE && p.kind == kind && p.votingEndTime == 14 * DAY
       && 0.5 < p.votesFor == p.totalVotingPower <= 1.0 && p.votesAgainst == 0.0
  }

  lemma ProposalVotedOn(kind: ProposalType) returns (acts: seq<Action>, d: Dao)
    ensures Run(ENV, 0, acts).dao == d && Run(ENV, 0, acts).effects == [] && IsVotedOn(d, kind)
  {
    var effects;
    acts, d := ProposalOpened(kind);
    acts, d, effects := Go(ENV, acts, d, [], Vote("p", "h", FOR, 0));
  }

  lemma UnanimousVoteMeetsTheThreshold(p: ProposalData)
    requires p.votesFor > 0.0 && p.votesAgainst == 0.0 && IsOrdinary(p.kind)
    ensures MeetsThreshold(p)
  {
    assert p.votesFor / p.votesFor == 1.0;
  }

  predicate IsQueued(d: Dao, kind: ProposalType) {
    && "p" in d.proposals && d.proposals["p"].status == QUEUED && d.proposals["p"].kind == kind
    && d.proposals["p"].executionTime == 21 * DAY && d.treasury == NOTHING
  }

  lemma FinalizationQueues(d: Dao, kind: ProposalType)
    requires IsVotedOn(d, kind) && MeetsThreshold(d.proposals["p"])
    ensures IsQueued(ProposalFinalized(d, ENV, "p", 14 * DAY).1, kind)
  {
    assert MeetsQuorum(d.proposals["p"], ENV.root(d.totalStake));
  }

  lemma ProposalQueued(kind: ProposalType) returns (acts: seq<Action>, d: Dao)
    requires IsOrdinary(kind)
    ensures Run(ENV, 0, acts).dao == d && Run(ENV, 0, acts).effects == [] && IsQueued(d, kind)
  {
    var effects;
    acts, d := ProposalVotedOn(kind);
    UnanimousVoteMeetsTheThreshold(d.proposals["p"]);
    FinalizationQueues(d, kind);
    acts, d, effects := Go(ENV, acts, d, [], Finalize("p", 14 * DAY));
  }

  // ---------- an allocation that the treasury refuses ----------

  /** The parameters that an allocation needs. */
  predicate HasParameters(p: ProposalData) {
    "recipient" in p.parameters && "amount" in p.parameters
  }

  lemma AddingParameterKeepsQueued(d: Dao, kind: ProposalType, key: string)
    requires IsQueued(d, kind)
    ensures var d' := NextDao(ENV, d, OnProposal("p", Event(0, Call.AddParameter(key, ""))));
            && IsQueued(d', kind)
            && d'.proposals["p"].parameters == d.proposals["p"].parameters[key := ""]
  {}

  lemma AllocationReady() returns (acts: seq<Action>, d: Dao)
    ensures Run(ENV, 0, acts).dao == d && Run(ENV, 0, acts).effects == []
    ensures IsQueued(d, TREASURY_ALLOCATION) && HasParameters(d.proposals["p"])
  {
    var effects;
    acts, d := ProposalQueued(TREASURY_ALLOCATION);
    AddingParameterKeepsQueued(d, TREASURY_ALLOCATION, "recipient");
    acts, d, effects := Go(ENV, acts, d, [], OnProposal("p", Event(0, Call.AddParameter("recipient", ""))));
    AddingParameterKeepsQueued(d, TREASURY_ALLOCATION, "amount");
    acts, d, effects := Go(ENV, acts, d, effects, OnProposal("p", Event(0, Call.AddParameter("amount", ""))));
  }

  lemma RefusalIsExecuted(d: Dao)
    requires IsQueued(d, TREASURY_ALLOCATION) && HasParameters(d.proposals["p"])
    ensures TakesEffect(d, ENV, "p", "", Clock(21 * DAY, 21 * DAY, 21 * DAY))
    ensures var d' := NextDao(ENV, d, ExecutionMarkedAt(21 * DAY));
            "p" in d'.proposals && d'.proposals["p"].status == EXECUTED && d'.treasury == NOTHING
  {}

  /** The treasury has nothing to allocate, and still the proposal ends executed. */
  lemma RefusedAllocationCountsAsExecuted() returns (acts: seq<Action>, d: Dao)
    ensures Run(ENV, 0, acts).dao == d && Run(ENV, 0, acts).effects == ["p"]
    ensures "p" in d.proposals && d.proposals["p"].status == EXECUTED && d.treasury == NOTHING
  {
    var effects;
    acts, d := AllocationReady();
    RefusalIsExecuted(d);
    acts, d, effects := Go(ENV, acts, d, [], ExecutionMarkedAt(21 * DAY));
  }

  // ---------- a clock that steps back, and a quorum of nothing ----------

  /** An execution in which the clock stands at `mark` when the proposal is to be marked. */
  function ExecutionMarkedAt(mark: nat): Action {
    Action.Execute("p", "", Clock(21 * DAY, 21 * DAY, mark))
  }

  lemma ExecutionTakesEffect(d: Dao, a: Action)
    requires IsQueued(d, PARAMETER_CHANGE) && (a == ExecutionMarkedAt(0) || a == ExecutionMarkedAt(21 * DAY))
    ensures TakesEffect(d, ENV, a.id, a.allocationId, a.clock)
    ensures a.clock.mark == 0 ==> IsQueued(NextDao(ENV, d, a), PARAMETER_CHANGE)
  {}

  /** The clock steps back once, between the test and the mark: the proposal takes effect twice. */
  lemma SteppingClockRepeatsAnEffect() returns (acts: seq<Action>)
    ensures Run(ENV, 0, acts).effects == ["p", "p"]
  {
    var d, effects;
    acts, d := ProposalQueued(PARAMETER_CHANGE);
    ExecutionTakesEffect(d, ExecutionMarkedAt(0));
    acts, d, effects := Go(ENV, acts, d, [], ExecutionMarkedAt(0));
    ExecutionTakesEffect(d, ExecutionMarkedAt(21 * DAY));
    acts, d, effects := Go(ENV, acts, d, effects, ExecutionMarkedAt(21 * DAY));
  }

  lemma RaisingLeavesProposals(d: Dao)
    requires "h" in d.holders && d.totalStake == 1000
    ensures NextDao(ENV, d, RaiseStake("h", 9000)).proposals == d.proposals
    ensures ENV.root(NextDao(ENV, d, RaiseStake("h", 9000)).totalStake) == 100.0
  {}

  lemma StakeRaised() returns (acts: seq<Action>, d: Dao)
    ensures Run(ENV, 0, acts).dao == d && "p" in d.proposals && ENV.root(d.totalStake) == 100.0
    ensures var p := d.proposals["p"];
            && p.status == ACTIVE && p.votingEndTime == 14 * DAY && 0.5 < p.totalVotingPower <= 1.0 && MeetsThreshold(p)
  {
    var effects;
    acts, d := ProposalVotedOn(PARAMETER_CHANGE);
    RaisingLeavesProposals(d);
    acts, d, effects := Go(ENV, acts, d, [], RaiseStake("h", 9000));
    UnanimousVoteMeetsTheThreshold(d.proposals["p"]);
  }

  /**
   Finalized directly on a weight of nothing, a proposal passes that is far from the quorum of the network's stake.
   */
  lemma DirectFinalizationSkipsTheQuorum() returns (acts: seq<Action>, d: Dao, d': Dao)
    ensures Run(ENV, 0, acts).dao == d' && d' == NextDao(ENV, d, OnProposal("p", Event(14 * DAY, FinalizeVoting(0.0))))
    ensures "p" in d.proposals && "p" in d'.proposals && d'.proposals["p"].status == SUCCEEDED
    ensures !MeetsQuorum(d.proposals["p"], ENV.root(d.totalStake)) && d'.totalStake == d.totalStake
  {
    var effects;
    acts, d := StakeRaised();
    DirectFinalizationWeighsWhatItIsTold(ENV, d, "p", 14 * DAY, 0.0);
    effects := Run(ENV, 0, acts).effects;
    acts, d', effects := Go(ENV, acts, d, effects, OnProposal("p", Event(14 * DAY, FinalizeVoting(0.0))));
  }

  // ---------- the limit on active proposals ----------

  /** An activation that is one too many: the limit is tested when a proposal is submitted, and not here. */
  predicate Overfills(d: Dao, a: Action) {
    a.Activate? && |d.active| == MAX_ACTIVE_PROPOSALS && ProposalActivated(d, a.id, a.now).0 && a.id !in d.active
  }

  predicate KeepsToTheLimit(d: Dao, a: Action) {
    !Overfills(d, a)
  }

  lemma ActiveAfter(env: Env, d: Dao, a: Action)
    ensures NextDao(env, d, a).active ==
            if a.Activate? && ProposalActivated(d, a.id, a.now).0 then d.active + {a.id}
            else if a.Finalize? && a.id in d.proposals then d.active - {a.id}
            else d.active
  {}

  /** From a set within the limit, exactly such an activation exceeds it. */
  lemma LimitIsKeptExactlyUnlessOverfilled(env: Env, d: Dao, a: Action)
    requires |d.active| <= MAX_ACTIVE_PROPOSALS
    ensures |NextDao(env, d, a).active| <= MAX_ACTIVE_PROPOSALS <==> KeepsToTheLimit(d, a)
  {
    var active' := NextDao(env, d, a).active;
    ActiveAfter(env, d, a);
    if a.Activate? && a.id in d.active {
      assert d.active + {a.id} == d.active;
    } else if a.Finalize? {
      assert d.active == active' + d.active * {a.id} || active' == d.active;
    }
  }

  ghost predicate AlwaysWithinLimit(env: Env, initial: uint64, acts: seq<Action>)
    decreases |acts|
  {
    && |Run(env, initial, acts).dao.active| <= MAX_ACTIVE_PROPOSALS
    && (acts != [] ==> AlwaysWithinLimit(env, initial, acts[..|acts| - 1]))
  }

  /** In every run: never more than ten active proposals exactly when no activation is one too many. */
  lemma {:induction false} WithinLimitExactlyWhen(env: Env, initial: uint64, acts: seq<Action>)
    ensures AlwaysWithinLimit(env, initial, acts) <==> Throughout(env, initial, acts, KeepsToTheLimit)
    decreases |acts|
  {
    if acts != [] {
      var before := acts[..|acts| - 1];
      WithinLimitExactlyWhen(env, initial, before);
      if AlwaysWithinLimit(env, initial, before) {
        LimitIsKeptExactlyUnlessOverfilled(env, Run(env, initial, before).dao, acts[|acts| - 1]);
      }
    }
  }

  /** The `i`-th of many ids. */
  function Name(i: nat): (s: string)
    ensures |s| == i
  {
    if i == 0 then [] else Name(i - 1) + ['x']
  }

  function Names(n: nat): (s: set<string>)
    ensures |s| == n && forall id | id in s :: |id| < n
  {
    if n == 0 then {} else Names(n - 1) + {Name(n - 1)}
  }

  /** A holder with the minimum stake, `n` proposals, and the first `m` of them open. */
  ghost predicate IsLadder(d: Dao, n: nat, m: nat) {
    && "h" in d.holders && d.holders["h"].stakedAmount >= MIN_PROPOSAL_STAKE
    && d.active == Names(m)
    && (forall i: nat | m <= i < n :: Name(i) in d.proposals && d.proposals[Name(i)].status == DRAFT)
  }

  lemma DraftAdded(env: Env, d: Dao, n: nat)
    requires IsLadder(d, n, 0)
    ensures IsLadder(NextDao(env, d, Submit("h", "", "", PARAMETER_CHANGE, Name(n), 0)), n + 1, 0)
  {
    var d' := NextDao(env, d, Submit("h", "", "", PARAMETER_CHANGE, Name(n), 0));
    assert MaySubmit(d, "h");
    assert d'.holders["h"].stakedAmount == d.holders["h"].stakedAmount;
    assert d'.proposals == d.proposals[Name(n) := NewProposal(Name(n), "", "", PARAMETER_CHANGE, "h", 0)];
  }

  lemma OpeningLeavesOthers(env: Env, d: Dao, m: nat, i: nat)
    requires i != m && Name(i) in d.proposals
    ensures var d' := NextDao(env, d, Action.Activate(Name(m), 0));
            Name(i) in d'.proposals && d'.proposals[Name(i)] == d.proposals[Name(i)]
  {
    assert |Name(i)| != |Name(m)|;
  }

  lemma OpeningActivates(env: Env, d: Dao, m: nat)
    requires Name(m) in d.proposals && d.proposals[Name(m)].status == DRAFT
    ensures var d' := NextDao(env, d, Action.Activate(Name(m), 0));
            d'.active == d.active + {Name(m)} && d'.holders == d.holders
  {}

  lemma DraftOpened(env: Env, d: Dao, n: nat, m: nat)
    requires IsLadder(d, n, m) && m < n
    ensures IsLadder(NextDao(env, d, Action.Activate(Name(m), 0)), n, m + 1)
  {
    OpeningActivates(env, d, m);
    forall i: nat | m + 1 <= i < n
      ensures var d' := NextDao(env, d, Action.Activate(Name(m), 0));
              Name(i) in d'.proposals && d'.proposals[Name(i)].status == DRAFT
    {
      OpeningLeavesOthers(env, d, m, i);
    }
  }

  lemma {:induction false} Drafts(env: Env, n: nat) returns (acts: seq<Action>, d: Dao)
    ensures Run(env, 0, acts).dao == d && IsLadder(d, n, 0)
  {
    var effects := [];
    if n == 0 {
      acts, d, effects := Go(env, [], Founded(0), [], Register("h", MIN_PROPOSAL_STAKE));
    } else {
      acts, d := Drafts(env, n - 1);
      effects := Run(env, 0, acts).effects;
      DraftAdded(env, d, n - 1);
      acts, d, effects := Go(env, acts, d, effects, Submit("h", "", "", PARAMETER_CHANGE, Name(n - 1), 0));
    }
  }

  /** Nothing else bounds the set: any number of proposals can be active at once. */
  lemma {:induction false} AnyNumberCanBeActive(env: Env, n: nat, m: nat) returns (acts: seq<Action>, d: Dao)
    requires m <= n
    ensures Run(env, 0, acts).dao == d && IsLadder(d, n, m) && |d.active| == m
  {
    if m == 0 {
      acts, d := Drafts(env, n);
    } else {
      acts, d := AnyNumberCanBeActive(env, n, m - 1);
      var effects := Run(env, 0, acts).effects;
      DraftOpened(env, d, n, m - 1);
      acts, d, effects := Go(env, acts, d, effects, Action.Activate(Name(m - 1), 0));
    }
  }
}
