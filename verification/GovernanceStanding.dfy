/**
 What a run of the DAO says about its holders: their stake is what they registered with, their reputation what they
 have earned, and their power at a vote the two together. And the network's stake is what was ever staked.
 */
module GovernanceStanding {
  import opened Options
  import opened Words
  import opened Proposals
  import opened Governance
  import opened GovernanceRuns

  // ---------- stake ----------

  /** The stake of an address: of the first registration under it. */
  function RegisteredStake(acts: seq<Action>, address: string): Option<uint64> {
    if acts == [] then None
    else
      var earlier, a := RegisteredStake(acts[..|acts| - 1], address), acts[|acts| - 1];
      if earlier.Some? then earlier
      else if a.Register? && a.address == address then Some(a.stake)
      else None
  }

  /** All that was staked: by first registrations, and by raises of those who had registered. */
  function EverStaked(acts: seq<Action>): nat {
    if acts == [] then 0
    else
      var before, a := acts[..|acts| - 1], acts[|acts| - 1];
      EverStaked(before) +
      match a
      case Register(h, stake) => if RegisteredStake(before, h).None? then stake else 0
      case RaiseStake(h, more) => if RegisteredStake(before, h).Some? then more else 0
      case _ => 0
  }

  // ---------- deeds ----------

  /** The action is a deed of holder `h`. */
  predicate Earns(env: Env, d: Dao, a: Action, h: string, deed: Deed) {
    match deed
    case Submission => Files(d, a) && a.proposer == h
    case Ballot => CastsVote(d, a) && a.voter == h
    case Execution =>
      && a.Execute? && TakesEffect(d, env, a.id, a.allocationId, a.clock)
      && d.proposals[a.id].proposer == h && h in d.holders
  }

  function Times(happens: bool): nat {
    if happens then 1 else 0
  }

  function Deeds(env: Env, initial: uint64, acts: seq<Action>, h: string, deed: Deed): nat
    decreases |acts|
  {
    if acts == [] then 0
    else
      var before := acts[..|acts| - 1];
      Deeds(env, initial, before, h, deed) +
      Times(Earns(env, Run(env, initial, before).dao, acts[|acts| - 1], h, deed))
  }

  /** A half to begin with, a hundredth for a submission, half of that for a ballot, a twentieth for an execution. */
  function Earned(submissions: nat, ballots: nat, executions: nat): real {
    var all := 0.5 + submissions as real / 100.0 + ballots as real / 200.0 + executions as real / 20.0;
    if all < 1.0 then all else 1.0
  }

  ghost predicate IsStanding(
    h: Holder, address: string, stake: Option<uint64>, submissions: nat, ballots: nat, executions: nat)
  {
    && h.address == address && stake == Some(h.stakedAmount) && !h.isValidator
    && h.proposalsSubmitted == submissions && h.votesParticipated == ballots
    && h.reputationScore == Earned(submissions, ballots, executions)
  }

  lemma EarnedGrows(s: nat, b: nat, x: nat)
    ensures Praised(Holder("", 0, Earned(s, b, x), 0, 0, false), 0.01).reputationScore == Earned(s + 1, b, x)
    ensures Praised(Holder("", 0, Earned(s, b, x), 0, 0, false), 0.005).reputationScore == Earned(s, b + 1, x)
    ensures Praised(Holder("", 0, Earned(s, b, x), 0, 0, false), 0.05).reputationScore == Earned(s, b, x + 1)
  {}

  /** What an action makes of a holder. */
  lemma HolderAfter(env: Env, d: Dao, a: Action, h: string)
    ensures var d' := NextDao(env, d, a);
            && (h in d'.holders <==> h in d.holders || (a.Register? && a.address == h))
            && (h in d'.holders && h !in d.holders ==> d'.holders[h] == Holder(h, a.stake, 0.5, 0, 0, false))
            && (h in d.holders ==>
                  var was, now := d.holders[h], d'.holders[h];
                  if Earns(env, d, a, h, Submission)
                  then now == Praised(was.(proposalsSubmitted := was.proposalsSubmitted + 1), 0.01)
                  else if Earns(env, d, a, h, Ballot)
                  then now == Praised(was.(votesParticipated := was.votesParticipated + 1), 0.005)
                  else if Earns(env, d, a, h, Execution) then now == Praised(was, 0.05)
                  else now == was)
  {}

  /** Address `h` is a holder of that standing, or none and without deeds. */
  ghost predicate Stands(
    d: Dao, h: string, stake: Option<uint64>, submissions: nat, ballots: nat, executions: nat)
  {
    && (h in d.holders <==> stake.Some?)
    && (h in d.holders ==> IsStanding(d.holders[h], h, stake, submissions, ballots, executions))
    && (h !in d.holders ==> submissions == ballots == executions == 0)
  }

  ghost predicate StandingOk(env: Env, initial: uint64, acts: seq<Action>, h: string) {
    Stands(Run(env, initial, acts).dao, h, RegisteredStake(acts, h), Deeds(env, initial, acts, h, Submission),
           Deeds(env, initial, acts, h, Ballot), Deeds(env, initial, acts, h, Execution))
  }

  lemma NextStands(env: Env, d: Dao, a: Action, h: string, stake: Option<uint64>, s: nat, b: nat, x: nat)
    requires Stands(d, h, stake, s, b, x)
    ensures Stands(NextDao(env, d, a), h,
                   if stake.Some? then stake else if a.Register? && a.address == h then Some(a.stake) else None,
                   s + Times(Earns(env, d, a, h, Submission)), b + Times(Earns(env, d, a, h, Ballot)),
                   x + Times(Earns(env, d, a, h, Execution)))
  {
    HolderAfter(env, d, a, h);
    if h in d.holders {
      EarnedGrows(s, b, x);
    }
  }

  /**
   In every run, a holder has the stake of its registration, and the reputation that its submissions, its ballots and
   the executions of its proposals have earned.
   */
  lemma {:induction false} StandingIsEarned(env: Env, initial: uint64, acts: seq<Action>, h: string)
    ensures StandingOk(env, initial, acts, h)
    decreases |acts|
  {
    if acts != [] {
      var before := acts[..|acts| - 1];
      StandingIsEarned(env, initial, before, h);
      NextStands(env, Run(env, initial, before).dao, acts[|acts| - 1], h, RegisteredStake(before, h),
                 Deeds(env, initial, before, h, Submission), Deeds(env, initial, before, h, Ballot),
                 Deeds(env, initial, before, h, Execution));
    }
  }

  /** What an action stakes. */
  function Staked(d: Dao, a: Action): nat {
    match a
    case Register(h, stake) => if h !in d.holders then stake else 0
    case RaiseStake(h, more) => if h in d.holders then more else 0
    case _ => 0
  }

  lemma StakeAfter(env: Env, d: Dao, a: Action)
    ensures NextDao(env, d, a).totalStake == (d.totalStake + Staked(d, a)) % TWO64
  {}

  lemma StakedInRun(env: Env, initial: uint64, acts: seq<Action>)
    requires acts != []
    ensures var before := acts[..|acts| - 1];
            EverStaked(acts) == EverStaked(before) + Staked(Run(env, initial, before).dao, acts[|acts| - 1])
  {
    var before, a := acts[..|acts| - 1], acts[|acts| - 1];
    if a.Register? || a.RaiseStake? {
      StandingIsEarned(env, initial, before, a.address);
    }
  }

  lemma SumsInWords(x: nat, y: nat, total: nat)
    requires total == x % TWO64
    ensures (total + y) % TWO64 == (x + y) % TWO64
  {}

  lemma NextStakes(env: Env, c: Chronicle, a: Action, before: nat, after: nat)
    requires c.dao.totalStake == before % TWO64 && after == before + Staked(c.dao, a)
    ensures Next(env, c, a).dao.totalStake == after % TWO64
  {
    StakeAfter(env, c.dao, a);
    SumsInWords(before, Staked(c.dao, a), c.dao.totalStake);
  }

  /** In every run, the network's stake is all that was ever staked, in 64 bits. */
  lemma {:induction false} NetworkStakeIsWhatWasStaked(env: Env, initial: uint64, acts: seq<Action>)
    ensures Run(env, initial, acts).dao.totalStake == EverStaked(acts) % TWO64
    decreases |acts|
  {
    if acts != [] {
      var before := acts[..|acts| - 1];
      NetworkStakeIsWhatWasStaked(env, initial, before);
      StakedInRun(env, initial, acts);
      NextStakes(env, Run(env, initial, before), acts[|acts| - 1], EverStaked(before), EverStaked(acts));
    }
  }

  // ---------- what a holder may do ----------

  /** The root of a stake, times a reputation. */
  function Weight(env: Env, stake: uint64, reputation: real): real {
    env.root(stake) * reputation
  }

  /** What a vote with that power makes of the tallies. */
  predicate AddsTo(p: ProposalData, p': ProposalData, choice: VoteChoice, power: real) {
    && p'.totalVotingPower == p.totalVotingPower + power
    && p'.votesFor == p.votesFor + (if choice == FOR then power else 0.0)
    && p'.votesAgainst == p.votesAgainst + (if choice == AGAINST then power else 0.0)
    && p'.votesAbstain == p.votesAbstain + (if choice == ABSTAIN then power else 0.0)
  }

  lemma BallotAfter(env: Env, d: Dao, a: Action)
    requires a.Vote? && CastsVote(d, a)
    ensures a.id in NextDao(env, d, a).proposals
    ensures var h := d.holders[a.voter];
            AddsTo(d.proposals[a.id], NextDao(env, d, a).proposals[a.id], a.choice,
                   Weight(env, h.stakedAmount, h.reputationScore))
  {}

  /**
   A vote that counts adds to its choice and to the total the root of the stake that the voter registered with, times
   the reputation that it has earned, and nothing to the other choices.
   */
  lemma BallotCountsByStanding(env: Env, initial: uint64, acts: seq<Action>, a: Action)
    requires a.Vote? && CastsVote(Run(env, initial, acts).dao, a)
    ensures RegisteredStake(acts, a.voter).Some?
    ensures var d := Run(env, initial, acts).dao;
            var reputation := Earned(Deeds(env, initial, acts, a.voter, Submission),
                                     Deeds(env, initial, acts, a.voter, Ballot),
                                     Deeds(env, initial, acts, a.voter, Execution));
            && a.id in NextDao(env, d, a).proposals
            && AddsTo(d.proposals[a.id], NextDao(env, d, a).proposals[a.id], a.choice,
                      Weight(env, RegisteredStake(acts, a.voter).value, reputation))
  {
    StandingIsEarned(env, initial, acts, a.voter);
    BallotAfter(env, Run(env, initial, acts).dao, a);
  }

  /** A submission is filed exactly if the proposer has registered a stake of 1000 and fewer than ten are active. */
  lemma FiledExactlyWhen(env: Env, initial: uint64, acts: seq<Action>, a: Action)
    requires a.Submit?
    ensures Files(Run(env, initial, acts).dao, a) <==>
            && RegisteredStake(acts, a.proposer).Some? && RegisteredStake(acts, a.proposer).value >= 1000
            && |Run(env, initial, acts).dao.active| < 10
  {
    StandingIsEarned(env, initial, acts, a.proposer);
  }

  /** A vote counts exactly if the voter is registered and has not voted and the proposal is open and in its window. */
  lemma CountsExactlyWhen(env: Env, initial: uint64, acts: seq<Action>, a: Action)
    requires a.Vote?
    ensures var d := Run(env, initial, acts).dao;
            CastsVote(d, a) <==>
            && RegisteredStake(acts, a.voter).Some? && a.id in d.proposals
            && var p := d.proposals[a.id];
               p.status == ACTIVE && p.votingStartTime <= a.now <= p.votingEndTime && a.voter !in p.voters
  {
    StandingIsEarned(env, initial, acts, a.voter);
  }

  /** The DAO answers a call with success exactly if the call has done what it asks for. */
  lemma AnswersTellWhatHappened(
    env: Env, d: Dao, key: string, amount: uint64, voter: string, choice: VoteChoice, now: nat)
    ensures HolderRegistered(d, key, amount).0 <==>
            key !in d.holders && key in HolderRegistered(d, key, amount).1.holders
    ensures StakeIncreased(d, key, amount).0 <==> key in d.holders
    ensures ProposalActivated(d, key, now).0 <==> ProposalActivated(d, key, now).1.proposals != d.proposals
    ensures VoteCast(d, env, key, voter, choice, now).0 <==>
            VoteCast(d, env, key, voter, choice, now).1.proposals != d.proposals
    ensures ProposalFinalized(d, env, key, now).0 <==>
            && key in d.proposals && d.proposals[key].status == ACTIVE
            && ProposalFinalized(d, env, key, now).1.proposals[key].status == QUEUED
  {
    if ProposalActivated(d, key, now).0 {
      assert ProposalActivated(d, key, now).1.proposals[key] != d.proposals[key];
    }
    if VoteCast(d, env, key, voter, choice, now).0 {
      assert voter in VoteCast(d, env, key, voter, choice, now).1.proposals[key].voters;
    }
  }

  /** And a submission with the id if it files the proposal, with none if not. */
  lemma SubmissionAnswers(env: Env, d: Dao, a: Action)
    requires a.Submit?
    ensures ProposalSubmitted(d, a.proposer, a.title, a.description, a.kind, a.id, a.now).0 ==
            if Files(d, a) then a.id else ""
    ensures Files(d, a) ==> a.id in NextDao(env, d, a).proposals
    ensures Files(d, a) ==>
              var p := NextDao(env, d, a).proposals[a.id];
              && p.proposalId == a.id && p.title == a.title && p.description == a.description && p.kind == a.kind
              && p.proposer == a.proposer && p.submissionTime == a.now && p.status == DRAFT
              && p.votesFor == p.votesAgainst == p.votesAbstain == p.totalVotingPower == 0.0
              && p.parameters == map[] && p.supportingDocuments == [] && p.voters == {}
    ensures !Files(d, a) ==> NextDao(env, d, a) == d
  {}
}
