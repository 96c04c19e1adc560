/** The weight that the quorum is taken of: the network's stake, as long as proposals are finalized through the DAO. */
module GovernanceQuorum {
  import opened Options
  import opened Words
  import opened Proposals
  import opened Governance
  import opened GovernanceRuns

  /** Proposals are finalized through the DAO only. */
  predicate FinalizesThroughDao(d: Dao, a: Action) {
    a.OnProposal? ==> !a.event.call.FinalizeVoting?
  }

  /** Call `e`, which finalizes the proposal when it is `p`, is made by `a`: through the DAO, or directly. */
  predicate FinalizedBy(env: Env, d: Dao, a: Action, id: string, p: ProposalData, e: Event) {
    && e.call.FinalizeVoting? && id in d.proposals && d.proposals[id] == p
    && ((a == Finalize(id, e.at) && e.call.stakeWeight == env.root(d.totalStake)) || a == OnProposal(id, e))
  }

  /** Event `f` of the life is step `k` of the run finalizing the proposal. */
  predicate FinalizedAt(env: Env, initial: uint64, acts: seq<Action>, id: string, l: Life, f: nat, k: nat) {
    && f < |l.events| && f < |l.states| && k < |acts|
    && FinalizedBy(env, Run(env, initial, acts[..k]).dao, acts[k], id, l.states[f], l.events[f])
  }

  ghost predicate AllRecorded(env: Env, initial: uint64, acts: seq<Action>, id: string, l: Life) {
    forall f: nat | f < |l.events| && l.events[f].call.FinalizeVoting? ::
      exists k: nat :: FinalizedAt(env, initial, acts, id, l, f, k)
  }

  lemma {:induction false} LivedInParts(l: Life, es: seq<Event>)
    requires |l.states| == |l.events| + 1
    ensures var m := Lived(l, es);
            m.events == l.events + es && |m.states| == |m.events| + 1 && l.states <= m.states
    decreases |es|
  {
    if es != [] {
      LivedInParts(Life(l.states + [After(l.states[|l.states| - 1], es[0])], l.events + [es[0]]), es[1..]);
      assert l.events + [es[0]] + es[1..] == l.events + es;
    }
  }

  lemma RecordedLater(env: Env, initial: uint64, acts: seq<Action>, id: string, l: Life, m: Life, f: nat, k: nat)
    requires acts != [] && FinalizedAt(env, initial, acts[..|acts| - 1], id, l, f, k)
    requires l.events <= m.events && l.states <= m.states
    ensures FinalizedAt(env, initial, acts, id, m, f, k)
  {
    assert acts[..|acts| - 1][..k] == acts[..k];
  }

  /** Of the calls that an action makes on a proposal, at most the first one finalizes it. */
  lemma FirstCallFinalizes(env: Env, d: Dao, a: Action, id: string, i: nat)
    requires id in d.proposals && i < |Calls(env, d, a, id)| && Calls(env, d, a, id)[i].call.FinalizeVoting?
    ensures i == 0 && FinalizedBy(env, d, a, id, d.proposals[id], Calls(env, d, a, id)[i])
  {}

  lemma NextIsRecorded(env: Env, initial: uint64, acts: seq<Action>, id: string, l: Life, m: Life)
    requires acts != [] && id in Run(env, initial, acts[..|acts| - 1]).dao.proposals
    requires IsLife(l) && Last(l) == Run(env, initial, acts[..|acts| - 1]).dao.proposals[id]
    requires AllRecorded(env, initial, acts[..|acts| - 1], id, l)
    requires m == Lived(l, Calls(env, Run(env, initial, acts[..|acts| - 1]).dao, acts[|acts| - 1], id))
    ensures AllRecorded(env, initial, acts, id, m)
  {
    var n := |acts| - 1;
    var d := Run(env, initial, acts[..n]).dao;
    var es := Calls(env, d, acts[n], id);
    LivedInParts(l, es);
    forall f: nat | f < |m.events| && m.events[f].call.FinalizeVoting?
      ensures exists k: nat :: FinalizedAt(env, initial, acts, id, m, f, k)
    {
      if f < |l.events| {
        var k: nat :| FinalizedAt(env, initial, acts[..n], id, l, f, k);
        RecordedLater(env, initial, acts, id, l, m, f, k);
      } else {
        FirstCallFinalizes(env, d, acts[n], id, f - |l.events|);
        assert m.events[f] == es[0] && m.states[f] == Last(l);
        assert FinalizedAt(env, initial, acts, id, m, f, n);
      }
    }
  }

  /** In every run, every finalization on record is a step of the run, on the proposal as that step met it. */
  lemma {:induction false} FinalizationsAreSteps(env: Env, initial: uint64, acts: seq<Action>, id: string)
    requires id in Run(env, initial, acts).lives
    ensures AllRecorded(env, initial, acts, id, Run(env, initial, acts).lives[id])
    decreases |acts|
  {
    if acts != [] {
      var before, a := acts[..|acts| - 1], acts[|acts| - 1];
      var c := Run(env, initial, before);
      RunKeepsLives(env, initial, before);
      LivesRecorded(env, c, a);
      if !(Files(c.dao, a) && a.id == id) {
        FinalizationsAreSteps(env, initial, before, id);
        NextIsRecorded(env, initial, acts, id, c.lives[id], Run(env, initial, acts).lives[id]);
      }
    }
  }

  lemma {:induction false} TestHoldsAt(
    env: Env, initial: uint64, acts: seq<Action>, test: (Dao, Action) -> bool, k: nat)
    requires Throughout(env, initial, acts, test) && k < |acts|
    ensures test(Run(env, initial, acts[..k]).dao, acts[k])
    decreases |acts|
  {
    if k < |acts| - 1 {
      assert acts[..|acts| - 1][..k] == acts[..k];
      TestHoldsAt(env, initial, acts[..|acts| - 1], test, k);
    }
  }

  /** The step that finalized an executed proposal. */
  lemma ExecutedWasFinalized(env: Env, initial: uint64, acts: seq<Action>, id: string) returns (l: Life, f: nat, k: nat)
    requires id in Run(env, initial, acts).dao.proposals && Run(env, initial, acts).dao.proposals[id].status == EXECUTED
    ensures FinalizedAt(env, initial, acts, id, l, f, k)
    ensures MeetsQuorum(l.states[f], l.events[f].call.stakeWeight) && MeetsThreshold(l.states[f])
    ensures Tallies(Run(env, initial, acts).dao.proposals[id]) == Tallies(l.states[f])
  {
    var a, q, x;
    l, a, f, q, x := ExecutedProposalTookTheWholePath(env, initial, acts, id);
    FinalizationsAreSteps(env, initial, acts, id);
    k :| FinalizedAt(env, initial, acts, id, l, f, k);
  }

  /** In every run that finalizes through the DAO, every finalization was weighed against the network's stake. */
  lemma FinalizationsAreWeighed(env: Env, initial: uint64, acts: seq<Action>, id: string, f: nat) returns (k: nat)
    requires Throughout(env, initial, acts, FinalizesThroughDao) && id in Run(env, initial, acts).lives
    requires f < |Run(env, initial, acts).lives[id].events|
    requires Run(env, initial, acts).lives[id].events[f].call.FinalizeVoting?
    ensures var l := Run(env, initial, acts).lives[id];
            && FinalizedAt(env, initial, acts, id, l, f, k) && acts[k].Finalize?
            && l.events[f].call.stakeWeight == env.root(Run(env, initial, acts[..k]).dao.totalStake)
  {
    FinalizationsAreSteps(env, initial, acts, id);
    k :| FinalizedAt(env, initial, acts, id, Run(env, initial, acts).lives[id], f, k);
    TestHoldsAt(env, initial, acts, FinalizesThroughDao, k);
  }

  /**
   The proposal met the quorum of the network's stake and the threshold of its type at step `k`, with the tallies it
   has.
   */
  ghost predicate MetTheQuorumAt(env: Env, initial: uint64, acts: seq<Action>, id: string, k: nat)
    requires id in Run(env, initial, acts).dao.proposals
  {
    && k < |acts| && id in Run(env, initial, acts[..k]).dao.proposals
    && var d := Run(env, initial, acts[..k]).dao;
       && MeetsQuorum(d.proposals[id], env.root(d.totalStake)) && MeetsThreshold(d.proposals[id])
       && Tallies(Run(env, initial, acts).dao.proposals[id]) == Tallies(d.proposals[id])
  }

  /** So in such a run an executed proposal was finalized by the DAO and met the quorum of the network's stake then. */
  lemma ExecutedMetTheNetworksQuorum(env: Env, initial: uint64, acts: seq<Action>, id: string) returns (k: nat)
    requires Throughout(env, initial, acts, FinalizesThroughDao)
    requires id in Run(env, initial, acts).dao.proposals && Run(env, initial, acts).dao.proposals[id].status == EXECUTED
    ensures MetTheQuorumAt(env, initial, acts, id, k) && acts[k].Finalize? && acts[k].id == id
  {
    var l, f;
    l, f, k := ExecutedWasFinalized(env, initial, acts, id);
    TestHoldsAt(env, initial, acts, FinalizesThroughDao, k);
  }

  // ---------- proposals finalized directly ----------

  /** Whatever passes on weight `named` has met the quorum of `weight`. */
  ghost predicate IsSafeFor(named: real, weight: real) {
    forall p: ProposalData, now: nat | Finalized(p, named, now).0 :: MeetsQuorum(p, weight)
  }

  /** Tallies as votes make them: none is negative, and they add up. */
  predicate TalliesAddUp(p: ProposalData) {
    && p.votesFor >= 0.0 && p.votesAgainst >= 0.0 && p.votesAbstain >= 0.0
    && p.totalVotingPower == p.votesFor + p.votesAgainst + p.votesAbstain
  }

  ghost predicate IsSafeForVotes(named: real, weight: real) {
    forall p: ProposalData, now: nat | TalliesAddUp(p) && Finalized(p, named, now).0 :: MeetsQuorum(p, weight)
  }

  /** An open proposal, unanimous, past its window, with the least power that passes on `named`. */
  function Barely(votesFor: real, power: real): ProposalData {
    NewProposal("", "", "", PARAMETER_CHANGE, "", 0).(
      status := ACTIVE, votesFor := votesFor, totalVotingPower := power)
  }

  lemma BarelyPasses(votesFor: real, power: real, named: real)
    requires votesFor > 0.0 && power >= named / 10.0
    ensures Finalized(Barely(votesFor, power), named, 0).0
  {
    assert votesFor / votesFor == 1.0;
  }

  /** A named weight is safe exactly when it is no less than the network's. */
  lemma SafeExactlyWhenNoLess(named: real, weight: real)
    ensures IsSafeFor(named, weight) <==> named >= weight
  {
    if named < weight {
      BarelyPasses(1.0, named / 10.0, named);
      assert !MeetsQuorum(Barely(1.0, named / 10.0), weight);
    }
  }

  /** For tallies that come from votes the only other safe case is a network without weight. */
  lemma SafeForVotesExactlyWhen(named: real, weight: real)
    ensures IsSafeForVotes(named, weight) <==> named >= weight || weight <= 0.0
  {
    if named < weight && weight > 0.0 {
      var power := if named > 0.0 then named / 10.0 else weight / 20.0;
      BarelyPasses(power, power, named);
      assert TalliesAddUp(Barely(power, power)) && !MeetsQuorum(Barely(power, power), weight);
    }
  }

  /** Whoever finalizes a proposal directly names a safe weight. */
  function NamesSafeWeights(env: Env): (Dao, Action) -> bool {
    (d: Dao, a: Action) =>
      a.OnProposal? && a.event.call.FinalizeVoting? ==> a.event.call.stakeWeight >= env.root(d.totalStake)
  }

  /**
   In every run whose direct finalizations do so, an executed proposal met the network's quorum when it was
   finalized.
   */
  lemma SafeWeightsKeepTheQuorum(env: Env, initial: uint64, acts: seq<Action>, id: string) returns (k: nat)
    requires Throughout(env, initial, acts, NamesSafeWeights(env))
    requires id in Run(env, initial, acts).dao.proposals && Run(env, initial, acts).dao.proposals[id].status == EXECUTED
    ensures MetTheQuorumAt(env, initial, acts, id, k)
  {
    var l, f;
    l, f, k := ExecutedWasFinalized(env, initial, acts, id);
    TestHoldsAt(env, initial, acts, NamesSafeWeights(env), k);
    assert l.events[f].call.stakeWeight >= env.root(Run(env, initial, acts[..k]).dao.totalStake);
  }

  /**
   Finalized directly, a proposal passes on the weight that the caller names: exactly when it meets that quorum and
   its threshold, whatever the network's stake.
   */
  lemma DirectFinalizationWeighsWhatItIsTold(env: Env, d: Dao, id: string, now: nat, weight: real)
    requires id in d.proposals && d.proposals[id].status == ACTIVE && now >= d.proposals[id].votingEndTime
    ensures NextDao(env, d, OnProposal(id, Event(now, FinalizeVoting(weight)))).proposals[id].status == SUCCEEDED <==>
            MeetsQuorum(d.proposals[id], weight) && MeetsThreshold(d.proposals[id])
  {}
}
