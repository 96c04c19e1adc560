/**
 The DAO: stake holders, proposals, the set of active ones, the treasury and the validators.

 `Dao` is the state of all these objects taken together, with one function for each method;
 class `DAOGovernance` keeps them as objects of their own, as the source does.
 */
module Governance {
  import opened Options
  import opened Words
  import opened Treasuries
  import opened Proposals

  const MIN_PROPOSAL_STAKE := 1000
  const MAX_ACTIVE_PROPOSALS := 10

  /** `root` is the source's `sqrt`, and `parse` its `stoull`, with `None` for the exception it throws. */
  datatype Env = Env(root: uint64 -> real, parse: string -> Option<uint64>)

  // ---------- stake holders ----------

  datatype Holder = Holder(
    address: string, stakedAmount: uint64, reputationScore: real,
    proposalsSubmitted: nat, votesParticipated: nat, isValidator: bool)

  function NewHolder(address: string, stake: uint64): Holder {
    Holder(address, stake, 0.5, 0, 0, false)
  }

  function Praised(h: Holder, amount: real): Holder {
    h.(reputationScore := if h.reputationScore + amount < 1.0 then h.reputationScore + amount else 1.0)
  }

  /** What holders are credited for, with what the source calls on them each time. */
  datatype Deed = Submission | Ballot | Execution

  function Credited(h: Holder, deed: Deed): Holder {
    match deed
    case Submission => Praised(h.(proposalsSubmitted := h.proposalsSubmitted + 1), 0.01)
    case Ballot => Praised(h.(votesParticipated := h.votesParticipated + 1), 0.005)
    case Execution => Praised(h, 0.05)
  }

  function Power(h: Holder, env: Env): real {
    env.root(h.stakedAmount) * h.reputationScore
  }

  class StakeHolder {
    var data_: Holder

    constructor (address: string, stake: uint64)
      ensures data_ == NewHolder(address, stake)
    {
      data_ := Holder(address, stake, 0.5, 0, 0, false);
    }

    method GetVotingPower(env: Env) returns (power: real)
      ensures power == Power(data_, env)
    {
      power := env.root(data_.stakedAmount) * data_.reputationScore;
    }

    method IncreaseReputation(amount: real)
      modifies this
      ensures data_ == Praised(old(data_), amount)
    {
      var raised := data_.reputationScore + amount;
      data_ := data_.(reputationScore := if raised < 1.0 then raised else 1.0);
    }

    method RecordProposal()
      modifies this
      ensures data_ == old(data_).(proposalsSubmitted := old(data_).proposalsSubmitted + 1)
    {
      data_ := data_.(proposalsSubmitted := data_.proposalsSubmitted + 1);
    }

    method RecordVote()
      modifies this
      ensures data_ == old(data_).(votesParticipated := old(data_).votesParticipated + 1)
    {
      data_ := data_.(votesParticipated := data_.votesParticipated + 1);
    }
  }

  // ---------- validators ----------

  datatype ValidatorInfo = ValidatorInfo(
    address: string, identity: string, stake: uint64, joinedTime: nat, performanceScore: real,
    blocksValidated: nat, slashingEvents: nat, active: bool)

  type Validators = map<string, ValidatorInfo>

  function ValidatorAdded(
    v: Validators, address: string, identity: string, stake: uint64, now: nat): (bool, Validators)
  {
    if address in v then (false, v)
    else (true, v[address := ValidatorInfo(address, identity, stake, now, 1.0, 0, 0, true)])
  }

  function ValidatorRemoved(v: Validators, address: string): (bool, Validators) {
    if address !in v then (false, v) else (true, v[address := v[address].(active := false)])
  }

  class ValidatorRegistry {
    var validators_: Validators

    constructor ()
      ensures validators_ == map[]
    {
      validators_ := map[];
    }

    method AddValidator(address: string, identity: string, stake: uint64, now: nat) returns (ok: bool)
      modifies this
      ensures (ok, validators_) == ValidatorAdded(old(validators_), address, identity, stake, now)
    {
      if address in validators_ {
        return false;
      }
      validators_ := validators_[address := ValidatorInfo(address, identity, stake, now, 1.0, 0, 0, true)];
      return true;
    }

    method RemoveValidator(address: string) returns (ok: bool)
      modifies this
      ensures (ok, validators_) == ValidatorRemoved(old(validators_), address)
    {
      if address !in validators_ {
        return false;
      }
      validators_ := validators_[address := validators_[address].(active := false)];
      return true;
    }
  }

  // ---------- the whole ----------

  datatype Dao = Dao(
    treasury: Book, validators: Validators, holders: map<string, Holder>, proposals: map<string, ProposalData>,
    active: set<string>, totalStake: uint64)

  function Founded(initialBalance: uint64): Dao {
    Dao(Book(initialBalance, 0, map[]), map[], map[], map[], {}, 0)
  }

  function HolderRegistered(d: Dao, address: string, stake: uint64): (bool, Dao) {
    if address in d.holders then (false, d)
    else (true, d.(holders := d.holders[address := NewHolder(address, stake)],
                   totalStake := (d.totalStake + stake) % TWO64))
  }

  /** The holder's own stake, and so its voting power, is left as it was. */
  function StakeIncreased(d: Dao, address: string, additional: uint64): (bool, Dao) {
    if address !in d.holders then (false, d)
    else (true, d.(totalStake := (d.totalStake + additional) % TWO64))
  }

  predicate MaySubmit(d: Dao, proposer: string) {
    proposer in d.holders && d.holders[proposer].stakedAmount >= MIN_PROPOSAL_STAKE && |d.active| < MAX_ACTIVE_PROPOSALS
  }

  /** `id` is the digest the source computes from title, proposer and time. */
  function ProposalSubmitted(d: Dao, proposer: string, title: string, description: string, kind: ProposalType,
                             id: string, now: nat): (string, Dao)
  {
    if !MaySubmit(d, proposer) then ("", d)
    else
      (id, d.(proposals := d.proposals[id := NewProposal(id, title, description, kind, proposer, now)],
              holders := d.holders[proposer := Credited(d.holders[proposer], Submission)]))
  }

  function ProposalActivated(d: Dao, id: string, now: nat): (bool, Dao) {
    if id !in d.proposals || !Activated(d.proposals[id], now).0 then (false, d)
    else (true, d.(proposals := d.proposals[id := Activated(d.proposals[id], now).1], active := d.active + {id}))
  }

  predicate VoteCounts(d: Dao, id: string, voter: string, now: nat) {
    id in d.proposals && voter in d.holders && MayVote(d.proposals[id], voter, now)
  }

  function VoteCast(d: Dao, env: Env, id: string, voter: string, choice: VoteChoice, now: nat): (bool, Dao) {
    if !VoteCounts(d, id, voter, now) then (false, d)
    else
      var h := d.holders[voter];
      (true, d.(proposals := d.proposals[id := Voted(d.proposals[id], voter, choice, Power(h, env), now).1],
                holders := d.holders[voter := Credited(h, Ballot)]))
  }

  /** Whatever comes of it, the proposal leaves the set of active ones. */
  function ProposalFinalized(d: Dao, env: Env, id: string, now: nat): (bool, Dao) {
    if id !in d.proposals then (false, d)
    else
      var (passed, p) := Finalized(d.proposals[id], env.root(d.totalStake), now);
      (passed, d.(proposals := d.proposals[id := if passed then Queued(p).1 else p], active := d.active - {id}))
  }

  /** What `executeProposalLogic` does to treasury and validators, or `None` when `stoull` throws. */
  function Effect(d: Dao, env: Env, p: ProposalData, allocationId: string, now: nat): Option<(Book, Validators)> {
    var ps := p.parameters;
    match p.kind
    case TREASURY_ALLOCATION =>
      if "recipient" !in ps || "amount" !in ps then Some((d.treasury, d.validators))
      else if env.parse(ps["amount"]).None? then None
      else
        Some((Created(d.treasury, allocationId, p.proposalId, ps["recipient"], env.parse(ps["amount"]).value,
                      if "purpose" in ps then ps["purpose"] else "", [], now).1,
              d.validators))
    case VALIDATOR_ADDITION =>
      if "address" !in ps || "stake" !in ps then Some((d.treasury, d.validators))
      else if env.parse(ps["stake"]).None? then None
      else
        Some((d.treasury,
              ValidatorAdded(d.validators, ps["address"], if "identity" in ps then ps["identity"] else "",
                             env.parse(ps["stake"]).value, now).1))
    case VALIDATOR_REMOVAL =>
      if "address" !in ps then Some((d.treasury, d.validators))
      else Some((d.treasury, ValidatorRemoved(d.validators, ps["address"]).1))
    case _ => Some((d.treasury, d.validators))
  }

  /**
   The three readings of the clock in one call of `executeProposal`: the test, the effect, and the mark on the
   proposal.
   */
  datatype Clock = Clock(test: nat, effect: nat, mark: nat)

  /** The effect is applied in this call. */
  predicate TakesEffect(d: Dao, env: Env, id: string, allocationId: string, clock: Clock) {
    && id in d.proposals
    && CanExecute(d.proposals[id], clock.test)
    && Effect(d, env, d.proposals[id], allocationId, clock.effect).Some?
  }

  /** The answer is `None` when the exception reaches the caller. */
  function ProposalExecuted(d: Dao, env: Env, id: string, allocationId: string, clock: Clock): (Option<bool>, Dao) {
    if id !in d.proposals || !CanExecute(d.proposals[id], clock.test) then (Some(false), d)
    else
      var p := d.proposals[id];
      var e := Effect(d, env, p, allocationId, clock.effect);
      if e.None? then (None, d)
      else
        (Some(true),
         d.(treasury := e.value.0,
            validators := e.value.1,
            proposals := d.proposals[id := Executed(p, clock.mark).1],
            holders := if p.proposer !in d.holders then d.holders
                       else d.holders[p.proposer := Credited(d.holders[p.proposer], Execution)]))
  }

  class DAOGovernance {
    const treasury_: Treasury
    const validatorRegistry_: ValidatorRegistry
    var stakeHolders_: map<string, StakeHolder>
    var proposals_: map<string, Proposal>
    var activeProposals_: set<string>
    var totalNetworkStake_: uint64

    /** Every object is filed under its own address or id, so different keys stand for different objects. */
    ghost predicate Valid()
      reads this, stakeHolders_.Values, proposals_.Values
    {
      && (forall i | i in stakeHolders_ :: stakeHolders_[i].data_.address == i)
      && (forall i | i in proposals_ :: proposals_[i].data_.proposalId == i)
    }

    ghost function Holders(): map<string, Holder>
      reads this`stakeHolders_, stakeHolders_.Values
    {
      map i | i in stakeHolders_ :: stakeHolders_[i].data_
    }

    ghost function ProposalStates(): map<string, ProposalData>
      reads this`proposals_, proposals_.Values
    {
      map i | i in proposals_ :: proposals_[i].data_
    }

    ghost function State(): Dao
      reads this, treasury_, validatorRegistry_, stakeHolders_.Values, proposals_.Values
    {
      Dao(treasury_.State(), validatorRegistry_.validators_, Holders(), ProposalStates(),
          activeProposals_, totalNetworkStake_)
    }

    /** Filing a proposal, or calls on one, show in the state as an update of its entry. */
    twostate lemma OneProposalChanged(id: string)
      requires stakeHolders_ == old(stakeHolders_)
      requires id in proposals_ && proposals_ - {id} == old(proposals_) - {id}
      requires forall i | i in old(proposals_) && i != id :: unchanged(old(proposals_[i]))
      requires forall i | i in stakeHolders_ :: unchanged(stakeHolders_[i])
      ensures Holders() == old(Holders())
      ensures ProposalStates() == old(ProposalStates())[id := proposals_[id].data_]
    {
      forall i | i in proposals_ && i != id
        ensures i in old(proposals_) && proposals_[i] == old(proposals_[i])
      {
        assert i in proposals_ - {id};
      }
      forall i | i in old(proposals_) && i != id
        ensures i in proposals_
      {
        assert i in old(proposals_) - {id};
      }
    }

    constructor (initialTreasuryBalance: uint64)
      ensures Valid() && State() == Founded(initialTreasuryBalance)
      ensures fresh(treasury_) && fresh(validatorRegistry_)
    {
      treasury_ := new Treasury(initialTreasuryBalance);
      validatorRegistry_ := new ValidatorRegistry();
      stakeHolders_, proposals_ := map[], map[];
      activeProposals_ := {};
      totalNetworkStake_ := 0;
    }

    method RegisterStakeHolder(address: string, stake: uint64) returns (ok: bool)
      requires Valid()
      modifies this
      ensures Valid()
      ensures (ok, State()) == HolderRegistered(old(State()), address, stake)
      ensures proposals_ == old(proposals_) && fresh(stakeHolders_.Values - old(stakeHolders_.Values))
    {
      if address in stakeHolders_ {
        return false;
      }
      var holder := new StakeHolder(address, stake);
      stakeHolders_ := stakeHolders_[address := holder];
      totalNetworkStake_ := (totalNetworkStake_ + stake) % TWO64;
      assert Holders() == old(Holders())[address := NewHolder(address, stake)];
      assert ProposalStates() == old(ProposalStates());
      return true;
    }

    method IncreaseStake(address: string, additionalStake: uint64) returns (ok: bool)
      requires Valid()
      modifies this`totalNetworkStake_
      ensures Valid()
      ensures (ok, State()) == StakeIncreased(old(State()), address, additionalStake)
    {
      if address !in stakeHolders_ {
        return false;
      }
      totalNetworkStake_ := (totalNetworkStake_ + additionalStake) % TWO64;
      assert Holders() == old(Holders()) && ProposalStates() == old(ProposalStates());
      return true;
    }

    /** The calls the source makes on one holder after a deed. */
    method Credit(address: string, deed: Deed)
      requires Valid() && address in stakeHolders_
      modifies stakeHolders_.Values
      ensures Valid()
      ensures State() == old(State()).(holders := old(Holders())[address := Credited(old(Holders())[address], deed)])
    {
      var holder := stakeHolders_[address];
      match deed {
        case Submission =>
          holder.RecordProposal();
          holder.IncreaseReputation(0.01);
        case Ballot =>
          holder.RecordVote();
          holder.IncreaseReputation(0.005);
        case Execution =>
          holder.IncreaseReputation(0.05);
      }
      assert Holders() == old(Holders())[address := holder.data_];
      assert ProposalStates() == old(ProposalStates());
    }

    /** Makes a proposal and files it under its id. */
    method FileProposal(proposer: string, title: string, description: string, kind: ProposalType, id: string, now: nat)
      requires Valid()
      modifies this`proposals_
      ensures Valid()
      ensures State() == old(State()).(proposals :=
                old(ProposalStates())[id := NewProposal(id, title, description, kind, proposer, now)])
      ensures id in proposals_ && fresh(proposals_[id]) && proposals_ == old(proposals_)[id := proposals_[id]]
    {
      var proposal := new Proposal(id, title, description, kind, proposer, now);
      proposals_ := proposals_[id := proposal];
      OneProposalChanged(id);
    }

    method SubmitProposal(proposer: string, title: string, description: string, kind: ProposalType,
                          id: string, now: nat)
      returns (r: string)
      requires Valid()
      modifies this`proposals_, stakeHolders_.Values
      ensures Valid()
      ensures (r, State()) == ProposalSubmitted(old(State()), proposer, title, description, kind, id, now)
      ensures proposals_ == old(proposals_) ||
              (id in proposals_ && fresh(proposals_[id]) && proposals_ == old(proposals_)[id := proposals_[id]])
    {
      if proposer !in stakeHolders_ {
        return "";
      }
      if stakeHolders_[proposer].data_.stakedAmount < MIN_PROPOSAL_STAKE {
        return "";
      }
      if |activeProposals_| >= MAX_ACTIVE_PROPOSALS {
        return "";
      }
      FileProposal(proposer, title, description, kind, id, now);
      Credit(proposer, Submission);
      return id;
    }

    method ActivateProposal(id: string, now: nat) returns (ok: bool)
      requires Valid()
      modifies this`activeProposals_, proposals_.Values
      ensures Valid()
      ensures (ok, State()) == ProposalActivated(old(State()), id, now)
    {
      if id !in proposals_ {
        return false;
      }
      var proposal := proposals_[id];
      ok := proposal.Activate(now);
      if ok {
        activeProposals_ := activeProposals_ + {id};
      }
      OneProposalChanged(id);
      assert !ok ==> ProposalStates() == old(ProposalStates());
    }

    /** Puts a vote to a filed proposal. */
    method RecordVoteOn(id: string, voter: string, choice: VoteChoice, votingPower: real, now: nat) returns (ok: bool)
      requires Valid() && id in proposals_
      modifies proposals_.Values
      ensures Valid()
      ensures ok == MayVote(old(ProposalStates())[id], voter, now)
      ensures State() == old(State()).(proposals :=
                old(ProposalStates())[id := Voted(old(ProposalStates())[id], voter, choice, votingPower, now).1])
    {
      ok := proposals_[id].RecordVote(voter, choice, votingPower, now);
      OneProposalChanged(id);
    }

    method Vote(env: Env, id: string, voter: string, choice: VoteChoice, now: nat) returns (ok: bool)
      requires Valid()
      modifies proposals_.Values, stakeHolders_.Values
      ensures Valid()
      ensures (ok, State()) == VoteCast(old(State()), env, id, voter, choice, now)
    {
      if id !in proposals_ {
        return false;
      }
      if voter !in stakeHolders_ {
        return false;
      }
      var votingPower := stakeHolders_[voter].GetVotingPower(env);
      ghost var before := State();
      assert voter in before.holders && votingPower == Power(before.holders[voter], env);
      ok := RecordVoteOn(id, voter, choice, votingPower, now);
      ghost var recorded := State();
      assert Holders() == recorded.holders == before.holders;
      if ok {
        Credit(voter, Ballot);
        assert State() == recorded.(holders := before.holders[voter := Credited(before.holders[voter], Ballot)]);
      } else {
        assert State().proposals == old(State()).proposals;
      }
    }

    method FinalizeProposal(env: Env, id: string, now: nat) returns (result: bool)
      requires Valid()
      modifies this`activeProposals_, proposals_.Values
      ensures Valid()
      ensures (result, State()) == ProposalFinalized(old(State()), env, id, now)
    {
      if id !in proposals_ {
        return false;
      }
      var proposal := proposals_[id];
      result := proposal.FinalizeVoting(env.root(totalNetworkStake_), now);
      if result && proposal.data_.status == SUCCEEDED {
        var queued := proposal.QueueForExecution();
      }
      activeProposals_ := activeProposals_ - {id};
      OneProposalChanged(id);
    }

    /** `result` is `None` when the parsing of a number throws. */
    method ExecuteProposalLogic(env: Env, p: ProposalData, allocationId: string, now: nat) returns (result: Option<()>)
      modifies treasury_, validatorRegistry_
      ensures var e := Effect(old(State()), env, p, allocationId, now);
              && (result.Some? <==> e.Some?)
              && State() == if e.None? then old(State())
                            else old(State()).(treasury := e.value.0, validators := e.value.1)
    {
      var params := p.parameters;
      match p.kind {
        case TREASURY_ALLOCATION =>
          if "recipient" in params && "amount" in params {
            var amount := env.parse(params["amount"]);
            if amount.None? {
              return None;
            }
            var purpose := if "purpose" in params then params["purpose"] else "";
            var r := treasury_.CreateAllocation(
              allocationId, p.proposalId, params["recipient"], amount.value, purpose, [], now);
          }
          return Some(());
        case VALIDATOR_ADDITION =>
          if "address" in params && "stake" in params {
            var stake := env.parse(params["stake"]);
            if stake.None? {
              return None;
            }
            var identity := if "identity" in params then params["identity"] else "";
            var ok := validatorRegistry_.AddValidator(params["address"], identity, stake.value, now);
          }
          return Some(());
        case VALIDATOR_REMOVAL =>
          if "address" in params {
            var ok := validatorRegistry_.RemoveValidator(params["address"]);
          }
          return Some(());
        case _ =>
          return Some(());
      }
    }

    method ExecuteProposal(env: Env, id: string, allocationId: string, clock: Clock) returns (result: Option<bool>)
      requires Valid()
      modifies treasury_, validatorRegistry_, proposals_.Values, stakeHolders_.Values
      ensures Valid()
      ensures (result, State()) == ProposalExecuted(old(State()), env, id, allocationId, clock)
    {
      if id !in proposals_ {
        return Some(false);
      }
      var proposal := proposals_[id];
      if !CanExecute(proposal.data_, clock.test) {
        return Some(false);
      }
      var logic := ExecuteProposalLogic(env, proposal.data_, allocationId, clock.effect);
      if logic.None? {
        return None;
      }
      var marked := proposal.Execute(clock.mark);
      OneProposalChanged(id);
      var proposer := proposal.data_.proposer;
      if proposer in stakeHolders_ {
        Credit(proposer, Execution);
      }
      return Some(true);
    }
  }
}
