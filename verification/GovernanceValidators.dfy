/**
 Which validators there are: in every run those that an executed proposal has added, active as long as no executed
 proposal has removed them since, with the identity and the stake of the first proposal that added them.
 */
module GovernanceValidators {
  import opened Options
  import opened Words
  import opened Proposals
  import opened Governance
  import opened GovernanceRuns

  // ---------- when an execution goes through ----------

  /** A number that the effect needs does not parse. */
  predicate Throws(env: Env, p: ProposalData) {
    var ps := p.parameters;
    || (p.kind == TREASURY_ALLOCATION && "recipient" in ps && "amount" in ps && env.parse(ps["amount"]).None?)
    || (p.kind == VALIDATOR_ADDITION && "address" in ps && "stake" in ps && env.parse(ps["stake"]).None?)
  }

  /** The proposal is queued and its time has come. */
  predicate IsDue(d: Dao, id: string, now: nat) {
    id in d.proposals && d.proposals[id].status == QUEUED && now >= d.proposals[id].executionTime
  }

  /** An execution takes effect exactly if the proposal is due and its numbers parse, and answers accordingly. */
  lemma ExecutionAnswers(env: Env, d: Dao, id: string, allocationId: string, clock: Clock)
    ensures TakesEffect(d, env, id, allocationId, clock) <==>
            IsDue(d, id, clock.test) && !Throws(env, d.proposals[id])
    ensures var (answer, d') := ProposalExecuted(d, env, id, allocationId, clock);
            && (answer == Some(true) <==> IsDue(d, id, clock.test) && !Throws(env, d.proposals[id]))
            && (answer == None <==> IsDue(d, id, clock.test) && Throws(env, d.proposals[id]))
            && (answer != Some(true) ==> d' == d)
  {}

  // ---------- validators ----------

  /** The action executes a proposal that adds the validator, or one that removes it. */
  predicate Adds(env: Env, d: Dao, a: Action, address: string) {
    && a.Execute? && IsDue(d, a.id, a.clock.test)
    && var p := d.proposals[a.id];
       && p.kind == VALIDATOR_ADDITION && "address" in p.parameters && "stake" in p.parameters
       && p.parameters["address"] == address && env.parse(p.parameters["stake"]).Some?
  }

  predicate Removes(d: Dao, a: Action, address: string) {
    && a.Execute? && IsDue(d, a.id, a.clock.test)
    && var p := d.proposals[a.id];
       p.kind == VALIDATOR_REMOVAL && "address" in p.parameters && p.parameters["address"] == address
  }

  /** What the registry files for a validator that such an action adds. */
  function Entered(env: Env, d: Dao, a: Action, address: string): ValidatorInfo
    requires Adds(env, d, a, address)
  {
    var ps := d.proposals[a.id].parameters;
    ValidatorInfo(address, if "identity" in ps then ps["identity"] else "", env.parse(ps["stake"]).value,
                  a.clock.effect, 1.0, 0, 0, true)
  }

  lemma OthersLeaveTheRegistry(env: Env, d: Dao, a: Action)
    requires !a.Execute?
    ensures NextDao(env, d, a).validators == d.validators
  {}

  /** What an action makes of the entry of one address. */
  predicate IsNextEntry(env: Env, d: Dao, a: Action, address: string, v: Validators, v': Validators) {
    && (address in v' <==> address in v || Adds(env, d, a, address))
    && (address in v ==> v'[address] == if Removes(d, a, address) then v[address].(active := false) else v[address])
    && (address !in v && address in v' ==> v'[address] == Entered(env, d, a, address))
  }

  lemma ExecutionsMakeEntries(env: Env, d: Dao, a: Action, address: string)
    requires a.Execute?
    ensures IsNextEntry(env, d, a, address, d.validators,
                        ProposalExecuted(d, env, a.id, a.allocationId, a.clock).1.validators)
  {}

  lemma RegistryAfter(env: Env, d: Dao, a: Action, address: string)
    ensures IsNextEntry(env, d, a, address, d.validators, NextDao(env, d, a).validators)
  {
    if a.Execute? {
      ExecutionsMakeEntries(env, d, a, address);
    } else {
      OthersLeaveTheRegistry(env, d, a);
    }
  }

  /** The registry answers success exactly if it has added the address, or knows the one to remove. */
  lemma RegistryAnswers(v: Validators, address: string, identity: string, stake: uint64, now: nat)
    ensures ValidatorAdded(v, address, identity, stake, now).0 <==>
            address !in v && address in ValidatorAdded(v, address, identity, stake, now).1
    ensures ValidatorRemoved(v, address).0 <==>
            address in ValidatorRemoved(v, address).1 && !ValidatorRemoved(v, address).1[address].active && address in v
  {}

  predicate AddsAt(env: Env, initial: uint64, acts: seq<Action>, k: nat, address: string) {
    k < |acts| && Adds(env, Run(env, initial, acts[..k]).dao, acts[k], address)
  }

  predicate RemovesAt(env: Env, initial: uint64, acts: seq<Action>, k: nat, address: string) {
    k < |acts| && Removes(Run(env, initial, acts[..k]).dao, acts[k], address)
  }

  /** Action `k` is the first that adds the validator. */
  ghost predicate AddsFirst(env: Env, initial: uint64, acts: seq<Action>, k: nat, address: string) {
    AddsAt(env, initial, acts, k, address) && forall j: nat | j < k :: !AddsAt(env, initial, acts, j, address)
  }

  /** An action after `k` removes the validator. */
  ghost predicate RemovedSince(env: Env, initial: uint64, acts: seq<Action>, k: nat, address: string) {
    exists j: nat :: j > k && RemovesAt(env, initial, acts, j, address)
  }

  /** What the registry holds for an address that action `k` has added. */
  ghost predicate IsEntry(env: Env, initial: uint64, acts: seq<Action>, k: nat, address: string, info: ValidatorInfo)
    requires AddsAt(env, initial, acts, k, address)
  {
    && info == Entered(env, Run(env, initial, acts[..k]).dao, acts[k], address).(active := info.active)
    && (info.active <==> !RemovedSince(env, initial, acts, k, address))
  }

  ghost predicate AddedEver(env: Env, initial: uint64, acts: seq<Action>, address: string) {
    exists k: nat :: AddsAt(env, initial, acts, k, address)
  }

  lemma SameBefore(env: Env, initial: uint64, acts: seq<Action>, k: nat, address: string)
    requires k < |acts| - 1
    ensures acts[..|acts| - 1][..k] == acts[..k]
    ensures AddsAt(env, initial, acts[..|acts| - 1], k, address) <==> AddsAt(env, initial, acts, k, address)
    ensures RemovesAt(env, initial, acts[..|acts| - 1], k, address) <==> RemovesAt(env, initial, acts, k, address)
  {
    assert acts[..|acts| - 1][..k] == acts[..k];
  }

  lemma SameBeforeAll(env: Env, initial: uint64, acts: seq<Action>, address: string)
    requires acts != []
    ensures var n := |acts| - 1;
            && (forall k: nat | k < n ::
                  AddsAt(env, initial, acts[..n], k, address) <==> AddsAt(env, initial, acts, k, address))
            && (forall k: nat | k < n ::
                  RemovesAt(env, initial, acts[..n], k, address) <==> RemovesAt(env, initial, acts, k, address))
  {
    forall k: nat | k < |acts| - 1
      ensures AddsAt(env, initial, acts[..|acts| - 1], k, address) <==> AddsAt(env, initial, acts, k, address)
      ensures RemovesAt(env, initial, acts[..|acts| - 1], k, address) <==> RemovesAt(env, initial, acts, k, address)
    {
      SameBefore(env, initial, acts, k, address);
    }
  }

  lemma RemovedSinceNext(env: Env, initial: uint64, acts: seq<Action>, k: nat, address: string)
    requires k < |acts| - 1
    ensures var n := |acts| - 1;
            RemovedSince(env, initial, acts, k, address) <==>
            RemovedSince(env, initial, acts[..n], k, address) || RemovesAt(env, initial, acts, n, address)
  {
    SameBeforeAll(env, initial, acts, address);
  }

  lemma EntryStays(
    env: Env, initial: uint64, acts: seq<Action>, k: nat, address: string, info: ValidatorInfo, info': ValidatorInfo)
    requires k < |acts| - 1 && AddsAt(env, initial, acts[..|acts| - 1], k, address)
    requires IsEntry(env, initial, acts[..|acts| - 1], k, address, info)
    requires info' == if RemovesAt(env, initial, acts, |acts| - 1, address) then info.(active := false) else info
    ensures AddsAt(env, initial, acts, k, address) && IsEntry(env, initial, acts, k, address, info')
  {
    SameBefore(env, initial, acts, k, address);
    RemovedSinceNext(env, initial, acts, k, address);
  }

  lemma AddedEverNext(env: Env, initial: uint64, acts: seq<Action>, address: string)
    requires acts != []
    ensures var n := |acts| - 1;
            AddedEver(env, initial, acts, address) <==>
            AddedEver(env, initial, acts[..n], address) || AddsAt(env, initial, acts, n, address)
  {
    var n := |acts| - 1;
    SameBeforeAll(env, initial, acts, address);
    if k: nat :| AddsAt(env, initial, acts[..n], k, address) {
      assert AddsAt(env, initial, acts, k, address);
    }
  }

  /** In every run, the registry holds exactly the addresses that an executed proposal has added. */
  lemma {:induction false} RegisteredExactlyWhenAdded(env: Env, initial: uint64, acts: seq<Action>, address: string)
    ensures address in Run(env, initial, acts).dao.validators <==> AddedEver(env, initial, acts, address)
    decreases |acts|
  {
    if acts != [] {
      var n := |acts| - 1;
      RegisteredExactlyWhenAdded(env, initial, acts[..n], address);
      AddedEverNext(env, initial, acts, address);
      RegistryAfter(env, Run(env, initial, acts[..n]).dao, acts[n], address);
    }
  }

  lemma AddedNow(env: Env, initial: uint64, acts: seq<Action>, address: string)
    requires acts != [] && AddsAt(env, initial, acts, |acts| - 1, address)
    ensures var n := |acts| - 1;
            IsEntry(env, initial, acts, n, address, Entered(env, Run(env, initial, acts[..n]).dao, acts[n], address))
  {}

  lemma FirstIsNew(env: Env, initial: uint64, acts: seq<Action>, address: string)
    requires acts != [] && AddsFirst(env, initial, acts, |acts| - 1, address)
    ensures !AddedEver(env, initial, acts[..|acts| - 1], address)
  {
    SameBeforeAll(env, initial, acts, address);
  }

  lemma EntryIsNew(env: Env, initial: uint64, acts: seq<Action>, address: string)
    requires acts != [] && AddsFirst(env, initial, acts, |acts| - 1, address)
    ensures address in Run(env, initial, acts).dao.validators
    ensures IsEntry(env, initial, acts, |acts| - 1, address, Run(env, initial, acts).dao.validators[address])
  {
    var n := |acts| - 1;
    FirstIsNew(env, initial, acts, address);
    RegisteredExactlyWhenAdded(env, initial, acts[..n], address);
    RegistryAfter(env, Run(env, initial, acts[..n]).dao, acts[n], address);
    AddedNow(env, initial, acts, address);
  }

  function Registry(env: Env, initial: uint64, acts: seq<Action>): Validators {
    Run(env, initial, acts).dao.validators
  }

  /** The last action leaves an entry in place. */
  lemma EntryAfter(env: Env, initial: uint64, acts: seq<Action>, address: string)
    returns (info: ValidatorInfo, info': ValidatorInfo)
    requires acts != [] && address in Registry(env, initial, acts[..|acts| - 1])
    ensures info == Registry(env, initial, acts[..|acts| - 1])[address]
    ensures address in Registry(env, initial, acts) && info' == Registry(env, initial, acts)[address]
    ensures info' == if RemovesAt(env, initial, acts, |acts| - 1, address) then info.(active := false) else info
  {
    var n := |acts| - 1;
    RegistryAfter(env, Run(env, initial, acts[..n]).dao, acts[n], address);
    info, info' := Registry(env, initial, acts[..n])[address], Registry(env, initial, acts)[address];
  }

  /**
   The entry is that of the first action that added the address, and active exactly if no executed proposal has removed
   it since.
   */
  lemma {:induction false} EntriesAreAsVoted(env: Env, initial: uint64, acts: seq<Action>, k: nat, address: string)
    requires AddsFirst(env, initial, acts, k, address)
    ensures address in Registry(env, initial, acts)
    ensures IsEntry(env, initial, acts, k, address, Registry(env, initial, acts)[address])
    decreases |acts|
  {
    var n := |acts| - 1;
    if k < n {
      SameBeforeAll(env, initial, acts, address);
      EntriesAreAsVoted(env, initial, acts[..n], k, address);
      var info, info' := EntryAfter(env, initial, acts, address);
      EntryStays(env, initial, acts, k, address, info, info');
    } else {
      EntryIsNew(env, initial, acts, address);
    }
  }
}
