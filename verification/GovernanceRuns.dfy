/**
 Whole runs of the DAO: every sequence of calls on its interface and, through `getProposal`
 and `getTreasury`, on the objects it hands out.
 */
module GovernanceRuns {
  import opened Options
  import opened MapSums
  import opened Words
  import opened Proposals
  import opened Governance
  import T = Treasuries

  datatype Action =
    | Register(address: string, stake: uint64)
    | RaiseStake(address: string, additional: uint64)
    | Submit(proposer: string, title: string, description: string, kind: ProposalType, id: string, now: nat)
    | Activate(id: string, now: nat)
    | Vote(id: string, voter: string, choice: VoteChoice, now: nat)
    | Finalize(id: string, now: nat)
    | Execute(id: string, allocationId: string, clock: Clock)
    | OnProposal(id: string, event: Event)
    | OnTreasury(op: T.Op)

  /** One ballot: the choice and the voter's power when it was cast. */
  datatype Cast = Cast(choice: VoteChoice, power: real)

  /**
   The DAO and the record of its run: the life of each proposal, the ballots cast on it, the
   proposals whose effect was applied, and what the treasury took in and paid out.
   */
  datatype Chronicle = Chronicle(
    dao: Dao,
    lives: map<string, Life>,
    casts: map<string, map<string, Cast>>,
    effects: seq<string>,
    added: nat,
    paid: nat)

  function Beginning(initialBalance: uint64): Chronicle {
    Chronicle(Founded(initialBalance), map[], map[], [], 0, 0)
  }

  function NextDao(env: Env, d: Dao, a: Action): Dao {
    match a
    case Register(h, stake) => HolderRegistered(d, h, stake).1
    case RaiseStake(h, more) => StakeIncreased(d, h, more).1
    case Submit(proposer, title, text, kind, id, now) => ProposalSubmitted(d, proposer, title, text, kind, id, now).1
    case Activate(id, now) => ProposalActivated(d, id, now).1
    case Vote(id, voter, choice, now) => VoteCast(d, env, id, voter, choice, now).1
    case Finalize(id, now) => ProposalFinalized(d, env, id, now).1
    case Execute(id, allocationId, clock) => ProposalExecuted(d, env, id, allocationId, clock).1
    case OnProposal(id, e) =>
      if id in d.proposals then d.(proposals := d.proposals[id := After(d.proposals[id], e)]) else d
    case OnTreasury(op) => d.(treasury := T.Step(d.treasury, op))
  }

  /** The method calls on proposal `id` that an action makes. */
  function Calls(env: Env, d: Dao, a: Action, id: string): seq<Event>
    requires id in d.proposals
  {
    match a
    case Activate(i, now) => if i == id then [Event(now, Call.Activate)] else []
    case Vote(i, voter, choice, now) =>
      if i != id || voter !in d.holders then []
      else [Event(now, RecordVote(voter, choice, Power(d.holders[voter], env)))]
    case Finalize(i, now) =>
      if i != id then []
      else
        var weight := env.root(d.totalStake);
        [Event(now, FinalizeVoting(weight))] +
        (if Finalized(d.proposals[id], weight, now).0 then [Event(now, QueueForExecution)] else [])
    case Execute(i, allocationId, clock) =>
      if i == id && TakesEffect(d, env, id, allocationId, clock) then [Event(clock.mark, Call.Execute)] else []
    case OnProposal(i, e) => if i == id then [e] else []
    case _ => []
  }

  function Lived(l: Life, es: seq<Event>): Life
    requires |l.states| > 0
    decreases |es|
  {
    if es == [] then l
    else Lived(Life(l.states + [After(l.states[|l.states| - 1], es[0])], l.events + [es[0]]), es[1..])
  }

  /** A submission that files a new proposal. */
  predicate Files(d: Dao, a: Action) {
    a.Submit? && MaySubmit(d, a.proposer)
  }

  predicate CastsVote(d: Dao, a: Action) {
    a.Vote? && VoteCounts(d, a.id, a.voter, a.now)
  }

  /** The treasury operation an action comes to, if any. */
  function Payment(env: Env, d: Dao, a: Action): Option<T.Op> {
    if a.OnTreasury? then Some(a.op)
    else if a.Execute? && TakesEffect(d, env, a.id, a.allocationId, a.clock)
            && d.proposals[a.id].kind == TREASURY_ALLOCATION then
      var p := d.proposals[a.id];
      var ps := p.parameters;
      if "recipient" in ps && "amount" in ps then
        Some(T.Create(a.allocationId, p.proposalId, ps["recipient"], env.parse(ps["amount"]).value,
                      if "purpose" in ps then ps["purpose"] else "", [], a.clock.effect))
      else None
    else None
  }

  function NextLives(env: Env, c: Chronicle, a: Action): map<string, Life> {
    var lived := map id | id in c.lives && id in c.dao.proposals && |c.lives[id].states| > 0 ::
                   Lived(c.lives[id], Calls(env, c.dao, a, id));
    if Files(c.dao, a) then
      lived[a.id := Life([NewProposal(a.id, a.title, a.description, a.kind, a.proposer, a.now)], [])]
    else lived
  }

  function NextCasts(env: Env, c: Chronicle, a: Action): map<string, map<string, Cast>> {
    if Files(c.dao, a) then c.casts[a.id := map[]]
    else if CastsVote(c.dao, a) && a.id in c.casts then
      c.casts[a.id := c.casts[a.id][a.voter := Cast(a.choice, Power(c.dao.holders[a.voter], env))]]
    else c.casts
  }

  function Next(env: Env, c: Chronicle, a: Action): Chronicle {
    var p := Payment(env, c.dao, a);
    Chronicle(
      NextDao(env, c.dao, a),
      NextLives(env, c, a),
      NextCasts(env, c, a),
      if a.Execute? && TakesEffect(c.dao, env, a.id, a.allocationId, a.clock) then c.effects + [a.id] else c.effects,
      c.added + (if p.Some? then T.Added(p.value) else 0),
      c.paid + (if p.Some? then T.PaidOut(c.dao.treasury, p.value) else 0))
  }

  function Run(env: Env, initialBalance: uint64, acts: seq<Action>): Chronicle
    decreases |acts|
  {
    if acts == [] then Beginning(initialBalance)
    else Next(env, Run(env, initialBalance, acts[..|acts| - 1]), acts[|acts| - 1])
  }

  /** `test` holds of every action of the run in the state it meets. */
  ghost predicate Throughout(env: Env, initial: uint64, acts: seq<Action>, test: (Dao, Action) -> bool)
    decreases |acts|
  {
    acts != [] ==>
      var before := acts[..|acts| - 1];
      Throughout(env, initial, before, test) && test(Run(env, initial, before).dao, acts[|acts| - 1])
  }

  // ---------- the lives of the proposals ----------

  /** Every proposal's record is a life, and ends in the state the proposal has. */
  ghost predicate LivesOk(c: Chronicle) {
    && c.lives.Keys == c.dao.proposals.Keys
    && forall id | id in c.lives :: IsLife(c.lives[id]) && Last(c.lives[id]) == c.dao.proposals[id]
  }

  function Last(l: Life): ProposalData
    requires |l.states| > 0
  {
    l.states[|l.states| - 1]
  }

  lemma {:induction false} LivedIsLife(l: Life, es: seq<Event>)
    requires IsLife(l)
    ensures IsLife(Lived(l, es))
    ensures Last(Lived(l, es)) == Replay(Last(l), es)
    decreases |es|
  {
    if es != [] {
      var l' := Life(l.states + [After(Last(l), es[0])], l.events + [es[0]]);
      assert IsLife(l');
      LivedIsLife(l', es[1..]);
    }
  }

  function Replay(d: ProposalData, es: seq<Event>): ProposalData
    decreases |es|
  {
    if es == [] then d else Replay(After(d, es[0]), es[1..])
  }

  /** Whatever the DAO does to a proposal it does through the proposal's methods. */
  lemma ActionsAreCalls(env: Env, d: Dao, a: Action, id: string)
    requires id in d.proposals && !(Files(d, a) && a.id == id)
    ensures var d' := NextDao(env, d, a);
            id in d'.proposals && d'.proposals[id] == Replay(d.proposals[id], Calls(env, d, a, id))
  {
    var es := Calls(env, d, a, id);
    if |es| == 1 {
      assert es[1..] == [];
    }
    match a
    case Finalize(i, now) =>
      if i == id {
        var (passed, p) := Finalized(d.proposals[id], env.root(d.totalStake), now);
        assert es[1..] == if passed then [Event(now, QueueForExecution)] else [];
        assert Replay(p, es[1..]) == if passed then Queued(p).1 else p by {
          assert es[1..] != [] ==> es[1..][1..] == [];
        }
      }
    case _ =>
  }

  lemma ProposalsStay(env: Env, d: Dao, a: Action)
    ensures NextDao(env, d, a).proposals.Keys == if Files(d, a) then d.proposals.Keys + {a.id} else d.proposals.Keys
    ensures Files(d, a) ==>
              NextDao(env, d, a).proposals[a.id] == NewProposal(a.id, a.title, a.description, a.kind, a.proposer, a.now)
  {}

  lemma LifeGoesOn(env: Env, c: Chronicle, a: Action, id: string)
    requires LivesOk(c) && id in c.lives && !(Files(c.dao, a) && a.id == id)
    ensures var l := Lived(c.lives[id], Calls(env, c.dao, a, id));
            IsLife(l) && id in NextDao(env, c.dao, a).proposals && Last(l) == NextDao(env, c.dao, a).proposals[id]
  {
    ActionsAreCalls(env, c.dao, a, id);
    LivedIsLife(c.lives[id], Calls(env, c.dao, a, id));
  }

  lemma LivesRecorded(env: Env, c: Chronicle, a: Action)
    requires LivesOk(c)
    ensures NextLives(env, c, a).Keys == if Files(c.dao, a) then c.lives.Keys + {a.id} else c.lives.Keys
    ensures forall id | id in c.lives && !(Files(c.dao, a) && a.id == id) ::
              id in NextLives(env, c, a) && NextLives(env, c, a)[id] == Lived(c.lives[id], Calls(env, c.dao, a, id))
  {}

  lemma NextKeepsLives(env: Env, c: Chronicle, a: Action)
    requires LivesOk(c)
    ensures LivesOk(Next(env, c, a))
  {
    ProposalsStay(env, c.dao, a);
    LivesRecorded(env, c, a);
    var d', lives' := NextDao(env, c.dao, a), NextLives(env, c, a);
    forall id | id in lives'
      ensures IsLife(lives'[id]) && Last(lives'[id]) == d'.proposals[id]
    {
      if !(Files(c.dao, a) && a.id == id) {
        LifeGoesOn(env, c, a, id);
      }
    }
  }

  lemma {:induction false} RunKeepsLives(env: Env, initial: uint64, acts: seq<Action>)
    ensures LivesOk(Run(env, initial, acts))
    decreases |acts|
  {
    if acts != [] {
      RunKeepsLives(env, initial, acts[..|acts| - 1]);
      NextKeepsLives(env, Run(env, initial, acts[..|acts| - 1]), acts[|acts| - 1]);
    }
  }

  lemma LifeOf(env: Env, initial: uint64, acts: seq<Action>, id: string) returns (l: Life)
    requires id in Run(env, initial, acts).dao.proposals
    ensures id in Run(env, initial, acts).lives && l == Run(env, initial, acts).lives[id]
    ensures IsLife(l) && Last(l) == Run(env, initial, acts).dao.proposals[id]
  {
    RunKeepsLives(env, initial, acts);
    l := Run(env, initial, acts).lives[id];
  }

  /** In every run, a proposal that has been executed took the whole path and at least 21 days for it. */
  lemma ExecutedProposalTookTheWholePath(env: Env, initial: uint64, acts: seq<Action>, id: string)
    returns (l: Life, a: nat, f: nat, q: nat, x: nat)
    requires id in Run(env, initial, acts).dao.proposals && Run(env, initial, acts).dao.proposals[id].status == EXECUTED
    ensures id in Run(env, initial, acts).lives && l == Run(env, initial, acts).lives[id]
    ensures IsLife(l) && Last(l) == Run(env, initial, acts).dao.proposals[id]
    ensures ExecutedAt(l, |l.states| - 1, a, f, q, x)
    ensures l.events[x].at >= l.events[a].at + FOURTEEN_DAYS + SEVEN_DAYS
  {
    l := LifeOf(env, initial, acts, id);
    a, f, q, x := HowExecuted(l, |l.states| - 1);
  }

  // ---------- one effect for one proposal ----------

  /** A submission never reuses the id of a proposal. */
  predicate FreshIds(d: Dao, a: Action) {
    Files(d, a) ==> a.id !in d.proposals
  }

  /** Within one execution the clock does not step back. */
  predicate SteadyClock(d: Dao, a: Action) {
    a.Execute? ==> a.clock.test <= a.clock.mark
  }

  ghost predicate EffectsOk(c: Chronicle) {
    && (forall i | 0 <= i < |c.effects| ::
          c.effects[i] in c.dao.proposals && c.dao.proposals[c.effects[i]].status == EXECUTED)
    && (forall i, j | 0 <= i < j < |c.effects| :: c.effects[i] != c.effects[j])
  }

  lemma ExecutedStaysExecuted(env: Env, d: Dao, a: Action, id: string)
    requires id in d.proposals && d.proposals[id].status == EXECUTED && FreshIds(d, a)
    ensures id in NextDao(env, d, a).proposals && NextDao(env, d, a).proposals[id].status == EXECUTED
  {}

  lemma NextKeepsEffects(env: Env, c: Chronicle, a: Action)
    requires EffectsOk(c) && FreshIds(c.dao, a) && SteadyClock(c.dao, a)
    ensures EffectsOk(Next(env, c, a))
  {
    forall i | 0 <= i < |c.effects|
      ensures c.effects[i] in NextDao(env, c.dao, a).proposals
      ensures NextDao(env, c.dao, a).proposals[c.effects[i]].status == EXECUTED
    {
      ExecutedStaysExecuted(env, c.dao, a, c.effects[i]);
    }
  }

  /** No proposal's effect is applied twice, and one whose effect was applied is marked executed. */
  lemma {:induction false} EffectsHappenOnce(env: Env, initial: uint64, acts: seq<Action>)
    requires Throughout(env, initial, acts, FreshIds) && Throughout(env, initial, acts, SteadyClock)
    ensures EffectsOk(Run(env, initial, acts))
    decreases |acts|
  {
    if acts != [] {
      EffectsHappenOnce(env, initial, acts[..|acts| - 1]);
      NextKeepsEffects(env, Run(env, initial, acts[..|acts| - 1]), acts[|acts| - 1]);
    }
  }

  /**
   The clock matters: after an effect, the proposal can be executed once more exactly when
   the clock had stepped back below its execution time before the proposal was marked.
   */
  lemma EffectCanRepeatWhenTheClockStepsBack(env: Env, d: Dao, id: string, allocationId: string, clock: Clock)
    requires TakesEffect(d, env, id, allocationId, clock)
    ensures var d' := ProposalExecuted(d, env, id, allocationId, clock).1;
            (exists t :: CanExecute(d'.proposals[id], t)) <==> clock.mark < d.proposals[id].executionTime
  {
    var d' := ProposalExecuted(d, env, id, allocationId, clock).1;
    assert clock.mark < d.proposals[id].executionTime ==> CanExecute(d'.proposals[id], clock.test);
  }

  // ---------- votes ----------

  function PowerOf(casts: map<string, Cast>, choice: VoteChoice): map<string, real> {
    map v | v in casts && casts[v].choice == choice :: casts[v].power
  }

  function AllPower(casts: map<string, Cast>): map<string, real> {
    map v | v in casts :: casts[v].power
  }

  /** The tallies are the sums of the ballots' powers, one ballot for each voter. */
  ghost predicate TalliesMatch(p: ProposalData, casts: map<string, Cast>) {
    && p.voters == casts.Keys
    && p.votesFor == RealSum(PowerOf(casts, FOR))
    && p.votesAgainst == RealSum(PowerOf(casts, AGAINST))
    && p.votesAbstain == RealSum(PowerOf(casts, ABSTAIN))
    && p.totalVotingPower == RealSum(AllPower(casts))
    && p.totalVotingPower == p.votesFor + p.votesAgainst + p.votesAbstain
  }

  lemma PowerAfterVote(casts: map<string, Cast>, voter: string, choice: VoteChoice, power: real, o: VoteChoice)
    requires voter !in casts
    ensures RealSum(PowerOf(casts[voter := Cast(choice, power)], o)) ==
            RealSum(PowerOf(casts, o)) + (if o == choice then power else 0.0)
  {
    var casts' := casts[voter := Cast(choice, power)];
    assert PowerOf(casts', o) == if o == choice then PowerOf(casts, o)[voter := power] else PowerOf(casts, o);
    RealSumPuts(PowerOf(casts, o), voter, power);
  }

  lemma AllPowerAfterVote(casts: map<string, Cast>, voter: string, choice: VoteChoice, power: real)
    requires voter !in casts
    ensures RealSum(AllPower(casts[voter := Cast(choice, power)])) == RealSum(AllPower(casts)) + power
  {
    assert AllPower(casts[voter := Cast(choice, power)]) == AllPower(casts)[voter := power];
    RealSumPuts(AllPower(casts), voter, power);
  }

  lemma TalliesMatchAfterVote(
    p: ProposalData, casts: map<string, Cast>, voter: string, choice: VoteChoice, power: real, now: nat)
    requires TalliesMatch(p, casts) && MayVote(p, voter, now)
    ensures TalliesMatch(Voted(p, voter, choice, power, now).1, casts[voter := Cast(choice, power)])
  {
    PowerAfterVote(casts, voter, choice, power, FOR);
    PowerAfterVote(casts, voter, choice, power, AGAINST);
    PowerAfterVote(casts, voter, choice, power, ABSTAIN);
    AllPowerAfterVote(casts, voter, choice, power);
  }

  /** Votes reach proposals through the DAO only. */
  predicate VotesThroughDao(d: Dao, a: Action) {
    FreshIds(d, a) && (a.OnProposal? ==> !a.event.call.RecordVote?)
  }

  /** The proposals a holder has voted on. */
  function VotedOn(d: Dao, h: string): set<string> {
    set id | id in d.proposals && h in d.proposals[id].voters
  }

  ghost predicate VotesOk(c: Chronicle) {
    && c.casts.Keys == c.dao.proposals.Keys
    && (forall id | id in c.casts :: TalliesMatch(c.dao.proposals[id], c.casts[id]))
    && (forall id | id in c.casts :: c.dao.proposals[id].voters <= c.dao.holders.Keys)
    && (forall h | h in c.dao.holders :: c.dao.holders[h].votesParticipated == |VotedOn(c.dao, h)|)
  }

  /** What any action but a vote that counts leaves of the tallies. */
  lemma TalliesOtherwiseStay(env: Env, d: Dao, a: Action, id: string)
    requires VotesThroughDao(d, a) && id in d.proposals && !(CastsVote(d, a) && a.id == id)
    ensures id in NextDao(env, d, a).proposals
    ensures Tallies(NextDao(env, d, a).proposals[id]) == Tallies(d.proposals[id])
  {}

  /** A holder's count of votes goes up by the vote that counts; a new holder starts at none. */
  lemma CountAfter(env: Env, d: Dao, a: Action, h: string)
    requires h in NextDao(env, d, a).holders
    ensures NextDao(env, d, a).holders[h].votesParticipated ==
            (if h in d.holders then d.holders[h].votesParticipated else 0) +
            (if CastsVote(d, a) && a.voter == h then 1 else 0)
  {}

  lemma HoldersStay(env: Env, d: Dao, a: Action)
    ensures d.holders.Keys <= NextDao(env, d, a).holders.Keys
  {}

  lemma NextKeepsTalliesOf(env: Env, c: Chronicle, a: Action, id: string)
    requires VotesOk(c) && VotesThroughDao(c.dao, a) && id in c.casts
    ensures var d', casts' := NextDao(env, c.dao, a), NextCasts(env, c, a);
            id in d'.proposals && id in casts' && TalliesMatch(d'.proposals[id], casts'[id])
  {
    var d := c.dao;
    if CastsVote(d, a) && a.id == id {
      TalliesMatchAfterVote(d.proposals[id], c.casts[id], a.voter, a.choice, Power(d.holders[a.voter], env), a.now);
    } else {
      TalliesOtherwiseStay(env, d, a, id);
    }
  }

  /** Who has voted on a proposal changes by the vote that counts. */
  lemma VotersAfter(env: Env, d: Dao, a: Action, id: string)
    requires VotesThroughDao(d, a) && id in NextDao(env, d, a).proposals
    ensures NextDao(env, d, a).proposals[id].voters ==
            (if id in d.proposals then d.proposals[id].voters else {}) +
            (if CastsVote(d, a) && a.id == id then {a.voter} else {})
  {
    ProposalsStay(env, d, a);
    if id in d.proposals && !(CastsVote(d, a) && a.id == id) {
      TalliesOtherwiseStay(env, d, a, id);
    }
  }

  lemma CastsAreFiled(env: Env, c: Chronicle, a: Action)
    requires VotesOk(c) && VotesThroughDao(c.dao, a)
    ensures NextCasts(env, c, a).Keys == NextDao(env, c.dao, a).proposals.Keys
  {
    ProposalsStay(env, c.dao, a);
  }

  lemma NewTalliesMatch(env: Env, c: Chronicle, a: Action, id: string)
    requires VotesOk(c) && VotesThroughDao(c.dao, a) && id in NextCasts(env, c, a) && id !in c.casts
    ensures id in NextDao(env, c.dao, a).proposals
    ensures TalliesMatch(NextDao(env, c.dao, a).proposals[id], NextCasts(env, c, a)[id])
  {
    CastsAreFiled(env, c, a);
  }

  lemma NextKeepsTallies(env: Env, c: Chronicle, a: Action, d': Dao, casts': map<string, map<string, Cast>>)
    requires VotesOk(c) && VotesThroughDao(c.dao, a) && d' == NextDao(env, c.dao, a) && casts' == NextCasts(env, c, a)
    ensures casts'.Keys == d'.proposals.Keys
    ensures forall id | id in casts' :: TalliesMatch(d'.proposals[id], casts'[id])
  {
    CastsAreFiled(env, c, a);
    forall id | id in casts'
      ensures TalliesMatch(d'.proposals[id], casts'[id])
    {
      if id in c.casts {
        NextKeepsTalliesOf(env, c, a, id);
      } else {
        NewTalliesMatch(env, c, a, id);
      }
    }
  }

  lemma VotedOnAfter(d: Dao, d': Dao, h: string, votes: bool, on: string)
    requires d.proposals.Keys <= d'.proposals.Keys
    requires votes ==> on in d.proposals && h !in d.proposals[on].voters
    requires forall id | id in d'.proposals ::
               h in d'.proposals[id].voters <==>
               (id in d.proposals && h in d.proposals[id].voters) || (votes && id == on)
    ensures |VotedOn(d', h)| == |VotedOn(d, h)| + (if votes then 1 else 0)
  {
    assert VotedOn(d', h) == VotedOn(d, h) + (if votes then {on} else {});
  }

  lemma VotedOnGrows(env: Env, d: Dao, a: Action, d': Dao, h: string)
    requires VotesThroughDao(d, a) && d' == NextDao(env, d, a)
    ensures |VotedOn(d', h)| == |VotedOn(d, h)| + (if CastsVote(d, a) && a.voter == h then 1 else 0)
  {
    ProposalsStay(env, d, a);
    forall id | id in d'.proposals
      ensures d'.proposals[id].voters == (if id in d.proposals then d.proposals[id].voters else {}) +
                                         (if CastsVote(d, a) && a.id == id then {a.voter} else {})
    {
      VotersAfter(env, d, a, id);
    }
    var votes := CastsVote(d, a) && a.voter == h;
    VotedOnAfter(d, d', h, votes, if votes then a.id else "");
  }

  lemma NextKeepsParticipation(env: Env, c: Chronicle, a: Action, d': Dao, h: string)
    requires VotesOk(c) && VotesThroughDao(c.dao, a) && d' == NextDao(env, c.dao, a) && h in d'.holders
    ensures d'.holders[h].votesParticipated == |VotedOn(d', h)|
  {
    var d := c.dao;
    CountAfter(env, d, a, h);
    VotedOnGrows(env, d, a, d', h);
    if h !in d.holders {
      assert VotedOn(d, h) == {};
    }
  }

  lemma NextKeepsVoters(env: Env, c: Chronicle, a: Action, d': Dao, id: string)
    requires VotesOk(c) && VotesThroughDao(c.dao, a) && d' == NextDao(env, c.dao, a) && id in d'.proposals
    ensures d'.proposals[id].voters <= d'.holders.Keys
  {
    VotersAfter(env, c.dao, a, id);
    HoldersStay(env, c.dao, a);
  }

  lemma NextKeepsVotes(env: Env, c: Chronicle, a: Action)
    requires VotesOk(c) && VotesThroughDao(c.dao, a)
    ensures VotesOk(Next(env, c, a))
  {
    var d' := NextDao(env, c.dao, a);
    NextKeepsTallies(env, c, a, d', NextCasts(env, c, a));
    forall id | id in d'.proposals
      ensures d'.proposals[id].voters <= d'.holders.Keys
    {
      NextKeepsVoters(env, c, a, d', id);
    }
    forall h | h in d'.holders
      ensures d'.holders[h].votesParticipated == |VotedOn(d', h)|
    {
      NextKeepsParticipation(env, c, a, d', h);
    }
  }

  /**
   In every run the three objects agree on every vote: each proposal's tallies are the sums of
   the powers its voters had when they voted, and each holder's count of votes is the number
   of proposals whose voters include that holder.
   */
  lemma {:induction false} VotesAgree(env: Env, initial: uint64, acts: seq<Action>)
    requires Throughout(env, initial, acts, VotesThroughDao)
    ensures VotesOk(Run(env, initial, acts))
    decreases |acts|
  {
    if acts != [] {
      VotesAgree(env, initial, acts[..|acts| - 1]);
      var c := Run(env, initial, acts[..|acts| - 1]);
      NextKeepsVotes(env, c, acts[|acts| - 1]);
    }
  }

  // ---------- the set of active proposals ----------

  ghost predicate ActiveExact(d: Dao) {
    d.active == set id | id in d.proposals && d.proposals[id].status == ACTIVE
  }

  /**
   The actions that leave the set of active proposals wrong: finalizing too early, which drops
   a proposal that stays open; filing over an open one; and, directly, activating a draft, cancelling
   an open one or finalizing it after its window.
   */
  predicate SpoilsActive(d: Dao, a: Action) {
    match a
    case Finalize(id, now) =>
      id in d.proposals && d.proposals[id].status == ACTIVE && now < d.proposals[id].votingEndTime
    case Submit(_, _, _, _, id, _) => Files(d, a) && id in d.proposals && d.proposals[id].status == ACTIVE
    case OnProposal(id, e) =>
      && id in d.proposals
      && (match e.call
          case Activate => d.proposals[id].status == DRAFT
          case Cancel => d.proposals[id].status == ACTIVE
          case FinalizeVoting(_) => d.proposals[id].status == ACTIVE && e.at >= d.proposals[id].votingEndTime
          case _ => false)
    case _ => false
  }

  predicate IsOpen(d: Dao, id: string) {
    id in d.proposals && d.proposals[id].status == ACTIVE
  }

  /** The proposals an action says nothing about stay as they are, in the set or out of it. */
  lemma OthersStayActive(env: Env, d: Dao, a: Action, id: string)
    requires !((a.Submit? || a.Activate? || a.Finalize? || a.OnProposal?) && a.id == id)
    ensures var d' := NextDao(env, d, a);
            IsOpen(d', id) == IsOpen(d, id) && (id in d'.active <==> id in d.active)
  {}

  /** How the calls that can be made on a proposal directly open and close it. */
  lemma DirectCallOpensOrCloses(p: ProposalData, e: Event)
    ensures (After(p, e).status == ACTIVE) != (p.status == ACTIVE) <==>
            match e.call
            case Activate => p.status == DRAFT
            case Cancel => p.status == ACTIVE
            case FinalizeVoting(_) => p.status == ACTIVE && e.at >= p.votingEndTime
            case _ => false
  {}

  lemma DirectTargetStaysActive(env: Env, d: Dao, a: Action)
    requires ActiveExact(d) && a.OnProposal?
    ensures var d' := NextDao(env, d, a);
            (a.id in d'.active <==> IsOpen(d', a.id)) <==> !SpoilsActive(d, a)
  {
    if a.id in d.proposals {
      DirectCallOpensOrCloses(d.proposals[a.id], a.event);
    }
  }

  lemma FinalizedTargetStaysActive(env: Env, d: Dao, a: Action)
    requires ActiveExact(d) && a.Finalize?
    ensures var d' := NextDao(env, d, a);
            (a.id in d'.active <==> IsOpen(d', a.id)) <==> !SpoilsActive(d, a)
  {}

  /** For the one it is about, set and status agree unless the action spoils them. */
  lemma TargetStaysActive(env: Env, d: Dao, a: Action)
    requires ActiveExact(d) && (a.Submit? || a.Activate? || a.Finalize? || a.OnProposal?)
    ensures var d' := NextDao(env, d, a);
            (a.id in d'.active <==> IsOpen(d', a.id)) <==> !SpoilsActive(d, a)
  {
    if a.OnProposal? {
      DirectTargetStaysActive(env, d, a);
    } else if a.Finalize? {
      FinalizedTargetStaysActive(env, d, a);
    }
  }

  /** From a state where the set is exact, exactly the other actions keep it so. */
  lemma ActiveStaysExactUnlessSpoiled(env: Env, d: Dao, a: Action, d': Dao)
    requires ActiveExact(d) && d' == NextDao(env, d, a)
    ensures ActiveExact(d') <==> !SpoilsActive(d, a)
  {
    var targeted := a.Submit? || a.Activate? || a.Finalize? || a.OnProposal?;
    if targeted {
      TargetStaysActive(env, d, a);
    }
    forall id | !(targeted && a.id == id)
      ensures id in d'.active <==> IsOpen(d', id)
    {
      OthersStayActive(env, d, a, id);
      assert id in d.active <==> IsOpen(d, id);
    }
    AgreementIsExactness(d');
  }

  lemma AgreementIsExactness(d: Dao)
    ensures ActiveExact(d) <==> forall id :: id in d.active <==> IsOpen(d, id)
  {}

  predicate KeepsActive(d: Dao, a: Action) {
    !SpoilsActive(d, a)
  }

  lemma {:induction false} ActiveIsExact(env: Env, initial: uint64, acts: seq<Action>)
    requires Throughout(env, initial, acts, KeepsActive)
    ensures ActiveExact(Run(env, initial, acts).dao)
    decreases |acts|
  {
    if acts != [] {
      var before := acts[..|acts| - 1];
      ActiveIsExact(env, initial, before);
      ActiveStaysExactUnlessSpoiled(
        env, Run(env, initial, before).dao, acts[|acts| - 1], Run(env, initial, acts).dao);
    }
  }

  ghost predicate AlwaysExact(env: Env, initial: uint64, acts: seq<Action>)
    decreases |acts|
  {
    && ActiveExact(Run(env, initial, acts).dao)
    && (acts != [] ==> AlwaysExact(env, initial, acts[..|acts| - 1]))
  }

  /** In every run: the set is always exact exactly when no action of the run spoils it. */
  lemma {:induction false} AlwaysExactExactlyWhen(env: Env, initial: uint64, acts: seq<Action>)
    ensures AlwaysExact(env, initial, acts) <==> Throughout(env, initial, acts, KeepsActive)
    decreases |acts|
  {
    if acts != [] {
      var before := acts[..|acts| - 1];
      AlwaysExactExactlyWhen(env, initial, before);
      if AlwaysExact(env, initial, before) {
        ActiveStaysExactUnlessSpoiled(
          env, Run(env, initial, before).dao, acts[|acts| - 1], Run(env, initial, acts).dao);
      }
    }
  }

  // ---------- money ----------

  /** Funds added directly do not push the balance past 64 bits. */
  predicate FundsFit(d: Dao, a: Action) {
    a.OnTreasury? ==> T.NoWrap(d.treasury, a.op)
  }

  lemma TreasuryMovesByPayments(env: Env, d: Dao, a: Action)
    ensures var p := Payment(env, d, a);
            NextDao(env, d, a).treasury == if p.Some? then T.Step(d.treasury, p.value) else d.treasury
  {}

  /** Whatever proposals are executed, the treasury stays solvent and every unit is accounted for. */
  lemma {:induction false} DaoTreasuryStaysSolvent(env: Env, initial: uint64, acts: seq<Action>)
    requires Throughout(env, initial, acts, FundsFit)
    ensures var c := Run(env, initial, acts);
            T.Solvent(c.dao.treasury) && initial + c.added == c.dao.treasury.balance + c.paid
    decreases |acts|
  {
    if acts != [] {
      var before, a := acts[..|acts| - 1], acts[|acts| - 1];
      DaoTreasuryStaysSolvent(env, initial, before);
      var d := Run(env, initial, before).dao;
      TreasuryMovesByPayments(env, d, a);
      var p := Payment(env, d, a);
      if p.Some? {
        T.NothingWraps(d.treasury, p.value);
        T.StepKeepsSolvency(d.treasury, p.value);
      }
    }
  }
}
