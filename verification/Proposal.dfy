/**
 A governance proposal: its status, its tallies and its deadlines, and what every sequence
 of calls on it, at whatever times, can lead to.
 */
module Proposals {
  import opened Words

  const VOTING_PERIOD_DAYS := 14
  const TIMELOCK_PERIOD_DAYS := 7
  const QUORUM_PERCENT := 10.0
  const APPROVAL_THRESHOLD_PERCENT := 66.67
  const EMERGENCY_THRESHOLD_PERCENT := 80.0

  datatype ProposalType =
    | PARAMETER_CHANGE | PROTOCOL_UPGRADE | VALIDATOR_ADDITION | VALIDATOR_REMOVAL
    | TREASURY_ALLOCATION | EMERGENCY_HALT | CONSTITUTION_AMENDMENT

  datatype VoteChoice = ABSTAIN | FOR | AGAINST

  datatype ProposalStatus = DRAFT | ACTIVE | SUCCEEDED | DEFEATED | QUEUED | EXECUTED | CANCELLED | EXPIRED

  /**
   The fields the governance code uses; the three times the source leaves unset until they have a meaning start at
   0.
   */
  datatype ProposalData = ProposalData(
    proposalId: string, title: string, description: string, kind: ProposalType, proposer: string,
    submissionTime: nat, votingStartTime: nat, votingEndTime: nat, executionTime: nat,
    status: ProposalStatus,
    votesFor: real, votesAgainst: real, votesAbstain: real, totalVotingPower: real,
    parameters: map<string, string>, supportingDocuments: seq<string>,
    voters: set<string>)

  function NewProposal(id: string, title: string, description: string, kind: ProposalType, proposer: string,
                       now: nat): ProposalData
  {
    ProposalData(id, title, description, kind, proposer, now, 0, 0, 0, DRAFT, 0.0, 0.0, 0.0, 0.0, map[], [], {})
  }

  function Activated(d: ProposalData, now: nat): (bool, ProposalData) {
    if d.status != DRAFT then (false, d)
    else (true, d.(votingStartTime := now, votingEndTime := now + VOTING_PERIOD_DAYS * DAY, status := ACTIVE))
  }

  predicate MayVote(d: ProposalData, voter: string, now: nat) {
    d.status == ACTIVE && d.votingStartTime <= now <= d.votingEndTime && voter !in d.voters
  }

  function Voted(d: ProposalData, voter: string, choice: VoteChoice, power: real, now: nat): (bool, ProposalData) {
    if !MayVote(d, voter, now) then (false, d)
    else
      var counted :=
        match choice
        case FOR => d.(votesFor := d.votesFor + power)
        case AGAINST => d.(votesAgainst := d.votesAgainst + power)
        case ABSTAIN => d.(votesAbstain := d.votesAbstain + power);
      (true, counted.(voters := d.voters + {voter}, totalVotingPower := d.totalVotingPower + power))
  }

  /** The approval a proposal needs, in percent of the votes that are not abstentions. */
  function RequiredThreshold(kind: ProposalType): real {
    if kind == EMERGENCY_HALT || kind == CONSTITUTION_AMENDMENT then EMERGENCY_THRESHOLD_PERCENT
    else APPROVAL_THRESHOLD_PERCENT
  }

  /** A tenth of the weight `stakeWeight` that the network's stake is given took part. */
  predicate MeetsQuorum(d: ProposalData, stakeWeight: real) {
    d.totalVotingPower >= stakeWeight * (QUORUM_PERCENT / 100.0)
  }

  predicate MeetsThreshold(d: ProposalData) {
    var decided := d.votesFor + d.votesAgainst;
    decided != 0.0 && d.votesFor / decided * 100.0 >= RequiredThreshold(d.kind)
  }

  predicate IsOrdinary(kind: ProposalType) {
    kind != EMERGENCY_HALT && kind != CONSTITUTION_AMENDMENT
  }

  /** Enough votes for: 66.67 of 100 that are not abstentions, or 80 for an emergency or a change of the rules. */
  predicate Carries(d: ProposalData) {
    d.votesFor > 0.0 &&
    if IsOrdinary(d.kind) then 3333.0 * d.votesFor >= 6667.0 * d.votesAgainst
    else d.votesFor >= 4.0 * d.votesAgainst
  }

  /**
   What the percentages come to: 6667 votes for to 3333 against, and for an emergency or a change of the rules
   themselves four to one.
   */
  lemma ThresholdIsASupermajority(d: ProposalData)
    requires d.votesFor >= 0.0 && d.votesAgainst >= 0.0
    ensures MeetsThreshold(d) <==> Carries(d)
    ensures MeetsThreshold(d) ==> d.votesFor > 2.0 * d.votesAgainst
  {
    var decided := d.votesFor + d.votesAgainst;
    if decided != 0.0 {
      assert decided > 0.0;
      ShareAtLeast(d.votesFor, decided, 66.67);
      ShareAtLeast(d.votesFor, decided, 80.0);
    }
  }

  lemma ShareAtLeast(part: real, whole: real, percent: real)
    requires whole > 0.0
    ensures part / whole * 100.0 >= percent <==> part * 100.0 >= percent * whole
  {}

  function Finalized(d: ProposalData, stakeWeight: real, now: nat): (bool, ProposalData) {
    if d.status != ACTIVE || now < d.votingEndTime then (false, d)
    else if !MeetsQuorum(d, stakeWeight) then (false, d.(status := EXPIRED))
    else if !MeetsThreshold(d) then (false, d.(status := DEFEATED))
    else (true, d.(status := SUCCEEDED, executionTime := now + TIMELOCK_PERIOD_DAYS * DAY))
  }

  /** After its window an open proposal expires, passes or is defeated, exactly by these counts. */
  lemma HowFinalizingEnds(d: ProposalData, stakeWeight: real, now: nat)
    requires d.status == ACTIVE && now >= d.votingEndTime && d.votesFor >= 0.0 && d.votesAgainst >= 0.0
    ensures var (passed, d') := Finalized(d, stakeWeight, now);
            && (d'.status == EXPIRED <==> 10.0 * d.totalVotingPower < stakeWeight)
            && (d'.status == SUCCEEDED <==> 10.0 * d.totalVotingPower >= stakeWeight && Carries(d))
            && (d'.status == DEFEATED <==> 10.0 * d.totalVotingPower >= stakeWeight && !Carries(d))
            && (passed <==> d'.status == SUCCEEDED)
  {
    ThresholdIsASupermajority(d);
  }

  /** Before the end of its window, or if it is not open, nothing happens to it. */
  lemma FinalizingElsewhereDoesNothing(d: ProposalData, stakeWeight: real, now: nat)
    ensures Finalized(d, stakeWeight, now) == (false, d) <==> d.status != ACTIVE || now < d.votingEndTime
  {}

  function Queued(d: ProposalData): (bool, ProposalData) {
    if d.status != SUCCEEDED then (false, d) else (true, d.(status := QUEUED))
  }

  predicate CanExecute(d: ProposalData, now: nat) {
    d.status == QUEUED && now >= d.executionTime
  }

  function Executed(d: ProposalData, now: nat): (bool, ProposalData) {
    if !CanExecute(d, now) then (false, d) else (true, d.(status := EXECUTED))
  }

  function CancelledByProposer(d: ProposalData): (bool, ProposalData) {
    if d.status == EXECUTED then (false, d) else (true, d.(status := CANCELLED))
  }

  class Proposal {
    var data_: ProposalData

    constructor (id: string, title: string, description: string, kind: ProposalType, proposer: string, now: nat)
      ensures data_ == NewProposal(id, title, description, kind, proposer, now)
    {
      data_ := NewProposal(id, title, description, kind, proposer, now);
    }

    method Activate(now: nat) returns (ok: bool)
      modifies this
      ensures (ok, data_) == Activated(old(data_), now)
    {
      if data_.status != DRAFT {
        return false;
      }
      data_ := data_.(votingStartTime := now);
      data_ := data_.(votingEndTime := now + VOTING_PERIOD_DAYS * DAY);
      data_ := data_.(status := ACTIVE);
      return true;
    }

    method RecordVote(voter: string, choice: VoteChoice, votingPower: real, now: nat) returns (ok: bool)
      modifies this
      ensures (ok, data_) == Voted(old(data_), voter, choice, votingPower, now)
    {
      if data_.status != ACTIVE {
        return false;
      }
      if now < data_.votingStartTime || now > data_.votingEndTime {
        return false;
      }
      if voter in data_.voters {
        return false;
      }
      data_ := data_.(voters := data_.voters + {voter});
      match choice {
        case FOR => data_ := data_.(votesFor := data_.votesFor + votingPower);
        case AGAINST => data_ := data_.(votesAgainst := data_.votesAgainst + votingPower);
        case ABSTAIN => data_ := data_.(votesAbstain := data_.votesAbstain + votingPower);
      }
      data_ := data_.(totalVotingPower := data_.totalVotingPower + votingPower);
      return true;
    }

    method FinalizeVoting(stakeWeight: real, now: nat) returns (ok: bool)
      modifies this
      ensures (ok, data_) == Finalized(old(data_), stakeWeight, now)
    {
      if data_.status != ACTIVE {
        return false;
      }
      if now < data_.votingEndTime {
        return false;
      }
      var quorumRequired := stakeWeight * (QUORUM_PERCENT / 100.0);
      if data_.totalVotingPower < quorumRequired {
        data_ := data_.(status := EXPIRED);
        return false;
      }
      var totalVotes := data_.votesFor + data_.votesAgainst;
      if totalVotes == 0.0 {
        data_ := data_.(status := DEFEATED);
        return false;
      }
      var approvalPercent := data_.votesFor / totalVotes * 100.0;
      var requiredThreshold := APPROVAL_THRESHOLD_PERCENT;
      if data_.kind == EMERGENCY_HALT || data_.kind == CONSTITUTION_AMENDMENT {
        requiredThreshold := EMERGENCY_THRESHOLD_PERCENT;
      }
      if approvalPercent >= requiredThreshold {
        data_ := data_.(status := SUCCEEDED);
        data_ := data_.(executionTime := now + TIMELOCK_PERIOD_DAYS * DAY);
        return true;
      } else {
        data_ := data_.(status := DEFEATED);
        return false;
      }
    }

    method QueueForExecution() returns (ok: bool)
      modifies this
      ensures (ok, data_) == Queued(old(data_))
    {
      if data_.status != SUCCEEDED {
        return false;
      }
      data_ := data_.(status := QUEUED);
      return true;
    }

    method Execute(now: nat) returns (ok: bool)
      modifies this
      ensures (ok, data_) == Executed(old(data_), now)
    {
      if !CanExecute(data_, now) {
        return false;
      }
      data_ := data_.(status := EXECUTED);
      return true;
    }

    method Cancel() returns (ok: bool)
      modifies this
      ensures (ok, data_) == CancelledByProposer(old(data_))
    {
      if data_.status == EXECUTED {
        return false;
      }
      data_ := data_.(status := CANCELLED);
      return true;
    }

    method AddParameter(key: string, value: string)
      modifies this
      ensures data_ == old(data_).(parameters := old(data_).parameters[key := value])
    {
      data_ := data_.(parameters := data_.parameters[key := value]);
    }

    method AddDocument(documentHash: string)
      modifies this
      ensures data_ == old(data_).(supportingDocuments := old(data_).supportingDocuments + [documentHash])
    {
      data_ := data_.(supportingDocuments := data_.supportingDocuments + [documentHash]);
    }
  }

  // ---------- the life of a proposal ----------

  datatype Call =
    | Activate
    | RecordVote(voter: string, choice: VoteChoice, power: real)
    | FinalizeVoting(stakeWeight: real)
    | QueueForExecution
    | Execute
    | Cancel
    | AddParameter(key: string, value: string)
    | AddDocument(hash: string)

  /** A call and the clock's reading in it. */
  datatype Event = Event(at: nat, call: Call)

  function After(d: ProposalData, e: Event): ProposalData {
    match e.call
    case Activate => Activated(d, e.at).1
    case RecordVote(v, c, p) => Voted(d, v, c, p, e.at).1
    case FinalizeVoting(w) => Finalized(d, w, e.at).1
    case QueueForExecution => Queued(d).1
    case Execute => Executed(d, e.at).1
    case Cancel => CancelledByProposer(d).1
    case AddParameter(k, v) => d.(parameters := d.parameters[k := v])
    case AddDocument(h) => d.(supportingDocuments := d.supportingDocuments + [h])
  }

  /** Every method call on one proposal, in order, and the states between them. */
  datatype Life = Life(states: seq<ProposalData>, events: seq<Event>)

  ghost predicate IsLife(l: Life) {
    && |l.states| == |l.events| + 1
    && l.states[0].status == DRAFT
    && forall k | 0 <= k < |l.events| :: l.states[k + 1] == After(l.states[k], l.events[k])
  }

  function Tallies(d: ProposalData): (real, real, real, real, set<string>) {
    (d.votesFor, d.votesAgainst, d.votesAbstain, d.totalVotingPower, d.voters)
  }

  /** Event `k` took the proposal from one status to the other. */
  predicate Moves(l: Life, k: nat, from: ProposalStatus, to: ProposalStatus)
    requires |l.states| == |l.events| + 1
  {
    k < |l.events| && l.states[k].status == from && l.states[k + 1].status == to
  }

  /** In seconds. */
  const FOURTEEN_DAYS: nat := 1209600
  const SEVEN_DAYS: nat := 604800

  predicate ActivatedAt(l: Life, n: nat, a: nat)
    requires |l.states| == |l.events| + 1 && n < |l.states|
  {
    && a < n && Moves(l, a, DRAFT, ACTIVE) && l.events[a].call.Activate?
    && l.states[n].votingStartTime == l.events[a].at && l.states[n].votingEndTime == l.events[a].at + FOURTEEN_DAYS
  }

  predicate PassedAt(l: Life, n: nat, a: nat, f: nat)
    requires |l.states| == |l.events| + 1 && n < |l.states|
  {
    && ActivatedAt(l, n, a) && a < f < n
    && Moves(l, f, ACTIVE, SUCCEEDED) && l.events[f].call.FinalizeVoting?
    && l.events[f].at >= l.events[a].at + FOURTEEN_DAYS
    && MeetsQuorum(l.states[f], l.events[f].call.stakeWeight) && MeetsThreshold(l.states[f])
    && Tallies(l.states[n]) == Tallies(l.states[f])
    && l.states[n].executionTime == l.events[f].at + SEVEN_DAYS
  }

  predicate QueuedAt(l: Life, n: nat, a: nat, f: nat, q: nat)
    requires |l.states| == |l.events| + 1 && n < |l.states|
  {
    PassedAt(l, n, a, f) && f < q < n && Moves(l, q, SUCCEEDED, QUEUED) && l.events[q].call.QueueForExecution?
  }

  predicate ExecutedAt(l: Life, n: nat, a: nat, f: nat, q: nat, x: nat)
    requires |l.states| == |l.events| + 1 && n < |l.states|
  {
    && QueuedAt(l, n, a, f, q) && q < x < n
    && Moves(l, x, QUEUED, EXECUTED) && l.events[x].call.Execute?
    && l.events[x].at >= l.events[f].at + SEVEN_DAYS
  }

  lemma LastStep(l: Life, n: nat)
    requires IsLife(l) && n < |l.states|
    ensures n > 0 || l.states[n].status == DRAFT
    ensures n > 0 ==> l.states[n] == After(l.states[n - 1], l.events[n - 1])
  {}

  predicate SameVoteAndTimes(d: ProposalData, e: ProposalData) {
    && Tallies(d) == Tallies(e) && d.votingStartTime == e.votingStartTime && d.votingEndTime == e.votingEndTime
    && d.executionTime == e.executionTime
  }

  /**
   The passages of `l` up to `n` are passages of it later on, as long as the proposal keeps its tallies and its
   times.
   */
  lemma PassedLater(l: Life, m: nat, n: nat, a: nat, f: nat)
    requires |l.states| == |l.events| + 1 && m <= n < |l.states| && PassedAt(l, m, a, f)
    requires SameVoteAndTimes(l.states[n], l.states[m])
    ensures PassedAt(l, n, a, f)
  {}

  lemma QueuedLater(l: Life, n: nat, a: nat, f: nat, q: nat)
    requires |l.states| == |l.events| + 1 && 0 < n < |l.states| && SameVoteAndTimes(l.states[n], l.states[n - 1])
    requires PassedAt(l, n - 1, a, f)
    requires f < q < n && Moves(l, q, SUCCEEDED, QUEUED) && l.events[q].call.QueueForExecution?
    ensures QueuedAt(l, n, a, f, q)
  {
    PassedLater(l, n - 1, n, a, f);
  }

  /** A step that leaves a proposal passed, queued or executed touches neither its tallies nor its times. */
  lemma LaterStepsKeepTallies(d: ProposalData, e: Event)
    requires d.status == SUCCEEDED || d.status == QUEUED || d.status == EXECUTED
    ensures var d' := After(d, e);
            && SameVoteAndTimes(d', d)
            && (d'.status == d.status || d'.status == CANCELLED
                || (d.status == SUCCEEDED && d'.status == QUEUED && e.call.QueueForExecution?)
                || (d.status == QUEUED && d'.status == EXECUTED && e.call.Execute? && e.at >= d.executionTime))
  {}

  /** Whence a proposal comes into a late status. */
  lemma EnteredFrom(d: ProposalData, e: Event)
    ensures var d' := After(d, e);
            && (d'.status == QUEUED ==> d.status == QUEUED || d.status == SUCCEEDED)
            && (d'.status == EXECUTED ==> d.status == EXECUTED || d.status == QUEUED)
  {}

  /** How a proposal that is open for voting got there. */
  lemma {:induction false} HowActivated(l: Life, n: nat) returns (a: nat)
    requires IsLife(l) && n < |l.states| && l.states[n].status == ACTIVE
    ensures ActivatedAt(l, n, a)
  {
    LastStep(l, n);
    if l.states[n - 1].status == ACTIVE {
      a := HowActivated(l, n - 1);
    } else {
      a := n - 1;
    }
  }

  lemma PassesNow(l: Life, n: nat, a: nat)
    requires IsLife(l) && 0 < n < |l.states| && l.states[n].status == SUCCEEDED
    requires l.states[n - 1].status == ACTIVE && ActivatedAt(l, n - 1, a)
    ensures PassedAt(l, n, a, n - 1)
  {
    LastStep(l, n);
  }

  lemma {:induction false} HowPassed(l: Life, n: nat) returns (a: nat, f: nat)
    requires IsLife(l) && n < |l.states| && l.states[n].status == SUCCEEDED
    ensures PassedAt(l, n, a, f)
  {
    LastStep(l, n);
    if l.states[n - 1].status == SUCCEEDED {
      a, f := HowPassed(l, n - 1);
    } else {
      a := HowActivated(l, n - 1);
      f := n - 1;
      PassesNow(l, n, a);
    }
  }

  lemma {:induction false} HowQueued(l: Life, n: nat) returns (a: nat, f: nat, q: nat)
    requires IsLife(l) && n < |l.states| && l.states[n].status == QUEUED
    ensures QueuedAt(l, n, a, f, q)
  {
    LastStep(l, n);
    var d, e := l.states[n - 1], l.events[n - 1];
    EnteredFrom(d, e);
    if d.status == QUEUED {
      a, f, q := HowQueued(l, n - 1);
    } else {
      a, f := HowPassed(l, n - 1);
      q := n - 1;
    }
    LaterStepsKeepTallies(d, e);
    QueuedLater(l, n, a, f, q);
  }

  /**
   An executed proposal was activated, passed, queued and executed, in that order, whatever
   the clock did: it passed with quorum and its type's threshold, on the tallies it still
   has, at least 14 days after activation, and was executed at least 7 days after that.
   */
  lemma {:induction false} HowExecuted(l: Life, n: nat) returns (a: nat, f: nat, q: nat, x: nat)
    requires IsLife(l) && n < |l.states| && l.states[n].status == EXECUTED
    ensures ExecutedAt(l, n, a, f, q, x)
    ensures a < f < q < x < n && l.events[x].at >= l.events[a].at + FOURTEEN_DAYS + SEVEN_DAYS
  {
    LastStep(l, n);
    EnteredFrom(l.states[n - 1], l.events[n - 1]);
    LaterStepsKeepTallies(l.states[n - 1], l.events[n - 1]);
    if l.states[n - 1].status == EXECUTED {
      a, f, q, x := HowExecuted(l, n - 1);
    } else {
      a, f, q := HowQueued(l, n - 1);
      x := n - 1;
    }
    PassedLater(l, n - 1, n, a, f);
  }

  /** Executed and cancelled proposals stay so; no other status is final, since cancelling always remains. */
  lemma {:induction false} FinalStatusesAreFinal(l: Life, i: nat, j: nat)
    requires IsLife(l) && i <= j < |l.states|
    ensures l.states[i].status == EXECUTED || l.states[i].status == CANCELLED ==>
              l.states[j].status == l.states[i].status
    ensures l.states[i].status == EXECUTED || l.states[i].status == CANCELLED <==>
            forall e :: After(l.states[i], e).status == l.states[i].status
    decreases j - i
  {
    if i < j {
      FinalStatusesAreFinal(l, i, j - 1);
      assert l.states[j] == After(l.states[j - 1], l.events[j - 1]);
    }
    var d := l.states[i];
    assert d.status != EXECUTED ==> After(d, Event(0, Cancel)).status == CANCELLED;
  }

  /** Each call answers that it has done something exactly if it has. */
  lemma AnswersTellWhatHappened(
    d: ProposalData, now: nat, voter: string, choice: VoteChoice, power: real, stakeWeight: real)
    ensures Activated(d, now).0 <==> Activated(d, now).1 != d
    ensures Voted(d, voter, choice, power, now).0 <==> Voted(d, voter, choice, power, now).1 != d
    ensures Finalized(d, stakeWeight, now).0 <==>
            d.status == ACTIVE && Finalized(d, stakeWeight, now).1.status == SUCCEEDED
    ensures Queued(d).0 <==> Queued(d).1 != d
    ensures Executed(d, now).0 <==> Executed(d, now).1 != d
    ensures CancelledByProposer(d).0 <==> CancelledByProposer(d).1.status == CANCELLED
  {
    assert MayVote(d, voter, now) ==> voter in Voted(d, voter, choice, power, now).1.voters;
  }

  // ---------- which calls count ----------

  /** Event `k` is a ballot of `voter` in an open proposal, within fourteen days of event `a`, which opened it. */
  predicate VotesInWindow(l: Life, a: nat, k: nat, voter: string)
    requires |l.states| == |l.events| + 1
  {
    && a < k < |l.events| && Moves(l, a, DRAFT, ACTIVE) && l.states[k].status == ACTIVE
    && l.events[k].call.RecordVote? && l.events[k].call.voter == voter
    && l.events[a].at <= l.events[k].at <= l.events[a].at + FOURTEEN_DAYS
  }

  lemma {:induction false} OpenedOnce(l: Life, a: nat, k: nat)
    requires IsLife(l) && a < k < |l.states| && Moves(l, a, DRAFT, ACTIVE) && l.states[k].status == ACTIVE
    ensures l.states[k].votingStartTime == l.events[a].at
    ensures l.states[k].votingEndTime == l.events[a].at + FOURTEEN_DAYS
  {
    LastStep(l, k);
    if k == a + 1 {
      LastStep(l, a + 1);
    } else {
      if l.states[k - 1].status != ACTIVE {
        assert l.states[k - 1].status == DRAFT;
        NeverADraftAgain(l, a + 1, k - 1);
      }
      OpenedOnce(l, a, k - 1);
    }
  }

  lemma {:induction false} NeverADraftAgain(l: Life, i: nat, j: nat)
    requires IsLife(l) && i <= j < |l.states| && l.states[i].status != DRAFT
    ensures l.states[j].status != DRAFT
  {
    if i < j {
      LastStep(l, j);
      NeverADraftAgain(l, i, j - 1);
    }
  }

  ghost predicate BallotCounts(l: Life, k: nat, voter: string)
    requires |l.states| == |l.events| + 1
  {
    exists a: nat :: VotesInWindow(l, a, k, voter)
  }

  lemma VoterAfter(l: Life, k: nat, voter: string)
    requires IsLife(l) && k < |l.events|
    ensures voter in l.states[k + 1].voters <==> voter in l.states[k].voters || BallotCounts(l, k, voter)
  {
    LastStep(l, k + 1);
    var d, e := l.states[k], l.events[k];
    if d.status == ACTIVE && e.call.RecordVote? && e.call.voter == voter {
      var a := HowActivated(l, k);
      if MayVote(d, voter, e.at) {
        assert VotesInWindow(l, a, k, voter);
      }
    }
    if BallotCounts(l, k, voter) {
      var a: nat :| VotesInWindow(l, a, k, voter);
      OpenedOnce(l, a, k);
    }
  }

  /** Who has voted: exactly those with a ballot, while the proposal was open, within fourteen days of its opening. */
  lemma {:induction false} VotersAreThoseInTheWindow(l: Life, n: nat, voter: string)
    requires IsLife(l) && n < |l.states| && voter !in l.states[0].voters
    ensures voter in l.states[n].voters <==> exists k: nat :: k < n && BallotCounts(l, k, voter)
    decreases n
  {
    if n > 0 {
      VotersAreThoseInTheWindow(l, n - 1, voter);
      VoterAfter(l, n - 1, voter);
    }
  }

  /** A queued proposal is executed by a call exactly from seven days after it was finalized. */
  lemma ExecutedExactlyAfterTheTimelock(l: Life, n: nat, at: nat) returns (a: nat, f: nat, q: nat)
    requires IsLife(l) && n < |l.states| && l.states[n].status == QUEUED
    ensures QueuedAt(l, n, a, f, q)
    ensures After(l.states[n], Event(at, Execute)).status == EXECUTED <==> at >= l.events[f].at + SEVEN_DAYS
  {
    a, f, q := HowQueued(l, n);
  }

  /** Event `k` sets a parameter, for good as far as state `n`. */
  predicate SetsUntil(l: Life, k: nat, n: nat, key: string, value: string)
    requires n <= |l.events|
  {
    && k < n && l.events[k].call == AddParameter(key, value)
    && forall j | k < j < n :: !(l.events[j].call.AddParameter? && l.events[j].call.key == key)
  }

  lemma SetsUntilNext(l: Life, k: nat, n: nat, key: string, value: string)
    requires n < |l.events|
    ensures SetsUntil(l, k, n + 1, key, value) <==>
            if l.events[n].call.AddParameter? && l.events[n].call.key == key
            then k == n && l.events[n].call.value == value
            else SetsUntil(l, k, n, key, value)
  {}

  /** A parameter that a proposal was not made with has a value exactly if a call has set it, and the latest call's. */
  lemma {:induction false} ParametersAreAsSet(l: Life, n: nat, key: string, value: string)
    requires IsLife(l) && n < |l.states| && key !in l.states[0].parameters
    ensures key in l.states[n].parameters && l.states[n].parameters[key] == value <==>
            exists k: nat :: SetsUntil(l, k, n, key, value)
    decreases n
  {
    if n > 0 {
      var m := n - 1;
      LastStep(l, n);
      ParametersAreAsSet(l, m, key, value);
      SetsUntilNext(l, m, m, key, value);
      if k: nat :| SetsUntil(l, k, m, key, value) {
        SetsUntilNext(l, k, m, key, value);
      } else if k: nat :| SetsUntil(l, k, n, key, value) {
        SetsUntilNext(l, k, m, key, value);
      }
    }
  }

  /** The documents that a stretch of calls adds. */
  function DocumentsIn(events: seq<Event>): seq<string> {
    if events == [] then []
    else
      var last := events[|events| - 1];
      DocumentsIn(events[..|events| - 1]) + (if last.call.AddDocument? then [last.call.hash] else [])
  }

  lemma DocumentsAfter(d: ProposalData, e: Event)
    ensures After(d, e).supportingDocuments ==
            d.supportingDocuments + (if e.call.AddDocument? then [e.call.hash] else [])
  {}

  /** A proposal keeps its documents, in the order in which they were added. */
  lemma {:induction false} DocumentsAreAsAdded(l: Life, n: nat)
    requires IsLife(l) && n < |l.states|
    ensures l.states[n].supportingDocuments == l.states[0].supportingDocuments + DocumentsIn(l.events[..n])
    decreases n
  {
    if n > 0 {
      LastStep(l, n);
      DocumentsAreAsAdded(l, n - 1);
      DocumentsAfter(l.states[n - 1], l.events[n - 1]);
      assert l.events[..n][..n - 1] == l.events[..n - 1];
    }
  }
}
