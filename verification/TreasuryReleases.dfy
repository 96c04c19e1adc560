/** What the run of the treasury says about one allocation: how far it has come, and whether it has been paid. */
module TreasuryReleases {
  import opened Words
  import opened MapSums
  import opened Treasuries

  const THIRTY_DAYS: nat := 2592000

  /** The book before operation `k`. */
  function Before(initial: uint64, ops: seq<Op>, k: nat): Book
    requires k <= |ops|
  {
    RunTreasury(initial, ops[..k]).book
  }

  /** Operation `c` makes an allocation under `id`: the amount is covered by what is not promised yet. */
  predicate Makes(initial: uint64, ops: seq<Op>, c: nat, id: string) {
    && c < |ops| && ops[c].Create? && ops[c].id == id
    && Before(initial, ops, c).totalAllocated + ops[c].amount <= Before(initial, ops, c).balance
  }

  lemma MakesBefore(initial: uint64, ops: seq<Op>, c: nat, id: string)
    requires c < |ops| - 1
    ensures Makes(initial, ops[..|ops| - 1], c, id) <==> Makes(initial, ops, c, id)
  {
    assert ops[..|ops| - 1][..c] == ops[..c];
  }

  /** Operation `c` makes the allocation that is under `id` in the end. */
  predicate MakesLast(initial: uint64, ops: seq<Op>, c: nat, id: string) {
    Makes(initial, ops, c, id) && forall k | c < k < |ops| :: !Makes(initial, ops, k, id)
  }

  /** How many milestones of it were completed from operation `from` on. */
  function Completions(ops: seq<Op>, from: nat, id: string, milestones: nat): nat
    decreases |ops|
  {
    if |ops| <= from then 0
    else
      var last := ops[|ops| - 1];
      Completions(ops[..|ops| - 1], from, id, milestones) +
      (if last.Complete? && last.completedId == id && last.index < milestones then 1 else 0)
  }

  /**
   Operation `r` asks for the release of the allocation that operation `c` has made, thirty days later or more and with
   half of the milestones completed, rounded down.
   */
  predicate AsksInTime(ops: seq<Op>, c: nat, r: nat)
    requires c < |ops| && ops[c].Create?
  {
    && c < r < |ops| && ops[r].Release? && ops[r].releasedId == ops[c].id
    && ops[r].at >= ops[c].createdAt + THIRTY_DAYS
    && 2 * Completions(ops[..r], c + 1, ops[c].id, |ops[c].milestones|) + 1 >= |ops[c].milestones|
  }

  /** The allocation under the id of operation `c` is the one that it made, as far as the operations since have got. */
  ghost predicate IsAsFar(ops: seq<Op>, c: nat, b: Book)
    requires c < |ops| && ops[c].Create?
  {
    ops[c].id in b.allocations &&
    var op, a := ops[c], b.allocations[ops[c].id];
    && a.proposalId == op.proposalId && a.recipient == op.recipient && a.amount == op.amount && a.purpose == op.purpose
    && a.milestones == op.milestones && a.releaseTime == op.createdAt + THIRTY_DAYS
    && a.milestonesCompleted == Completions(ops, c + 1, op.id, |op.milestones|)
    && (a.released <==> exists r: nat :: AsksInTime(ops, c, r))
  }

  lemma MadeNow(initial: uint64, ops: seq<Op>, c: nat, id: string)
    requires Throughout(initial, ops, NoWrap) && Makes(initial, ops, c, id) && c == |ops| - 1
    ensures IsAsFar(ops, c, RunTreasury(initial, ops).book)
  {
    TreasuryStaysSolvent(initial, ops[..c]);
  }

  lemma AsksInTimeNext(ops: seq<Op>, c: nat, r: nat)
    requires c < |ops| - 1 && ops[c].Create?
    ensures var n := |ops| - 1;
            AsksInTime(ops, c, r) <==> if r == n then AsksInTime(ops, c, n) else AsksInTime(ops[..n], c, r)
  {
    if r < |ops| - 1 {
      assert ops[..|ops| - 1][..r] == ops[..r];
    }
  }

  /** The last operation leaves the entry alone, completes a milestone of it or releases it. */
  lemma EntryAfter(b: Book, op: Op, id: string)
    requires Solvent(b) && id in b.allocations
    requires op.Create? && op.id == id ==> b.totalAllocated + op.amount > b.balance
    ensures id in Step(b, op).allocations
    ensures var a, a' := b.allocations[id], Step(b, op).allocations[id];
            if op.Complete? && op.completedId == id && op.index < |a.milestones|
            then a' == a.(milestonesCompleted := a.milestonesCompleted + 1)
            else if op.Release? && op.releasedId == id && op.at >= a.releaseTime
                    && 2 * a.milestonesCompleted + 1 >= |a.milestones|
            then a' == a.(released := true)
            else a' == a
  {}

  lemma GoesOn(initial: uint64, ops: seq<Op>, c: nat)
    requires Throughout(initial, ops, NoWrap) && c < |ops| - 1 && ops[c].Create?
    requires !Makes(initial, ops, |ops| - 1, ops[c].id)
    requires IsAsFar(ops[..|ops| - 1], c, RunTreasury(initial, ops[..|ops| - 1]).book)
    ensures IsAsFar(ops, c, RunTreasury(initial, ops).book)
  {
    var n, id := |ops| - 1, ops[c].id;
    var first := ops[..n];
    TreasuryStaysSolvent(initial, first);
    EntryAfter(RunTreasury(initial, first).book, ops[n], id);
    AsksInTimeNext(ops, c, n);
    if r: nat :| AsksInTime(first, c, r) {
      AsksInTimeNext(ops, c, r);
    } else if r: nat :| AsksInTime(ops, c, r) {
      AsksInTimeNext(ops, c, r);
    }
  }

  /**
   In every run whose funds fit, the allocation under an id is as it was made, with as many milestones completed as
   calls have completed since, and it is released exactly if one of the calls since has asked for that in time.
   */
  lemma {:induction false} ReleasedExactlyWhenAskedInTime(initial: uint64, ops: seq<Op>, c: nat, id: string)
    requires Throughout(initial, ops, NoWrap) && MakesLast(initial, ops, c, id)
    ensures IsAsFar(ops, c, RunTreasury(initial, ops).book)
    decreases |ops|
  {
    var n := |ops| - 1;
    if c == n {
      MadeNow(initial, ops, c, id);
    } else {
      forall k | c <= k < n
        ensures Makes(initial, ops[..n], k, id) <==> Makes(initial, ops, k, id)
      {
        MakesBefore(initial, ops, k, id);
      }
      ReleasedExactlyWhenAskedInTime(initial, ops[..n], c, id);
      GoesOn(initial, ops, c);
    }
  }

  lemma AllocatedAfter(b: Book, op: Op, id: string)
    requires Solvent(b)
    ensures id in Step(b, op).allocations <==>
            || id in b.allocations
            || (op.Create? && op.id == id && b.totalAllocated + op.amount <= b.balance)
  {}

  /** And there is an allocation under an id exactly if an operation has made one. */
  lemma {:induction false} AllocatedExactlyWhenMade(initial: uint64, ops: seq<Op>, id: string)
    requires Throughout(initial, ops, NoWrap)
    ensures id in RunTreasury(initial, ops).book.allocations <==> exists c: nat :: Makes(initial, ops, c, id)
    decreases |ops|
  {
    if ops != [] {
      var n := |ops| - 1;
      var first := ops[..n];
      AllocatedExactlyWhenMade(initial, first, id);
      TreasuryStaysSolvent(initial, first);
      AllocatedAfter(RunTreasury(initial, first).book, ops[n], id);
      assert Before(initial, ops, n) == RunTreasury(initial, first).book;
      if id in RunTreasury(initial, first).book.allocations {
        var c: nat :| Makes(initial, first, c, id);
        MakesBefore(initial, ops, c, id);
      } else if c: nat :| Makes(initial, ops, c, id) {
        if c < n {
          MakesBefore(initial, ops, c, id);
        }
        assert Makes(initial, ops, n, id);
      } else {
        assert !Makes(initial, ops, n, id);
      }
    }
  }

  /** Each call answers that it has done something exactly if it has, and a refused creation with no id. */
  lemma AnswersTellWhatHappened(b: Book, op: Op)
    requires Solvent(b)
    ensures op.Create? ==>
              Created(b, op.id, op.proposalId, op.recipient, op.amount, op.purpose, op.milestones, op.createdAt).0 ==
              if b.totalAllocated + op.amount <= b.balance then op.id else ""
    ensures op.Release? ==> (Released(b, op.releasedId, op.at).0 <==> Step(b, op).allocations != b.allocations)
    ensures op.Complete? ==>
              (MilestoneCompleted(b, op.completedId, op.index).0 <==> Step(b, op).allocations != b.allocations)
  {
    var a' := Step(b, op).allocations;
    if op.Release? && Released(b, op.releasedId, op.at).0 {
      assert a'[op.releasedId] != b.allocations[op.releasedId];
    }
    if op.Complete? && MilestoneCompleted(b, op.completedId, op.index).0 {
      assert a'[op.completedId] != b.allocations[op.completedId];
    }
  }
}
