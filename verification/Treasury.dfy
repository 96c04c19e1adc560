/**
 The DAO's treasury: a balance, the part of it that is promised, and the allocations that
 promise it. Amounts are 64-bit and wrap, as the source's do.
 */
module Treasuries {
  import opened MapSums
  import opened Words

  datatype Allocation = Allocation(
    proposalId: string, recipient: string, amount: uint64, purpose: string,
    releaseTime: nat, released: bool, milestones: seq<string>, milestonesCompleted: nat)

  datatype Book = Book(balance: uint64, totalAllocated: uint64, allocations: map<string, Allocation>)

  function Available(b: Book): uint64 {
    (b.balance - b.totalAllocated) % TWO64
  }

  /** `createAllocation`; `id` is the digest the source computes for the new entry. */
  function Created(b: Book, id: string, proposalId: string, recipient: string, amount: uint64, purpose: string,
                   milestones: seq<string>, now: nat): (string, Book)
  {
    if amount > Available(b) then ("", b)
    else
      var a := Allocation(proposalId, recipient, amount, purpose, now + 30 * DAY, false, milestones, 0);
      (id, b.(allocations := b.allocations[id := a], totalAllocated := (b.totalAllocated + amount) % TWO64))
  }

  /** Half of the milestones, rounded down, must be complete and the release time reached. */
  predicate Releasable(b: Book, id: string, now: nat) {
    && id in b.allocations
    && !b.allocations[id].released
    && now >= b.allocations[id].releaseTime
    && b.allocations[id].milestonesCompleted >= |b.allocations[id].milestones| / 2
  }

  function Released(b: Book, id: string, now: nat): (bool, Book) {
    if !Releasable(b, id, now) then (false, b)
    else
      var a := b.allocations[id];
      (true, Book((b.balance - a.amount) % TWO64, (b.totalAllocated - a.amount) % TWO64,
                  b.allocations[id := a.(released := true)]))
  }

  function MilestoneCompleted(b: Book, id: string, index: nat): (bool, Book) {
    if id !in b.allocations || index >= |b.allocations[id].milestones| then (false, b)
    else
      var a := b.allocations[id];
      (true, b.(allocations := b.allocations[id := a.(milestonesCompleted := a.milestonesCompleted + 1)]))
  }

  function Funded(b: Book, amount: uint64): Book {
    b.(balance := (b.balance + amount) % TWO64)
  }

  class Treasury {
    var balance_: uint64
    var totalAllocated_: uint64
    var allocations_: map<string, Allocation>

    ghost function State(): Book
      reads this
    {
      Book(balance_, totalAllocated_, allocations_)
    }

    constructor (initialBalance: uint64)
      ensures State() == Book(initialBalance, 0, map[])
    {
      balance_, totalAllocated_, allocations_ := initialBalance, 0, map[];
    }

    method CreateAllocation(id: string, proposalId: string, recipient: string, amount: uint64, purpose: string,
                            milestones: seq<string>, now: nat) returns (r: string)
      modifies this
      ensures (r, State()) == Created(old(State()), id, proposalId, recipient, amount, purpose, milestones, now)
    {
      var available := GetAvailableBalance();
      if amount > available {
        return "";
      }
      var allocation := Allocation(proposalId, recipient, amount, purpose, now + 30 * DAY, false, milestones, 0);
      allocations_ := allocations_[id := allocation];
      totalAllocated_ := (totalAllocated_ + amount) % TWO64;
      return id;
    }

    method ReleaseAllocation(id: string, now: nat) returns (ok: bool)
      modifies this
      ensures (ok, State()) == Released(old(State()), id, now)
    {
      if id !in allocations_ {
        return false;
      }
      var allocation := allocations_[id];
      if allocation.released {
        return false;
      }
      if now < allocation.releaseTime {
        return false;
      }
      if allocation.milestonesCompleted < |allocation.milestones| / 2 {
        return false;
      }
      allocations_ := allocations_[id := allocation.(released := true)];
      balance_ := (balance_ - allocation.amount) % TWO64;
      totalAllocated_ := (totalAllocated_ - allocation.amount) % TWO64;
      return true;
    }

    method CompleteMilestone(id: string, index: nat) returns (ok: bool)
      modifies this
      ensures (ok, State()) == MilestoneCompleted(old(State()), id, index)
    {
      if id !in allocations_ {
        return false;
      }
      var allocation := allocations_[id];
      if index >= |allocation.milestones| {
        return false;
      }
      allocations_ := allocations_[id := allocation.(milestonesCompleted := allocation.milestonesCompleted + 1)];
      return true;
    }

    method AddFunds(amount: uint64)
      modifies this
      ensures State() == Funded(old(State()), amount)
    {
      balance_ := (balance_ + amount) % TWO64;
    }

    method GetAvailableBalance() returns (r: uint64)
      ensures r == Available(State())
    {
      r := (balance_ - totalAllocated_) % TWO64;
    }
  }

  // ---------- solvency and conservation ----------

  function Open(m: map<string, Allocation>): map<string, nat> {
    map id | id in m && !m[id].released :: m[id].amount
  }

  function Paid(m: map<string, Allocation>): map<string, nat> {
    map id | id in m && m[id].released :: m[id].amount
  }

  /** Everything still promised is covered, so none of the source's subtractions underflows. */
  ghost predicate Solvent(b: Book) {
    Sum(Open(b.allocations)) <= b.totalAllocated <= b.balance
  }

  datatype Op =
    | Create(id: string, proposalId: string, recipient: string, amount: uint64, purpose: string,
             milestones: seq<string>, createdAt: nat)
    | Release(releasedId: string, at: nat)
    | Complete(completedId: string, index: nat)
    | Fund(funds: uint64)

  function Step(b: Book, op: Op): Book {
    match op
    case Create(id, p, r, a, u, ms, now) => Created(b, id, p, r, a, u, ms, now).1
    case Release(id, now) => Released(b, id, now).1
    case Complete(id, i) => MilestoneCompleted(b, id, i).1
    case Fund(a) => Funded(b, a)
  }

  /** What an operation adds to the treasury, and what it pays out. */
  function Added(op: Op): nat {
    if op.Fund? then op.funds else 0
  }

  function PaidOut(b: Book, op: Op): nat {
    if op.Release? && Releasable(b, op.releasedId, op.at) then b.allocations[op.releasedId].amount else 0
  }

  /** The one thing a caller must see to: new funds do not push the balance past 64 bits. */
  predicate NoWrap(b: Book, op: Op) {
    op.Fund? ==> b.balance + op.funds < TWO64
  }

  /** A creation under an id that is not in use, or one that is refused. */
  predicate FreshId(b: Book, op: Op) {
    op.Create? ==> op.id !in b.allocations || op.amount > Available(b)
  }

  function OpenAmount(m: map<string, Allocation>, id: string): nat {
    if id in m && !m[id].released then m[id].amount else 0
  }

  function PaidAmount(m: map<string, Allocation>, id: string): nat {
    if id in m && m[id].released then m[id].amount else 0
  }

  lemma OpenSumAfterPut(m: map<string, Allocation>, id: string, a: Allocation)
    ensures Sum(Open(m[id := a])) == Sum(Open(m)) - OpenAmount(m, id) + (if a.released then 0 else a.amount)
  {
    assert Open(m[id := a]) == if a.released then Open(m) - {id} else Open(m)[id := a.amount];
    SumPuts(Open(m), id, a.amount);
    SumWithout(Open(m), id);
  }

  lemma PaidSumAfterPut(m: map<string, Allocation>, id: string, a: Allocation)
    ensures Sum(Paid(m[id := a])) == Sum(Paid(m)) - PaidAmount(m, id) + (if a.released then a.amount else 0)
  {
    assert Paid(m[id := a]) == if a.released then Paid(m)[id := a.amount] else Paid(m) - {id};
    SumPuts(Paid(m), id, a.amount);
    SumWithout(Paid(m), id);
  }

  lemma SumWithout(m: map<string, nat>, id: string)
    ensures Sum(m - {id}) == if id in m then Sum(m) - m[id] else Sum(m)
  {
    if id in m {
      SumTakesOut(m, id);
    } else {
      assert m - {id} == m;
    }
  }

  /** What an operation adds to the promised total. */
  function Promised(b: Book, op: Op): nat {
    if op.Create? && op.amount <= Available(b) then op.amount else 0
  }

  /** What becomes of the open sum: a creation adds to it, less the entry it overwrites, and a release takes from it. */
  function Hidden(b: Book, op: Op): nat {
    if op.Create? && op.amount <= Available(b) then OpenAmount(b.allocations, op.id) else 0
  }

  lemma OpenSumAfterStep(b: Book, op: Op)
    ensures Sum(Open(Step(b, op).allocations)) ==
            Sum(Open(b.allocations)) + Promised(b, op) - Hidden(b, op) - PaidOut(b, op)
  {
    var b' := Step(b, op);
    match op
    case Create(id, _, _, amount, _, _, _) =>
      if amount <= Available(b) {
        OpenSumAfterPut(b.allocations, id, b'.allocations[id]);
      }
    case Release(id, now) =>
      if Releasable(b, id, now) {
        OpenSumAfterPut(b.allocations, id, b'.allocations[id]);
      }
    case Complete(id, i) =>
      if MilestoneCompleted(b, id, i).0 {
        OpenSumAfterPut(b.allocations, id, b'.allocations[id]);
      }
    case Fund(_) =>
  }

  lemma PaidSumAfterStep(b: Book, op: Op)
    requires FreshId(b, op)
    ensures Sum(Paid(Step(b, op).allocations)) == Sum(Paid(b.allocations)) + PaidOut(b, op)
  {
    var b' := Step(b, op);
    match op
    case Create(id, _, _, amount, _, _, _) =>
      if amount <= Available(b) {
        PaidSumAfterPut(b.allocations, id, b'.allocations[id]);
      }
    case Release(id, now) =>
      if Releasable(b, id, now) {
        PaidSumAfterPut(b.allocations, id, b'.allocations[id]);
      }
    case Complete(id, i) =>
      if MilestoneCompleted(b, id, i).0 {
        PaidSumAfterPut(b.allocations, id, b'.allocations[id]);
      }
    case Fund(_) =>
  }

  /** On a solvent treasury no operation wraps: amounts change by what the operation says. */
  lemma NothingWraps(b: Book, op: Op)
    requires Solvent(b) && NoWrap(b, op)
    ensures PaidOut(b, op) <= b.totalAllocated
    ensures Step(b, op).balance == b.balance + Added(op) - PaidOut(b, op)
    ensures Step(b, op).totalAllocated == b.totalAllocated + Promised(b, op) - PaidOut(b, op)
  {
    if op.Release? && Releasable(b, op.releasedId, op.at) {
      SumTakesOut(Open(b.allocations), op.releasedId);
    }
  }

  lemma StepKeepsSolvency(b: Book, op: Op)
    requires Solvent(b) && NoWrap(b, op)
    ensures Solvent(Step(b, op))
  {
    NothingWraps(b, op);
    OpenSumAfterStep(b, op);
  }

  /**
   With ids that are not reused, the promised total is exactly what is open, and the paid entries are what was paid.
   */
  ghost predicate Exact(b: Book, paid: nat) {
    Sum(Open(b.allocations)) == b.totalAllocated && Sum(Paid(b.allocations)) == paid
  }

  lemma StepKeepsExactness(b: Book, op: Op, paid: nat)
    requires Solvent(b) && NoWrap(b, op) && Exact(b, paid) && FreshId(b, op)
    ensures Exact(Step(b, op), paid + PaidOut(b, op))
  {
    NothingWraps(b, op);
    OpenSumAfterStep(b, op);
    PaidSumAfterStep(b, op);
  }

  /** A run: the book, and what was added and paid out on the way. */
  datatype Account = Account(book: Book, added: nat, paid: nat)

  function RunTreasury(initial: uint64, ops: seq<Op>): Account
    decreases |ops|
  {
    if ops == [] then Account(Book(initial, 0, map[]), 0, 0)
    else
      var before := RunTreasury(initial, ops[..|ops| - 1]);
      var op := ops[|ops| - 1];
      Account(Step(before.book, op), before.added + Added(op), before.paid + PaidOut(before.book, op))
  }

  /** `test` holds of every operation of the run in the state it meets. */
  ghost predicate Throughout(initial: uint64, ops: seq<Op>, test: (Book, Op) -> bool)
    decreases |ops|
  {
    ops != [] ==>
      var before := ops[..|ops| - 1];
      Throughout(initial, before, test) && test(RunTreasury(initial, before).book, ops[|ops| - 1])
  }

  /** In every run the treasury stays solvent and no money appears or disappears. */
  lemma {:induction false} TreasuryStaysSolvent(initial: uint64, ops: seq<Op>)
    requires Throughout(initial, ops, NoWrap)
    ensures var r := RunTreasury(initial, ops);
            Solvent(r.book) && initial + r.added == r.book.balance + r.paid
    decreases |ops|
  {
    if ops != [] {
      var before := ops[..|ops| - 1];
      TreasuryStaysSolvent(initial, before);
      NothingWraps(RunTreasury(initial, before).book, ops[|ops| - 1]);
      StepKeepsSolvency(RunTreasury(initial, before).book, ops[|ops| - 1]);
    }
  }

  /** If besides no id is reused, the balance and the entries alone tell what came in. */
  lemma {:induction false} FreshIdsMakeTheBookExact(initial: uint64, ops: seq<Op>)
    requires Throughout(initial, ops, NoWrap) && Throughout(initial, ops, FreshId)
    ensures var r := RunTreasury(initial, ops);
            && Sum(Open(r.book.allocations)) == r.book.totalAllocated
            && initial + r.added == r.book.balance + Sum(Paid(r.book.allocations))
    ensures Exact(RunTreasury(initial, ops).book, RunTreasury(initial, ops).paid)
    decreases |ops|
  {
    TreasuryStaysSolvent(initial, ops);
    if ops != [] {
      var before := ops[..|ops| - 1];
      TreasuryStaysSolvent(initial, before);
      FreshIdsMakeTheBookExact(initial, before);
      StepKeepsExactness(RunTreasury(initial, before).book, ops[|ops| - 1], RunTreasury(initial, before).paid);
    }
  }

  /** An allocation that reuses an open one's id hides it: its money stays promised and can never be released. */
  lemma ReusedIdStrandsMoney(b: Book, op: Op)
    requires Solvent(b) && Sum(Open(b.allocations)) == b.totalAllocated
    requires op.Create? && op.amount <= Available(b)
    requires op.id in b.allocations && !b.allocations[op.id].released
    ensures Step(b, op).totalAllocated == Sum(Open(Step(b, op).allocations)) + b.allocations[op.id].amount
  {
    OpenSumAfterPut(b.allocations, op.id, Step(b, op).allocations[op.id]);
  }

  /**
   Added funds arrive exactly when they do not wrap the balance; if they do, solvency is down to what is left of it.
   */
  lemma FundsArriveExactlyWhenTheyFit(b: Book, funds: uint64)
    requires Solvent(b)
    ensures Step(b, Fund(funds)).balance == b.balance + funds <==> NoWrap(b, Fund(funds))
    ensures Solvent(Step(b, Fund(funds))) <==> b.totalAllocated <= Wrap(b.balance + funds)
  {}

  /** Funds that wrap the balance break solvency, and the next release underflows. */
  lemma WrappedFundsBreakSolvency()
    ensures var b := RunTreasury(10, [Create("a", "p", "r", 10, "", [], 0), Fund(TWO64 - 5)]).book;
            b.balance == 5 && !Solvent(b) && Released(b, "a", 30 * DAY).1.balance == TWO64 - 5
  {
    var ops := [Create("a", "p", "r", 10, "", [], 0), Fund(TWO64 - 5)];
    assert ops[..1] == [Create("a", "p", "r", 10, "", [], 0)] && ops[..1][..0] == [];
    assert RunTreasury(10, ops[..1]).book.totalAllocated == 10;
  }
}
