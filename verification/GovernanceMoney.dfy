/**
 The DAO's treasury over whole runs of the DAO: its payments are a run of the treasury, so everything proved of those
 holds.
 */
module GovernanceMoney {
  import opened Options
  import opened Words
  import opened Proposals
  import opened Governance
  import opened GovernanceRuns
  import G = TreasuryGaps
  import T = Treasuries

  /** The treasury operations that a run of the DAO comes to, executed proposals and direct calls alike. */
  function PaymentsOf(env: Env, initial: uint64, acts: seq<Action>): seq<T.Op>
    decreases |acts|
  {
    if acts == [] then []
    else
      var before := acts[..|acts| - 1];
      var p := Payment(env, Run(env, initial, before).dao, acts[|acts| - 1]);
      PaymentsOf(env, initial, before) + (if p.Some? then [p.value] else [])
  }

  lemma PaymentAppends(initial: uint64, ops: seq<T.Op>, op: T.Op)
    ensures var r := T.RunTreasury(initial, ops);
            T.RunTreasury(initial, ops + [op]) ==
            T.Account(T.Step(r.book, op), r.added + T.Added(op), r.paid + T.PaidOut(r.book, op))
  {
    assert (ops + [op])[..|ops|] == ops;
  }

  /** Refinement: what a run of the DAO does to its treasury is the run of its payments. */
  lemma {:induction false} DaoRunsItsTreasury(env: Env, initial: uint64, acts: seq<Action>)
    ensures var c := Run(env, initial, acts);
            T.RunTreasury(initial, PaymentsOf(env, initial, acts)) == T.Account(c.dao.treasury, c.added, c.paid)
    decreases |acts|
  {
    if acts != [] {
      var before, a := acts[..|acts| - 1], acts[|acts| - 1];
      var d := Run(env, initial, before).dao;
      DaoRunsItsTreasury(env, initial, before);
      TreasuryMovesByPayments(env, d, a);
      if Payment(env, d, a).Some? {
        PaymentAppends(initial, PaymentsOf(env, initial, before), Payment(env, d, a).value);
      } else {
        assert PaymentsOf(env, initial, acts) == PaymentsOf(env, initial, before);
      }
    }
  }

  /** An allocation is made under an id that is not in use, or refused. */
  function FreshPayment(env: Env): (Dao, Action) -> bool {
    (d: Dao, a: Action) => var p := Payment(env, d, a); p.Some? ==> T.FreshId(d.treasury, p.value)
  }

  lemma TestAppends(initial: uint64, ops: seq<T.Op>, op: T.Op, test: (T.Book, T.Op) -> bool)
    requires T.Throughout(initial, ops, test) && test(T.RunTreasury(initial, ops).book, op)
    ensures T.Throughout(initial, ops + [op], test)
  {
    assert (ops + [op])[..|ops|] == ops;
  }

  lemma {:induction false} PaymentsFit(env: Env, initial: uint64, acts: seq<Action>)
    requires Throughout(env, initial, acts, FundsFit)
    ensures T.Throughout(initial, PaymentsOf(env, initial, acts), T.NoWrap)
    decreases |acts|
  {
    if acts != [] {
      var before, a := acts[..|acts| - 1], acts[|acts| - 1];
      var p := Payment(env, Run(env, initial, before).dao, a);
      PaymentsFit(env, initial, before);
      DaoRunsItsTreasury(env, initial, before);
      if p.Some? {
        TestAppends(initial, PaymentsOf(env, initial, before), p.value, T.NoWrap);
      } else {
        assert PaymentsOf(env, initial, acts) == PaymentsOf(env, initial, before);
      }
    }
  }

  lemma {:induction false} PaymentsAreFresh(env: Env, initial: uint64, acts: seq<Action>)
    requires Throughout(env, initial, acts, FreshPayment(env))
    ensures T.Throughout(initial, PaymentsOf(env, initial, acts), T.FreshId)
    decreases |acts|
  {
    if acts != [] {
      var before, a := acts[..|acts| - 1], acts[|acts| - 1];
      var p := Payment(env, Run(env, initial, before).dao, a);
      PaymentsAreFresh(env, initial, before);
      DaoRunsItsTreasury(env, initial, before);
      if p.Some? {
        TestAppends(initial, PaymentsOf(env, initial, before), p.value, T.FreshId);
      } else {
        assert PaymentsOf(env, initial, acts) == PaymentsOf(env, initial, before);
      }
    }
  }

  /** In every run of the DAO whose funds fit and whose payments have fresh ids, the treasury's book is exact. */
  lemma DaoBookIsExact(env: Env, initial: uint64, acts: seq<Action>)
    requires Throughout(env, initial, acts, FundsFit) && Throughout(env, initial, acts, FreshPayment(env))
    ensures var c := Run(env, initial, acts); T.Exact(c.dao.treasury, c.paid)
  {
    DaoRunsItsTreasury(env, initial, acts);
    PaymentsFit(env, initial, acts);
    PaymentsAreFresh(env, initial, acts);
    T.FreshIdsMakeTheBookExact(initial, PaymentsOf(env, initial, acts));
  }

  /** And exact at all exactly when no payment of the run has overwritten open or released money. */
  lemma DaoBookIsExactExactlyWhen(env: Env, initial: uint64, acts: seq<Action>)
    requires Throughout(env, initial, acts, FundsFit)
    ensures var c, ops := Run(env, initial, acts), PaymentsOf(env, initial, acts);
            T.Exact(c.dao.treasury, c.paid) <==> G.HiddenOver(initial, ops) == 0 && G.ErasedOver(initial, ops) == 0
  {
    DaoRunsItsTreasury(env, initial, acts);
    PaymentsFit(env, initial, acts);
    G.RunIsExactExactlyWhen(initial, PaymentsOf(env, initial, acts));
  }

  /** What a treasury proposal asks for. */
  function Requested(env: Env, p: ProposalData): Option<uint64> {
    if "recipient" in p.parameters && "amount" in p.parameters then env.parse(p.parameters["amount"]) else None
  }

  /**
   A treasury proposal that is executed under a fresh id has its allocation on the book exactly when the treasury could
   afford it. Executed it is in either case, unless the clock has stepped back before the mark.
   */
  lemma AllocatedExactlyWhenAffordable(env: Env, d: Dao, id: string, allocationId: string, clock: Clock)
    requires TakesEffect(d, env, id, allocationId, clock) && d.proposals[id].kind == TREASURY_ALLOCATION
    requires Requested(env, d.proposals[id]).Some? && allocationId !in d.treasury.allocations
    ensures var d' := NextDao(env, d, Action.Execute(id, allocationId, clock));
            var amount := Requested(env, d.proposals[id]).value;
            && (allocationId in d'.treasury.allocations <==> amount <= T.Available(d.treasury))
            && (allocationId in d'.treasury.allocations ==> d'.treasury.allocations[allocationId].amount == amount)
            && id in d'.proposals
            && (d'.proposals[id].status == EXECUTED <==> clock.mark >= d.proposals[id].executionTime)
  {}
}
