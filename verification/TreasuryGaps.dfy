/**
 What the treasury's book loses track of: the money of open allocations that a creation under their id hides,
 the record of released ones that it erases, and funds that wrap the balance. Each is accounted for exactly,
 over whole runs.
 */
module TreasuryGaps {
  import opened MapSums
  import opened Words
  import opened Treasuries

  /** The released amount whose record a creation overwrites. */
  function Erased(b: Book, op: Op): nat {
    if op.Create? && op.amount <= Available(b) then PaidAmount(b.allocations, op.id) else 0
  }

  lemma PaidSumAfterAnyStep(b: Book, op: Op)
    ensures Sum(Paid(Step(b, op).allocations)) == Sum(Paid(b.allocations)) + PaidOut(b, op) - Erased(b, op)
  {
    if op.Create? && op.amount <= Available(b) {
      PaidSumAfterPut(b.allocations, op.id, Step(b, op).allocations[op.id]);
    } else {
      PaidSumAfterStep(b, op);
    }
  }

  /** What is promised but not open, and paid but not on record. */
  ghost function OpenGap(b: Book): int {
    b.totalAllocated - Sum(Open(b.allocations))
  }

  ghost function PaidGap(b: Book, paid: nat): int {
    paid - Sum(Paid(b.allocations))
  }

  /** A step widens the gaps by exactly what it hides and what it erases. */
  lemma GapsAfterStep(b: Book, op: Op, paid: nat)
    requires Solvent(b) && NoWrap(b, op)
    ensures OpenGap(Step(b, op)) == OpenGap(b) + Hidden(b, op)
    ensures PaidGap(Step(b, op), paid + PaidOut(b, op)) == PaidGap(b, paid) + Erased(b, op)
  {
    NothingWraps(b, op);
    OpenSumAfterStep(b, op);
    PaidSumAfterAnyStep(b, op);
  }

  /** An exact book stays exact exactly when the step overwrites neither open nor released money. */
  lemma StepIsExactExactlyWhen(b: Book, op: Op, paid: nat)
    requires Solvent(b) && NoWrap(b, op) && Exact(b, paid)
    ensures Sum(Open(Step(b, op).allocations)) == Step(b, op).totalAllocated <==> Hidden(b, op) == 0
    ensures Exact(Step(b, op), paid + PaidOut(b, op)) <==> Hidden(b, op) == 0 && Erased(b, op) == 0
  {
    GapsAfterStep(b, op, paid);
  }

  function HiddenOver(initial: uint64, ops: seq<Op>): nat
    decreases |ops|
  {
    if ops == [] then 0
    else
      var before := ops[..|ops| - 1];
      HiddenOver(initial, before) + Hidden(RunTreasury(initial, before).book, ops[|ops| - 1])
  }

  function ErasedOver(initial: uint64, ops: seq<Op>): nat
    decreases |ops|
  {
    if ops == [] then 0
    else
      var before := ops[..|ops| - 1];
      ErasedOver(initial, before) + Erased(RunTreasury(initial, before).book, ops[|ops| - 1])
  }

  /** In every run whose funds fit, the gaps are the sums of what its steps have hidden and erased. */
  lemma {:induction false} GapsOverRun(initial: uint64, ops: seq<Op>)
    requires Throughout(initial, ops, NoWrap)
    ensures var r := RunTreasury(initial, ops);
            OpenGap(r.book) == HiddenOver(initial, ops) && PaidGap(r.book, r.paid) == ErasedOver(initial, ops)
    decreases |ops|
  {
    if ops != [] {
      var before := ops[..|ops| - 1];
      var r := RunTreasury(initial, before);
      TreasuryStaysSolvent(initial, before);
      GapsOverRun(initial, before);
      GapsAfterStep(r.book, ops[|ops| - 1], r.paid);
    }
  }

  /** So the book is exact after a run exactly when no step of it overwrote open or released money. */
  lemma RunIsExactExactlyWhen(initial: uint64, ops: seq<Op>)
    requires Throughout(initial, ops, NoWrap)
    ensures Exact(RunTreasury(initial, ops).book, RunTreasury(initial, ops).paid) <==>
            HiddenOver(initial, ops) == 0 && ErasedOver(initial, ops) == 0
  {
    GapsOverRun(initial, ops);
  }

  lemma {:induction false} HiddenOnlyGrows(initial: uint64, ops: seq<Op>, n: nat)
    requires n <= |ops|
    ensures HiddenOver(initial, ops[..n]) <= HiddenOver(initial, ops)
    decreases |ops|
  {
    if n == |ops| {
      assert ops[..n] == ops;
    } else {
      assert ops[..n] == ops[..|ops| - 1][..n];
      HiddenOnlyGrows(initial, ops[..|ops| - 1], n);
    }
  }

  lemma {:induction false} EarlierToo(initial: uint64, ops: seq<Op>, n: nat)
    requires Throughout(initial, ops, NoWrap) && n <= |ops|
    ensures Throughout(initial, ops[..n], NoWrap)
    decreases |ops|
  {
    if n == |ops| {
      assert ops[..n] == ops;
    } else {
      assert ops[..n] == ops[..|ops| - 1][..n];
      EarlierToo(initial, ops[..|ops| - 1], n);
    }
  }

  /** Money that is stranded at some point of a run is stranded for good: no later step narrows the gap. */
  lemma StrandedForGood(initial: uint64, ops: seq<Op>, n: nat)
    requires Throughout(initial, ops, NoWrap) && n <= |ops|
    ensures 0 <= OpenGap(RunTreasury(initial, ops[..n]).book) <= OpenGap(RunTreasury(initial, ops).book)
  {
    EarlierToo(initial, ops, n);
    GapsOverRun(initial, ops[..n]);
    GapsOverRun(initial, ops);
    HiddenOnlyGrows(initial, ops, n);
  }

  // ---------- funds that wrap ----------

  function WrapsOver(initial: uint64, ops: seq<Op>): nat
    decreases |ops|
  {
    if ops == [] then 0
    else
      var before := ops[..|ops| - 1];
      WrapsOver(initial, before) + (if NoWrap(RunTreasury(initial, before).book, ops[|ops| - 1]) then 0 else 1)
  }

  /** Every state that the run passes through is solvent. */
  ghost predicate SolventThroughout(initial: uint64, ops: seq<Op>)
    decreases |ops|
  {
    Solvent(RunTreasury(initial, ops).book) && (ops != [] ==> SolventThroughout(initial, ops[..|ops| - 1]))
  }

  lemma BalanceAfterStep(b: Book, op: Op)
    requires Solvent(b)
    ensures b.balance + Added(op) == Step(b, op).balance + PaidOut(b, op) + (if NoWrap(b, op) then 0 else TWO64)
  {
    if NoWrap(b, op) {
      NothingWraps(b, op);
    }
  }

  /** In every solvent run, what is missing is a 64-bit range for each time that funds wrapped, and nothing else. */
  lemma {:induction false} MissingIsWhatWrapped(initial: uint64, ops: seq<Op>)
    requires SolventThroughout(initial, ops)
    ensures var r := RunTreasury(initial, ops);
            initial + r.added == r.book.balance + r.paid + TWO64 * WrapsOver(initial, ops)
    decreases |ops|
  {
    if ops != [] {
      var before := ops[..|ops| - 1];
      MissingIsWhatWrapped(initial, before);
      BalanceAfterStep(RunTreasury(initial, before).book, ops[|ops| - 1]);
    }
  }

  /** So all money is accounted for exactly when no funds wrapped. */
  lemma ConservedExactlyWhenNothingWrapped(initial: uint64, ops: seq<Op>)
    requires SolventThroughout(initial, ops)
    ensures var r := RunTreasury(initial, ops);
            initial + r.added == r.book.balance + r.paid <==> WrapsOver(initial, ops) == 0
  {
    MissingIsWhatWrapped(initial, ops);
  }
}
