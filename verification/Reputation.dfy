/**
 The reputation update: an exponential moving average in fixed-point arithmetic with the truncating
 division of signed C++ integers. The lemmas say exactly what the rounding does to a score, and
 what every run of updates keeps.
 */
module Reputation {
  import opened Words

  /** Signed division, which truncates toward zero. */
  function Truncated(a: int, b: nat): int
    requires b > 0
  {
    if a >= 0 then a / b else -((-a) / b)
  }

  predicate FitsSigned(x: int) {
    -TWO64 / 2 <= x < TWO64 / 2
  }

  /** The conversion of a 64-bit unsigned value to the signed type. */
  function AsSigned(x: uint64): int {
    if x < TWO64 / 2 then x else x - TWO64
  }

  /** The bonus for uptime; the quotient is converted to an unsigned word before it is capped. */
  function Bonus(uptime: int): nat
    requires FitsSigned(10 * uptime)
  {
    var bonus := Wrap(Truncated(10 * uptime, 3600000));
    if bonus > 100 then 100 else bonus
  }

  /** The change that the outcome of a task calls for, before it is averaged in. */
  function Delta(success: bool, sla: uint64, uptime: int): int
    requires FitsSigned(10 * uptime)
  {
    (if success then Quotient(100 * sla, FIXED_POINT_SCALE) else -500) + Bonus(uptime)
  }

  function Clamped(x: int): nat {
    if x < 0 then 0 else if x > FIXED_POINT_SCALE then FIXED_POINT_SCALE else x
  }

  function Averaged(current: int, delta: int): int {
    Truncated(9500 * current, FIXED_POINT_SCALE) + Truncated(500 * (current + delta), FIXED_POINT_SCALE)
  }

  /** Inputs on which no signed operation of the update overflows. */
  predicate IsDefined(score: uint64, success: bool, sla: uint64, uptime: int) {
    FitsSigned(10 * uptime) && FitsSigned(AsSigned(score) + Delta(success, sla, uptime))
  }

  /** `updateReputationScoreFp`. */
  function NewScore(score: uint64, success: bool, sla: uint64, uptime: int): nat
    requires IsDefined(score, success, sla, uptime)
  {
    Clamped(Averaged(AsSigned(score), Delta(success, sla, uptime)))
  }

  /** The whole bonus goes to an uptime of ten hours, and to a negative one of at least six minutes. */
  lemma WhoEarnsTheWholeBonus(uptime: int)
    requires FitsSigned(10 * uptime)
    ensures Bonus(uptime) == 100 <==> uptime >= 36000000 || uptime <= -360000
    ensures uptime >= 0 ==> Bonus(uptime) == if uptime >= 36000000 then 100 else uptime / 360000
    ensures 0 <= Bonus(uptime) <= 100
  {}

  /** What rounding both terms down does to a score: the average moves by a twentieth of the change, less one unit. */
  lemma AverageInClosedForm(score: nat, delta: int)
    requires score + delta >= 0
    ensures Averaged(score, delta) ==
            score + (score % 20 + delta) / 20 - (if score % 20 == 0 then 0 else 1)
  {}

  /** A failure strictly lowers every score but zero. */
  lemma FailureLowers(score: uint64, sla: uint64, uptime: int)
    requires IsDefined(score, false, sla, uptime)
    ensures NewScore(score, false, sla, uptime) < score || score == NewScore(score, false, sla, uptime) == 0
  {}

  /** A success under a service level of at most 1.0 raises a score by at most ten units, a thousandth. */
  lemma SuccessRaisesLittle(score: uint64, sla: uint64, uptime: int)
    requires IsDefined(score, true, sla, uptime) && sla <= FIXED_POINT_SCALE
    ensures NewScore(score, true, sla, uptime) <= score + 10
  {}

  /** Rounding can make a success cost a unit: exactly when the change does not reach the next twentieth. */
  lemma SuccessKeepsTheScoreExactlyWhen(score: nat, sla: uint64, uptime: int)
    requires score <= FIXED_POINT_SCALE && IsDefined(score, true, sla, uptime)
    ensures NewScore(score, true, sla, uptime) >= score <==>
            score % 20 == 0 || score % 20 + Delta(true, sla, uptime) >= 20
    ensures NewScore(score, true, sla, uptime) >= score - 1
  {
    WhoEarnsTheWholeBonus(uptime);
    AverageInClosedForm(score, Delta(true, sla, uptime));
  }

  /** A failure without a bonus costs 25 units, 26 from 500 on unless the score is a multiple of 20. */
  lemma FailureCosts(score: nat, sla: uint64, uptime: int)
    requires score <= 10000 && 0 <= uptime < 360000
    ensures IsDefined(score, false, sla, uptime)
    ensures NewScore(score, false, sla, uptime) ==
            if score <= 25 then 0 else if score < 500 || score % 20 == 0 then score - 25 else score - 26
  {
    WhoEarnsTheWholeBonus(uptime);
    if score >= 500 {
      AverageInClosedForm(score, -500);
    }
  }

  /**
   A success earns a twentieth of its service level in percent and of its bonus, together with what the score has
   beyond a multiple of 20; for that the score then gives up one unit.
   */
  lemma SuccessEarns(score: nat, sla: uint64, uptime: int)
    requires score <= 10000 && uptime >= 0 && IsDefined(score, true, sla, uptime)
    ensures var earned := sla * 100 / 10000 + (if uptime >= 36000000 then 100 else uptime / 360000);
            var raised := score + (score % 20 + earned) / 20 - (if score % 20 == 0 then 0 else 1);
            NewScore(score, true, sla, uptime) == if raised > 10000 then 10000 else raised
  {
    WhoEarnsTheWholeBonus(uptime);
    AverageInClosedForm(score, Delta(true, sla, uptime));
  }

  /** A score far above 1.0 comes back to 1.0; one of 2^63 or more reads as negative and is all but lost. */
  lemma HugeScores(score: uint64, success: bool, sla: uint64, uptime: int)
    requires FitsSigned(10 * uptime) && sla <= 10000
    ensures 20000 <= score < 0x7FFF_FFFF_FFFF_0000 ==>
              IsDefined(score, success, sla, uptime) && NewScore(score, success, sla, uptime) == 10000
    ensures score >= 0x8000_0000_0001_0000 ==>
              IsDefined(score, success, sla, uptime) && NewScore(score, success, sla, uptime) <= 9
              && (!success ==> NewScore(score, success, sla, uptime) == 0)
  {
    WhoEarnsTheWholeBonus(uptime);
  }

  // ---------- runs ----------

  datatype Update = Update(success: bool, sla: uint64, uptime: int)

  /** Every uptime is one that the source can multiply by ten. */
  predicate Sensible(updates: seq<Update>) {
    forall u | u in updates :: FitsSigned(10 * u.uptime)
  }

  lemma ScoresInRangeAreDefined(score: nat, u: Update)
    requires score <= FIXED_POINT_SCALE && FitsSigned(10 * u.uptime)
    ensures IsDefined(score, u.success, u.sla, u.uptime)
  {}

  /** The score after a run of updates; it never leaves the range from 0 to 1.0. */
  function ScoreAfter(score: nat, updates: seq<Update>): (r: nat)
    requires score <= FIXED_POINT_SCALE && Sensible(updates)
    ensures r <= FIXED_POINT_SCALE
    decreases |updates|
  {
    if updates == [] then score
    else
      ScoresInRangeAreDefined(score, updates[0]);
      ScoreAfter(NewScore(score, updates[0].success, updates[0].sla, updates[0].uptime), updates[1..])
  }

  /** A success with a full service level and the whole bonus. */
  predicate IsPerfect(u: Update) {
    u.success && u.sla == FIXED_POINT_SCALE && u.uptime >= 36000000
  }

  lemma PerfectUpdate(score: nat, u: Update)
    requires score <= FIXED_POINT_SCALE && FitsSigned(10 * u.uptime) && IsPerfect(u)
    ensures IsDefined(score, u.success, u.sla, u.uptime)
    ensures NewScore(score, u.success, u.sla, u.uptime) >= Clamped(score + 9)
  {}

  /** Perfect work reaches the top: at least nine units an update, whatever the start. */
  lemma {:induction false} PerfectRunClimbs(score: nat, updates: seq<Update>)
    requires score <= FIXED_POINT_SCALE && Sensible(updates)
    requires forall u | u in updates :: IsPerfect(u)
    ensures ScoreAfter(score, updates) >= Clamped(score + 9 * |updates|)
    decreases |updates|
  {
    if updates != [] {
      var u := updates[0];
      PerfectUpdate(score, u);
      PerfectRunClimbs(NewScore(score, u.success, u.sla, u.uptime), updates[1..]);
    }
  }

  /** And failures alone reach zero. */
  lemma {:induction false} FailingRunFalls(score: nat, updates: seq<Update>)
    requires score <= FIXED_POINT_SCALE && Sensible(updates)
    requires forall u | u in updates :: !u.success
    ensures ScoreAfter(score, updates) <= Clamped(score - |updates|)
    decreases |updates|
  {
    if updates != [] {
      var u := updates[0];
      ScoresInRangeAreDefined(score, u);
      FailureLowers(score, u.sla, u.uptime);
      FailingRunFalls(NewScore(score, u.success, u.sla, u.uptime), updates[1..]);
    }
  }

  /** No run of successes under service levels of at most 1.0 climbs faster than ten units an update. */
  lemma {:induction false} RunClimbsSlowly(score: nat, updates: seq<Update>)
    requires score <= FIXED_POINT_SCALE && Sensible(updates)
    requires forall u | u in updates :: u.sla <= FIXED_POINT_SCALE
    ensures ScoreAfter(score, updates) <= score + 10 * |updates|
    decreases |updates|
  {
    if updates != [] {
      var u := updates[0];
      ScoresInRangeAreDefined(score, u);
      if u.success {
        SuccessRaisesLittle(score, u.sla, u.uptime);
      } else {
        FailureLowers(score, u.sla, u.uptime);
      }
      RunClimbsSlowly(NewScore(score, u.success, u.sla, u.uptime), updates[1..]);
    }
  }
}
