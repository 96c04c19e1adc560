/**
 Reward amounts: chains of fixed-point multiplications, each rounded down and each cut to 64 bits.
 A reward never exceeds its exact rational value, and how far it falls short is known exactly
 when nothing is cut.
 */
module Rewards {
  import opened Words
  import opened Options

  /** At most 100 million tokens. */
  const MAX_REWARD := 100000000 * FIXED_POINT_SCALE

  /** One multiplication: the 128-bit product divided by the scale, cast to 64 bits. */
  function Scaled(a: nat, b: nat): uint64 {
    Wrap(Quotient(a * b, FIXED_POINT_SCALE))
  }

  /** The cast drops nothing. */
  predicate Fits(a: nat, b: nat) {
    Quotient(a * b, FIXED_POINT_SCALE) < TWO64
  }

  function Capped(reward: nat): nat {
    if reward > MAX_REWARD then MAX_REWARD else reward
  }

  lemma ScaledBounds(a: nat, b: nat)
    ensures Scaled(a, b) * FIXED_POINT_SCALE <= a * b
    ensures Fits(a, b) ==> a * b < (Scaled(a, b) + 1) * FIXED_POINT_SCALE
    ensures !Fits(a, b) ==> (Scaled(a, b) + TWO64) * FIXED_POINT_SCALE <= a * b
  {
    var q := Quotient(a * b, FIXED_POINT_SCALE);
    assert q >= TWO64 ==> Wrap(q) <= q - TWO64;
    assert q < TWO64 ==> Wrap(q) == q;
  }

  lemma Distribute(a: nat, b: nat, c: nat)
    ensures (a + b) * c == a * c + b * c
  {}

  lemma Reorder(a: nat, b: nat, c: nat)
    ensures a * b * c == a * c * b == a * (b * c)
  {}

  /** A partial reward whose exact value is `exact / d` is at least `gap` below it. */
  predicate IsBelow(a: nat, exact: nat, d: nat, gap: nat) {
    (a + gap) * d <= exact
  }

  /** It is less than `slack` below it. */
  predicate IsNear(a: nat, exact: nat, d: nat, slack: nat) {
    exact < (a + slack) * d
  }

  /** Rounding and cutting only ever lose; a factor of at least 1.0 makes up for none of an earlier loss. */
  lemma ScalingStaysBelow(a: nat, exact: nat, d: nat, gap: nat, b: nat)
    requires IsBelow(a, exact, d, gap) && (gap == 0 || b >= FIXED_POINT_SCALE)
    ensures IsBelow(Scaled(a, b), exact * b, d * FIXED_POINT_SCALE, gap)
  {
    var r, s := Scaled(a, b) + gap, FIXED_POINT_SCALE;
    ScaledBounds(a, b);
    if gap > 0 {
      ProductGrows(s, b, gap);
    }
    Distribute(a, gap, b);
    assert r * s <= (a + gap) * b;
    ProductGrows(r * s, (a + gap) * b, d);
    ProductGrows((a + gap) * d, exact, b);
    Reorder(a + gap, d, b);
    Reorder(r, d, s);
  }

  lemma CuttingLosesMuch(a: nat, exact: nat, d: nat, b: nat)
    requires IsBelow(a, exact, d, 0) && !Fits(a, b)
    ensures IsBelow(Scaled(a, b), exact * b, d * FIXED_POINT_SCALE, TWO64)
  {
    var r, s := Scaled(a, b) + TWO64, FIXED_POINT_SCALE;
    ScaledBounds(a, b);
    ProductGrows(r * s, a * b, d);
    ProductGrows(a * d, exact, b);
    Reorder(a, d, b);
    Reorder(r, d, s);
  }

  lemma RoundingStep(a: nat, slack: nat, b: nat, m: nat)
    requires b <= m * FIXED_POINT_SCALE && Fits(a, b)
    ensures (a + slack) * b + 1 <= (Scaled(a, b) + (slack * m + 1)) * FIXED_POINT_SCALE
  {
    ScaledBounds(a, b);
    ProductGrows(b, m * FIXED_POINT_SCALE, slack);
    Reorder(slack, m, FIXED_POINT_SCALE);
    Distribute(a, slack, b);
  }

  lemma ChainUp(a: nat, b: nat, exact: nat, d: nat, r: nat)
    requires d > 0 && exact <= a * d && a * b + 1 <= r * FIXED_POINT_SCALE
    ensures exact * b < r * (d * FIXED_POINT_SCALE)
  {
    ProductGrows(a * b + 1, r * FIXED_POINT_SCALE, d);
    Distribute(a * b, 1, d);
    ProductGrows(exact, a * d, b);
    Reorder(a, d, b);
    Reorder(r, d, FIXED_POINT_SCALE);
  }

  /** Rounding alone loses less than one unit, and what was lost before grows with the factor. */
  lemma RoundingLosesLittle(a: nat, exact: nat, d: nat, slack: nat, b: nat, m: nat)
    requires d > 0 && IsNear(a, exact, d, slack) && b <= m * FIXED_POINT_SCALE && Fits(a, b)
    ensures IsNear(Scaled(a, b), exact * b, d * FIXED_POINT_SCALE, slack * m + 1)
  {
    RoundingStep(a, slack, b, m);
    ChainUp(a + slack, b, exact, d, Scaled(a, b) + (slack * m + 1));
  }

  // ---------- energy telemetry ----------

  /** `EnergyTelemetry::calculateTokenReward` before the cap. */
  function UncappedEnergyReward(kWh: uint64, rate: uint64, efficiency: uint64): nat {
    var baseReward := Scaled(kWh, rate);
    var phase1 := Scaled(baseReward, Wrap(FIXED_POINT_SCALE + efficiency));
    Scaled(phase1, FIXED_POINT_SCALE)
  }

  function EnergyReward(kWh: uint64, rate: uint64, efficiency: uint64): nat {
    Capped(UncappedEnergyReward(kWh, rate, efficiency))
  }

  /** No cast cuts anything off. */
  predicate EnergyFits(kWh: uint64, rate: uint64, efficiency: uint64) {
    && FIXED_POINT_SCALE + efficiency < TWO64
    && Fits(kWh, rate)
    && Fits(Scaled(kWh, rate), FIXED_POINT_SCALE + efficiency)
  }

  lemma ScalingByOne(a: uint64)
    ensures Scaled(a, FIXED_POINT_SCALE) == a
  {
    WrapIsSmall(a);
  }

  const SQUARE := FIXED_POINT_SCALE * FIXED_POINT_SCALE

  /** Whatever the inputs, a reward is at most its exact value and at most the cap. */
  lemma EnergyRewardIsAtMostExact(kWh: uint64, rate: uint64, efficiency: uint64)
    ensures EnergyReward(kWh, rate, efficiency) <= MAX_REWARD
    ensures EnergyReward(kWh, rate, efficiency) <= UncappedEnergyReward(kWh, rate, efficiency)
    ensures IsBelow(UncappedEnergyReward(kWh, rate, efficiency),
                    kWh * rate * (FIXED_POINT_SCALE + efficiency), SQUARE, 0)
  {
    var a, m := Scaled(kWh, rate), Wrap(FIXED_POINT_SCALE + efficiency);
    WrapIsSmall(FIXED_POINT_SCALE + efficiency);
    ScalingByOne(Scaled(a, m));
    ScalingStaysBelow(kWh, kWh, 1, 0, rate);
    ScalingStaysBelow(a, kWh * rate, FIXED_POINT_SCALE, 0, m);
    ProductGrows(m, FIXED_POINT_SCALE + efficiency, kWh * rate);
  }

  lemma EnergyRewardIsNear(kWh: uint64, rate: uint64, efficiency: uint64)
    requires efficiency <= FIXED_POINT_SCALE && EnergyFits(kWh, rate, efficiency)
    ensures IsNear(UncappedEnergyReward(kWh, rate, efficiency),
                   kWh * rate * (FIXED_POINT_SCALE + efficiency), SQUARE, 3)
  {
    var a, m := Scaled(kWh, rate), FIXED_POINT_SCALE + efficiency;
    WrapIsSmall(m);
    ScalingByOne(Scaled(a, m));
    ScaledBounds(kWh, rate);
    RoundingLosesLittle(a, kWh * rate, FIXED_POINT_SCALE, 1, m, 2);
  }

  /** A cut anywhere in the chain costs a whole 64-bit range of tokens. */
  lemma CutEnergyRewardIsFarBelow(kWh: uint64, rate: uint64, efficiency: uint64)
    requires efficiency <= FIXED_POINT_SCALE && !EnergyFits(kWh, rate, efficiency)
    ensures IsBelow(UncappedEnergyReward(kWh, rate, efficiency),
                    kWh * rate * (FIXED_POINT_SCALE + efficiency), SQUARE, TWO64)
  {
    var a, m := Scaled(kWh, rate), FIXED_POINT_SCALE + efficiency;
    WrapIsSmall(m);
    ScalingByOne(Scaled(a, m));
    if Fits(kWh, rate) {
      ScalingStaysBelow(kWh, kWh, 1, 0, rate);
      CuttingLosesMuch(a, kWh * rate, FIXED_POINT_SCALE, m);
    } else {
      CuttingLosesMuch(kWh, kWh, 1, rate);
      ScalingStaysBelow(a, kWh * rate, FIXED_POINT_SCALE, TWO64, m);
    }
  }

  /** For an efficiency of at most 1.0: within three units of the exact value exactly when no cast cuts anything. */
  lemma EnergyRewardIsNearExactlyWhenItFits(kWh: uint64, rate: uint64, efficiency: uint64)
    requires efficiency <= FIXED_POINT_SCALE
    ensures IsNear(UncappedEnergyReward(kWh, rate, efficiency),
                   kWh * rate * (FIXED_POINT_SCALE + efficiency), SQUARE, 3) <==>
            EnergyFits(kWh, rate, efficiency)
  {
    if EnergyFits(kWh, rate, efficiency) {
      EnergyRewardIsNear(kWh, rate, efficiency);
    } else {
      CutEnergyRewardIsFarBelow(kWh, rate, efficiency);
      var r := UncappedEnergyReward(kWh, rate, efficiency);
      ProductGrows(r + 3, r + TWO64, SQUARE);
    }
  }

  /** An amount is at most `exact / d` and `cap`, and less than `slack` below the smaller of the two. */
  predicate IsCloseTo(amount: nat, exact: nat, d: nat, cap: nat, slack: nat) {
    && amount <= cap && amount * d <= exact
    && (cap < amount + slack || exact < (amount + slack) * d)
  }

  lemma CappedIsClose(r: nat, exact: nat, d: nat, slack: nat)
    requires slack > 0 && IsBelow(r, exact, d, 0) && IsNear(r, exact, d, slack)
    ensures IsCloseTo(Capped(r), exact, d, 1000000000000, slack)
  {
    ProductGrows(Capped(r), r, d);
  }

  /** What is paid out for energy: the exact amount or 100 million tokens, whichever is less, to within three units. */
  lemma EnergyRewardIsTheCappedExactAmount(kWh: uint64, rate: uint64, efficiency: uint64)
    requires efficiency <= FIXED_POINT_SCALE && EnergyFits(kWh, rate, efficiency)
    ensures IsCloseTo(EnergyReward(kWh, rate, efficiency), kWh * rate * (10000 + efficiency), 100000000,
                      1000000000000, 3)
  {
    EnergyRewardIsAtMostExact(kWh, rate, efficiency);
    EnergyRewardIsNear(kWh, rate, efficiency);
    CappedIsClose(UncappedEnergyReward(kWh, rate, efficiency), kWh * rate * (10000 + efficiency), 100000000, 3);
  }

  lemma ScaledIsMonotone(a: nat, b: nat, c: nat, d: nat)
    requires a <= c && b <= d && Fits(c, d)
    ensures Fits(a, b) && Scaled(a, b) <= Scaled(c, d)
  {
    ProductGrows(a, c, b);
    ProductGrows(b, d, c);
  }

  /** More energy or a better efficiency never earns less, as long as the larger reward is not cut. */
  lemma EnergyRewardIsMonotone(kWh: uint64, more: uint64, rate: uint64, efficiency: uint64, better: uint64)
    requires kWh <= more && efficiency <= better && EnergyFits(more, rate, better)
    ensures EnergyReward(kWh, rate, efficiency) <= EnergyReward(more, rate, better)
  {
    var m, n := FIXED_POINT_SCALE + efficiency, FIXED_POINT_SCALE + better;
    WrapIsSmall(m);
    WrapIsSmall(n);
    ScaledIsMonotone(kWh, rate, more, rate);
    ScaledIsMonotone(Scaled(kWh, rate), m, Scaled(more, rate), n);
    ScalingByOne(Scaled(Scaled(kWh, rate), m));
    ScalingByOne(Scaled(Scaled(more, rate), n));
  }

  lemma DoubledReward(kWh: uint64, reward: nat)
    requires reward == Capped(Wrap(2 * kWh))
    ensures EnergyReward(kWh, FIXED_POINT_SCALE, FIXED_POINT_SCALE) == reward
  {
    var two := 2 * FIXED_POINT_SCALE;
    ScalingByOne(kWh);
    assert Quotient(kWh * two, FIXED_POINT_SCALE) == 2 * kWh;
    ScalingByOne(Wrap(2 * kWh));
    WrapIsSmall(two);
  }

  lemma CappedAndWrapped(kWh: uint64, more: uint64)
    requires 2 * kWh == TWO64 - 2 && 2 * more == TWO64
    ensures Capped(Wrap(2 * kWh)) == MAX_REWARD && Capped(Wrap(2 * more)) == 0
  {
    WrapIsSmall(2 * kWh);
    assert Wrap(TWO64) == 0;
  }

  /** When it is cut, one more unit of energy can take the reward from the cap to nothing. */
  lemma CutRewardCanDrop(kWh: uint64, more: uint64)
    requires 2 * kWh == TWO64 - 2 && more == kWh + 1
    ensures EnergyReward(kWh, FIXED_POINT_SCALE, FIXED_POINT_SCALE) == MAX_REWARD
    ensures EnergyReward(more, FIXED_POINT_SCALE, FIXED_POINT_SCALE) == 0
  {
    CappedAndWrapped(kWh, more);
    DoubledReward(kWh, MAX_REWARD);
    DoubledReward(more, 0);
  }

  // ---------- ambient nodes ----------

  /** What the token reward is computed from. */
  datatype Telemetry = Telemetry(computePower: uint64, efficiency: uint64, privacyBudget: uint64)

  function UncappedTokenReward(s: Telemetry, rate: uint64, reputation: uint64): nat {
    Scaled(Scaled(Scaled(Scaled(s.computePower, rate), s.efficiency), s.privacyBudget), reputation)
  }

  /** The amount that `calculateTokenReward` accrues; nothing without a sample. */
  function TokenReward(sample: Option<Telemetry>, rate: uint64, reputation: uint64): Option<nat> {
    if sample.None? then None else Some(Capped(UncappedTokenReward(sample.value, rate, reputation)))
  }

  function Product(a: nat, b: nat): nat {
    a * b
  }

  function ExactTokenReward(s: Telemetry, rate: uint64, reputation: uint64): nat {
    Product(Product(Product(s.computePower * rate, s.efficiency), s.privacyBudget), reputation)
  }

  lemma TokenRewardIsAtMostExact(s: Telemetry, rate: uint64, reputation: uint64)
    ensures TokenReward(Some(s), rate, reputation).Some?
    ensures TokenReward(Some(s), rate, reputation).value <= MAX_REWARD
    ensures TokenReward(Some(s), rate, reputation).value <= UncappedTokenReward(s, rate, reputation)
    ensures IsBelow(UncappedTokenReward(s, rate, reputation), ExactTokenReward(s, rate, reputation), SQUARE * SQUARE, 0)
  {
    var a := Scaled(s.computePower, rate);
    var b := Scaled(a, s.efficiency);
    var c := Scaled(b, s.privacyBudget);
    var e := s.computePower * rate;
    var f := Product(e, s.efficiency);
    ScaledBounds(s.computePower, rate);
    ScalingStaysBelow(a, e, FIXED_POINT_SCALE, 0, s.efficiency);
    ScalingStaysBelow(b, f, SQUARE, 0, s.privacyBudget);
    ScalingStaysBelow(c, Product(f, s.privacyBudget), SQUARE * FIXED_POINT_SCALE, 0, reputation);
  }

  lemma FitsWithSmallFactor(a: uint64, b: nat)
    requires b <= FIXED_POINT_SCALE
    ensures Fits(a, b)
  {
    ProductGrows(b, FIXED_POINT_SCALE, a);
  }

  lemma SmallFactorLosesLittle(a: uint64, exact: nat, d: nat, slack: nat, b: nat)
    requires d > 0 && IsNear(a, exact, d, slack) && b <= FIXED_POINT_SCALE
    ensures IsNear(Scaled(a, b), Product(exact, b), d * FIXED_POINT_SCALE, slack + 1)
  {
    FitsWithSmallFactor(a, b);
    RoundingLosesLittle(a, exact, d, slack, b, 1);
  }

  lemma FirstProductIsNear(power: uint64, rate: uint64)
    requires Fits(power, rate)
    ensures IsNear(Scaled(power, rate), power * rate, FIXED_POINT_SCALE, 1)
  {
    ScaledBounds(power, rate);
  }

  lemma ThreeSmallFactors(a: uint64, exact: nat, x: nat, y: nat, z: nat)
    requires IsNear(a, exact, FIXED_POINT_SCALE, 1)
    requires x <= FIXED_POINT_SCALE && y <= FIXED_POINT_SCALE && z <= FIXED_POINT_SCALE
    ensures IsNear(Scaled(Scaled(Scaled(a, x), y), z), Product(Product(Product(exact, x), y), z), SQUARE * SQUARE, 4)
  {
    SmallFactorLosesLittle(a, exact, FIXED_POINT_SCALE, 1, x);
    SmallFactorLosesLittle(Scaled(a, x), Product(exact, x), SQUARE, 2, y);
    SmallFactorLosesLittle(Scaled(Scaled(a, x), y), Product(Product(exact, x), y), SQUARE * FIXED_POINT_SCALE, 3, z);
  }

  /** With factors of at most 1.0 only the first product can be cut; if it is not, less than four units are lost. */
  lemma TokenRewardIsNear(s: Telemetry, rate: uint64, reputation: uint64)
    requires Fits(s.computePower, rate)
    requires s.efficiency <= FIXED_POINT_SCALE && s.privacyBudget <= FIXED_POINT_SCALE
    requires reputation <= FIXED_POINT_SCALE
    ensures IsNear(UncappedTokenReward(s, rate, reputation), ExactTokenReward(s, rate, reputation), SQUARE * SQUARE, 4)
  {
    FirstProductIsNear(s.computePower, rate);
    ThreeSmallFactors(
      Scaled(s.computePower, rate), s.computePower * rate, s.efficiency, s.privacyBudget, reputation);
  }

  /** What a node is paid: its exact amount or 100 million tokens, whichever is less, to within four units. */
  lemma TokenRewardIsTheCappedExactAmount(s: Telemetry, rate: uint64, reputation: uint64)
    requires Fits(s.computePower, rate)
    requires s.efficiency <= FIXED_POINT_SCALE && s.privacyBudget <= FIXED_POINT_SCALE
    requires reputation <= FIXED_POINT_SCALE
    ensures TokenReward(None, rate, reputation) == None
    ensures TokenReward(Some(s), rate, reputation).Some?
    ensures IsCloseTo(TokenReward(Some(s), rate, reputation).value, ExactTokenReward(s, rate, reputation),
                      10000000000000000, 1000000000000, 4)
  {
    TokenRewardIsAtMostExact(s, rate, reputation);
    TokenRewardIsNear(s, rate, reputation);
    CappedIsClose(UncappedTokenReward(s, rate, reputation), ExactTokenReward(s, rate, reputation), SQUARE * SQUARE, 4);
  }
}
