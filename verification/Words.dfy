/** The machine words, the fixed-point scale and the unit of time that the sources compute in. */
module Words {
  const TWO64 := 0x1_0000_0000_0000_0000
  type uint64 = x: nat | x < TWO64

  /** 1.0 in the telemetry's fixed-point numbers. */
  const FIXED_POINT_SCALE := 10000

  /** A day in seconds. */
  const DAY := 24 * 3600

  /** What a 64-bit unsigned operation keeps of its exact result. */
  function Wrap(x: int): uint64 {
    x % TWO64
  }

  lemma WrapIsSmall(x: nat)
    ensures Wrap(x) <= x
    ensures x < TWO64 ==> Wrap(x) == x
  {}

  /** The size of the difference, as the sources compute it without leaving the unsigned range. */
  function Distance(x: nat, y: nat): nat {
    if x > y then x - y else y - x
  }

  /** Unsigned integer division. */
  function Quotient(x: nat, d: nat): (q: nat)
    requires d > 0
    ensures q * d <= x < q * d + d
  {
    x / d
  }

  lemma ProductGrows(a: nat, b: nat, c: nat)
    requires a <= b
    ensures a * c <= b * c
  {}

  lemma OneMore(n: nat, share: nat)
    ensures (n + 1) * share == n * share + share
    ensures share * (n + 1) == share * n + share
  {}

  lemma QuotientAtLeast(x: nat, d: nat, q: nat)
    requires d > 0
    ensures Quotient(x, d) >= q <==> x >= q * d
  {
    if Quotient(x, d) >= q {
      ProductGrows(q, Quotient(x, d), d);
    } else {
      ProductGrows(Quotient(x, d) + 1, q, d);
    }
  }
}
