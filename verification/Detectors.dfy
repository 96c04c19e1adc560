/**
 The two outlier detectors. The first holds a value against the median of the peers in units of
 the median deviation and never flags a majority; the second uses the mean deviation and obeys a
 Markov bound. Both compute in wrapping 64-bit arithmetic, and the lemmas say when that matters.
 */
module Detectors {
  import opened Words
  import opened Options
  import opened Counting

  const MAX_WORD: nat := TWO64 - 1

  /** The element at position n/2 of the sorted list. */
  function Middle(values: seq<nat>): nat
    requires values != []
  {
    Sort(values)[|values| / 2]
  }

  function Deviations(values: seq<nat>, m: nat): (r: seq<nat>)
    ensures |r| == |values| && forall i | 0 <= i < |r| :: r[i] == Distance(values[i], m)
  {
    seq(|values|, i requires 0 <= i < |values| => Distance(values[i], m))
  }

  /** 0.6745 times the deviation, in units of `denominator`. */
  function ModifiedZ(deviation: nat, denominator: nat): nat
    requires denominator > 0
  {
    Quotient(Wrap(6745 * deviation), denominator)
  }

  /** The values that are more than `t` units away from `m`. */
  function Beyond(m: nat, denominator: nat, t: nat): nat -> bool
    requires denominator > 0
  {
    (x: nat) => ModifiedZ(Distance(x, m), denominator) > t
  }

  /** A score above t takes a deviation to match, wrapped or not. */
  lemma HighScoreTakesDistance(deviation: nat, denominator: nat, t: nat)
    requires denominator > 0 && ModifiedZ(deviation, denominator) > t
    ensures 6745 * deviation >= (t + 1) * denominator
  {
    WrapIsSmall(6745 * deviation);
    QuotientAtLeast(Wrap(6745 * deviation), denominator, t + 1);
  }

  // ---------- median absolute deviation ----------

  function MedianDeviation(peers: seq<uint64>): nat
    requires peers != []
  {
    Middle(Deviations(Sort(peers), Middle(peers)))
  }

  /** The verdict of `detectByzantineNodeFp`; none where the source divides by zero. */
  function MadVerdict(x: uint64, peers: seq<uint64>, t: uint64): Option<bool> {
    if |peers| < 3 then Some(false)
    else
      var denominator := Wrap(MedianDeviation(peers) + 1);
      if denominator == 0 then None
      else Some(ModifiedZ(Distance(x, Middle(peers)), denominator) > t)
  }

  method DetectByzantineNodeFp(x: uint64, peers: seq<uint64>, t: uint64) returns (flagged: Option<bool>)
    ensures flagged == MadVerdict(x, peers, t)
  {
    if |peers| < 3 {
      return Some(false);
    }
    var computeVals := Sort(peers);
    var median := computeVals[|computeVals| / 2];
    var deviations: seq<nat> := [];
    for i := 0 to |computeVals|
      invariant deviations == Deviations(computeVals[..i], median)
    {
      deviations := deviations + [Distance(computeVals[i], median)];
    }
    assert computeVals[..|computeVals|] == computeVals;
    deviations := Sort(deviations);
    var mad := deviations[|deviations| / 2];
    var denominator := Wrap(mad + 1);
    if denominator == 0 {
      return None;
    }
    flagged := Some(Quotient(Wrap(6745 * Distance(x, median)), denominator) > t);
  }

  /** At least n/2+1 elements are no larger than the middle one. */
  lemma MiddleSplits(values: seq<nat>)
    requires values != []
    ensures Count(values, AtMost(Middle(values))) >= |values| / 2 + 1
  {
    PrefixIsAtMost(Sort(values), |values| / 2);
    CountAfterSort(values, AtMost(Middle(values)));
  }

  function Near(m: nat, bound: nat): nat -> bool {
    (x: nat) => Distance(x, m) <= bound
  }

  lemma {:induction false} CountOfDeviations(values: seq<nat>, m: nat, bound: nat)
    ensures Count(Deviations(values, m), AtMost(bound)) == Count(values, Near(m, bound))
  {
    if values != [] {
      assert Deviations(values, m)[1..] == Deviations(values[1..], m);
      CountOfDeviations(values[1..], m, bound);
    }
  }

  /** More than half of the peers are within the median deviation of the median. */
  lemma MostAreNear(peers: seq<uint64>)
    requires peers != []
    ensures Count(peers, Near(Middle(peers), MedianDeviation(peers))) >= |peers| / 2 + 1
  {
    var m, bound := Middle(peers), MedianDeviation(peers);
    MiddleSplits(Deviations(Sort(peers), m));
    CountOfDeviations(Sort(peers), m, bound);
    CountAfterSort(peers, Near(m, bound));
  }

  /** A deviation of at most `mad` scores at most 6744. */
  lemma NearScoresLow(deviation: nat, mad: nat)
    requires deviation <= mad
    ensures ModifiedZ(deviation, mad + 1) <= 6744
  {
    if ModifiedZ(deviation, mad + 1) > 6744 {
      HighScoreTakesDistance(deviation, mad + 1, 6744);
    }
  }

  /** A score is above `t` exactly when the deviation is large enough, as long as the product does not wrap. */
  lemma ScoresAboveExactlyWhen(deviation: nat, denominator: nat, t: nat)
    requires denominator > 0 && 6745 * deviation < TWO64
    ensures ModifiedZ(deviation, denominator) > t <==> 6745 * deviation >= (t + 1) * denominator
  {
    WrapIsSmall(6745 * deviation);
    QuotientAtLeast(6745 * deviation, denominator, t + 1);
  }

  /**
   Who is flagged, as long as nothing wraps: a value of which 0.6745 times the distance from the median exceeds the
   threshold in units of the median deviation; none of fewer than three.
   */
  lemma FlaggedExactlyWhenFar(x: uint64, peers: seq<uint64>, t: uint64)
    ensures |peers| < 3 ==> MadVerdict(x, peers, t) == Some(false)
    ensures |peers| >= 3 && MedianDeviation(peers) < MAX_WORD && 6745 * Distance(x, Middle(peers)) < TWO64 ==>
              MadVerdict(x, peers, t) ==
              Some(6745 * Distance(x, Middle(peers)) >= (t + 1) * (MedianDeviation(peers) + 1))
  {
    if |peers| >= 3 && MedianDeviation(peers) < MAX_WORD && 6745 * Distance(x, Middle(peers)) < TWO64 {
      WrapIsSmall(MedianDeviation(peers) + 1);
      ScoresAboveExactlyWhen(Distance(x, Middle(peers)), MedianDeviation(peers) + 1, t);
    }
  }

  /** The values that the detector does not flag. */
  function Passes(peers: seq<uint64>, t: uint64): nat -> bool {
    (x: nat) => x < TWO64 && MadVerdict(x, peers, t) == Some(false)
  }

  lemma NearPasses(x: uint64, peers: seq<uint64>, t: uint64)
    requires |peers| >= 3 && MedianDeviation(peers) < MAX_WORD && t >= 6744
    requires Distance(x, Middle(peers)) <= MedianDeviation(peers)
    ensures MadVerdict(x, peers, t) == Some(false)
  {
    WrapIsSmall(MedianDeviation(peers) + 1);
    NearScoresLow(Distance(x, Middle(peers)), MedianDeviation(peers));
  }

  /** The detector never flags a majority of the peers. */
  lemma MajorityPasses(peers: seq<uint64>, t: uint64)
    requires |peers| >= 3 && MedianDeviation(peers) < MAX_WORD && t >= 6744
    ensures Count(peers, Passes(peers, t)) >= |peers| / 2 + 1
  {
    var m, mad := Middle(peers), MedianDeviation(peers);
    MostAreNear(peers);
    forall i | 0 <= i < |peers| && Near(m, mad)(peers[i])
      ensures Passes(peers, t)(peers[i])
    {
      NearPasses(peers[i], peers, t);
    }
    CountWeakens(peers, Near(m, mad), Passes(peers, t));
  }

  const SPREAD: seq<uint64> := [0, 10000, 20000]

  lemma SpreadIsSorted()
    ensures Sort(SPREAD) == SPREAD && Middle(SPREAD) == 10000
  {}

  lemma SpreadDeviates()
    ensures MedianDeviation(SPREAD) == 10000
  {}

  lemma SpreadIsFlagged(x: uint64, t: uint64)
    requires Distance(x, 10000) == 10000 && t < 6744
    ensures !Passes(SPREAD, t)(x)
  {
    SpreadIsSorted();
    SpreadDeviates();
    assert Wrap(67450000) == 67450000 && Quotient(67450000, 10001) == 6744;
  }

  /** Below 6744 two of three evenly spread peers are flagged. */
  lemma MajorityCanBeFlagged(t: uint64)
    requires t < 6744
    ensures |SPREAD| >= 3 && MedianDeviation(SPREAD) < MAX_WORD
    ensures Count(SPREAD, Passes(SPREAD, t)) < |SPREAD| / 2 + 1
  {
    SpreadDeviates();
    SpreadIsFlagged(0, t);
    SpreadIsFlagged(20000, t);
    var p := Passes(SPREAD, t);
    assert Count(SPREAD[1..][1..], p) == 0 by {
      assert SPREAD[1..][1..] == [20000];
      CountNone([20000], p);
    }
    assert !p(SPREAD[0]);
  }

  /** From which threshold on a majority is safe, whatever the peers report. */
  lemma MajorityPassesExactlyFrom6744(t: uint64)
    ensures t >= 6744 <==>
            forall peers: seq<uint64> | |peers| >= 3 && MedianDeviation(peers) < MAX_WORD ::
              Count(peers, Passes(peers, t)) >= |peers| / 2 + 1
  {
    if t >= 6744 {
      forall peers: seq<uint64> | |peers| >= 3 && MedianDeviation(peers) < MAX_WORD
        ensures Count(peers, Passes(peers, t)) >= |peers| / 2 + 1
      {
        MajorityPasses(peers, t);
      }
    } else {
      MajorityCanBeFlagged(t);
    }
  }

  // ---------- where the detector divides by zero ----------

  /** At least half of the elements, rounded up, are no smaller than the middle one. */
  lemma MiddleSplitsAbove(values: seq<nat>)
    requires values != []
    ensures Count(values, AtLeast(Middle(values))) >= |values| - |values| / 2
  {
    SuffixIsAtLeast(Sort(values), |values| / 2);
    CountAfterSort(values, AtLeast(Middle(values)));
  }

  lemma {:induction false} CountDisjoint(s: seq<nat>, p: nat -> bool, q: nat -> bool)
    requires forall i | 0 <= i < |s| :: !(p(s[i]) && q(s[i]))
    ensures Count(s, p) + Count(s, q) <= |s|
  {
    if s != [] {
      CountDisjoint(s[1..], p, q);
    }
  }

  lemma MiddleIsAMember(values: seq<nat>)
    requires values != []
    ensures Middle(values) in values
  {
    SortKeepsMembers(values);
    assert Middle(values) in Sort(values);
  }

  lemma MedianDeviationIsAWord(peers: seq<uint64>)
    requires peers != []
    ensures MedianDeviation(peers) <= MAX_WORD
  {
    MiddleIsAMember(peers);
    MiddleIsAMember(Deviations(Sort(peers), Middle(peers)));
    SortKeepsMembers(peers);
    forall i | 0 <= i < |peers|
      ensures Sort(peers)[i] in peers
    {
      assert Sort(peers)[i] in Sort(peers);
    }
  }

  function Far(m: nat, bound: nat): nat -> bool {
    (x: nat) => Distance(x, m) >= bound
  }

  lemma {:induction false} CountOfLargeDeviations(values: seq<nat>, m: nat, bound: nat)
    ensures Count(Deviations(values, m), AtLeast(bound)) == Count(values, Far(m, bound))
  {
    if values != [] {
      assert Deviations(values, m)[1..] == Deviations(values[1..], m);
      CountOfLargeDeviations(values[1..], m, bound);
    }
  }

  lemma HalfAreFar(peers: seq<uint64>)
    requires peers != []
    ensures Count(peers, Far(Middle(peers), MedianDeviation(peers))) >= |peers| - |peers| / 2
  {
    var m, bound := Middle(peers), MedianDeviation(peers);
    MiddleSplitsAbove(Deviations(Sort(peers), m));
    CountOfLargeDeviations(Sort(peers), m, bound);
    CountAfterSort(peers, Far(m, bound));
  }

  /** Half of the peers report 0 and the other half the largest word. */
  predicate Extremes(peers: seq<uint64>) {
    2 * Count(peers, AtMost(0)) == |peers| && 2 * Count(peers, AtLeast(MAX_WORD)) == |peers|
  }

  lemma LargestDeviationTakesExtremes(peers: seq<uint64>)
    requires peers != [] && MedianDeviation(peers) == MAX_WORD
    ensures Extremes(peers)
  {
    HalfAreFar(peers);
    if Middle(peers) == MAX_WORD {
      MiddleSplitsAbove(peers);
      CountWeakens(peers, Far(MAX_WORD, MAX_WORD), AtMost(0));
      CountDisjoint(peers, AtMost(0), AtLeast(MAX_WORD));
    } else {
      MiddleSplits(peers);
      MiddleIsAMember(peers);
      CountDisjoint(peers, AtMost(Middle(peers)), Far(Middle(peers), MAX_WORD));
    }
  }

  lemma ExtremesHaveTheLargestDeviation(peers: seq<uint64>)
    requires peers != [] && Extremes(peers)
    ensures MedianDeviation(peers) == MAX_WORD
  {
    var m, mad := Middle(peers), MedianDeviation(peers);
    MedianDeviationIsAWord(peers);
    MiddleIsAMember(peers);
    MiddleSplits(peers);
    if m < MAX_WORD {
      CountDisjoint(peers, AtMost(m), AtLeast(MAX_WORD));
    }
    if mad < MAX_WORD {
      MostAreNear(peers);
      CountDisjoint(peers, Near(m, mad), AtMost(0));
    }
  }

  lemma DenominatorIsZero(peers: seq<uint64>)
    requires peers != []
    ensures Wrap(MedianDeviation(peers) + 1) == 0 <==> MedianDeviation(peers) == MAX_WORD
  {
    MedianDeviationIsAWord(peers);
    WrapIsSmall(MedianDeviation(peers) + 1);
  }

  /** The denominator wraps to zero for exactly one shape of peer list. */
  lemma NoVerdictExactlyOnExtremes(x: uint64, peers: seq<uint64>, t: uint64)
    ensures MadVerdict(x, peers, t) == None <==> |peers| >= 3 && Extremes(peers)
  {
    if |peers| >= 3 {
      DenominatorIsZero(peers);
      if MedianDeviation(peers) == MAX_WORD {
        LargestDeviationTakesExtremes(peers);
      } else if Extremes(peers) {
        ExtremesHaveTheLargestDeviation(peers);
      }
    }
  }

  // ---------- what the verdict depends on ----------

  lemma VerdictIgnoresOrder(x: uint64, a: seq<uint64>, b: seq<uint64>, t: uint64)
    requires multiset(a) == multiset(b)
    ensures MadVerdict(x, a, t) == MadVerdict(x, b, t)
  {
    SortOfPermutation(a, b);
    assert |a| == |multiset(a)| == |b|;
  }

  function Plus(s: seq<nat>, c: nat): (r: seq<nat>)
    ensures |r| == |s|
  {
    if s == [] then [] else [s[0] + c] + Plus(s[1..], c)
  }

  lemma {:induction false} PlusAt(s: seq<nat>, c: nat, i: nat)
    requires i < |s|
    ensures Plus(s, c)[i] == s[i] + c
  {
    if i > 0 {
      PlusAt(s[1..], c, i - 1);
    }
  }

  lemma PlusOfFirstAndRest(x: nat, s: seq<nat>, c: nat)
    ensures Plus([x] + s, c) == [x + c] + Plus(s, c)
  {}

  lemma {:induction false} InsertShifted(x: nat, s: seq<nat>, c: nat)
    ensures Insert(x + c, Plus(s, c)) == Plus(Insert(x, s), c)
  {
    if s == [] || x <= s[0] {
      PlusOfFirstAndRest(x, s, c);
    } else {
      InsertShifted(x, s[1..], c);
      PlusOfFirstAndRest(s[0], Insert(x, s[1..]), c);
    }
  }

  lemma {:induction false} SortShifted(s: seq<nat>, c: nat)
    ensures Sort(Plus(s, c)) == Plus(Sort(s), c)
  {
    if s != [] {
      var rest := s[1..];
      SortShifted(rest, c);
      InsertShifted(s[0], Sort(rest), c);
      assert Plus(s, c)[1..] == Plus(rest, c);
    }
  }

  lemma DeviationsShifted(s: seq<nat>, m: nat, c: nat)
    ensures Deviations(Plus(s, c), m + c) == Deviations(s, m)
  {}

  /** `shifted` is `peers` with one constant added to every value. */
  predicate IsShifted(shifted: seq<uint64>, peers: seq<uint64>, c: nat) {
    |shifted| == |peers| && forall i | 0 <= i < |peers| :: shifted[i] == peers[i] + c
  }

  lemma ShiftedIsPlus(shifted: seq<uint64>, peers: seq<uint64>, c: nat)
    requires IsShifted(shifted, peers, c)
    ensures shifted == Plus(peers, c)
  {
    forall i | 0 <= i < |peers|
      ensures shifted[i] == Plus(peers, c)[i]
    {
      PlusAt(peers, c, i);
    }
  }

  lemma MiddleIsShifted(s: seq<nat>, c: nat)
    requires s != []
    ensures Middle(Plus(s, c)) == Middle(s) + c
  {
    SortShifted(s, c);
    PlusAt(Sort(s), c, |s| / 2);
  }

  lemma MedianDeviationIsShiftInvariant(shifted: seq<uint64>, peers: seq<uint64>, c: nat)
    requires peers != [] && IsShifted(shifted, peers, c)
    ensures Middle(shifted) == Middle(peers) + c
    ensures MedianDeviation(shifted) == MedianDeviation(peers)
  {
    ShiftedIsPlus(shifted, peers, c);
    MiddleIsShifted(peers, c);
    SortShifted(peers, c);
    DeviationsShifted(Sort(peers), Middle(peers), c);
  }

  /** Adding one constant to every value, the tested one included, changes nothing. */
  lemma VerdictIsShiftInvariant(x: uint64, y: uint64, peers: seq<uint64>, shifted: seq<uint64>, c: nat, t: uint64)
    requires y == x + c && IsShifted(shifted, peers, c)
    ensures MadVerdict(y, shifted, t) == MadVerdict(x, peers, t)
  {
    if |peers| >= 3 {
      MedianDeviationIsShiftInvariant(shifted, peers, c);
    }
  }

  // ---------- mean absolute deviation ----------

  /** The last values of the peers that have one. */
  function Present(samples: seq<Option<uint64>>): seq<uint64> {
    if samples == [] then []
    else
      var before := Present(samples[..|samples| - 1]);
      var last := samples[|samples| - 1];
      if last.Some? then before + [last.value] else before
  }

  function TotalDeviation(values: seq<nat>, m: nat): nat {
    if values == [] then 0 else Distance(values[0], m) + TotalDeviation(values[1..], m)
  }

  /** The sum is taken in 64 bits. */
  function MeanDeviation(values: seq<uint64>): nat
    requires values != []
  {
    Quotient(Wrap(TotalDeviation(values, Middle(values))), |values|)
  }

  lemma MeanDeviationIsSmall(values: seq<uint64>)
    requires |values| >= 3
    ensures MeanDeviation(values) + 1 < TWO64
  {}

  predicate MeanVerdict(node: Option<uint64>, peers: seq<Option<uint64>>, t: uint64) {
    var values := Present(peers);
    && node.Some?
    && |values| >= 3
    && ModifiedZ(Distance(node.value, Middle(values)), MeanDeviation(values) + 1) > t
  }

  /** The nodes that have a sample. */
  function WithSample(peers: seq<Option<uint64>>): set<nat> {
    set i: nat | i < |peers| && peers[i].Some?
  }

  lemma WithSampleGrows(peers: seq<Option<uint64>>)
    requires peers != []
    ensures var n := |peers| - 1;
            WithSample(peers) == WithSample(peers[..n]) + (if peers[n].Some? then {n} else {})
  {}

  /** The values are the samples that there are, in the order of the nodes. */
  lemma {:induction false} PresentInOrder(peers: seq<Option<uint64>>) returns (at: seq<nat>)
    ensures InOrder(at, WithSample(peers)) && |at| == |Present(peers)|
    ensures forall k | 0 <= k < |at| :: at[k] < |peers| && peers[at[k]] == Some(Present(peers)[k])
  {
    if peers == [] {
      at := [];
    } else {
      var n := |peers| - 1;
      at := PresentInOrder(peers[..n]);
      WithSampleGrows(peers);
      if peers[n].Some? {
        InOrderGrows(at, WithSample(peers[..n]), n);
        at := at + [n];
      }
    }
  }

  /**
   Who is flagged, as long as nothing wraps: a node with a sample of which 0.6745 times the distance from the median
   exceeds the threshold in units of the mean deviation, if at least three peers have a sample.
   */
  lemma FlaggedExactlyWhenFarFromMost(node: Option<uint64>, peers: seq<Option<uint64>>, t: uint64)
    ensures var values := Present(peers);
            && (node.None? || |values| < 3 ==> !MeanVerdict(node, peers, t))
            && (node.Some? && |values| >= 3 ==>
                  var total, deviation := TotalDeviation(values, Middle(values)), Distance(node.value, Middle(values));
                  total < TWO64 && 6745 * deviation < TWO64 ==>
                    (MeanVerdict(node, peers, t) <==> 6745 * deviation >= (t + 1) * (Quotient(total, |values|) + 1)))
  {
    var values := Present(peers);
    if node.Some? && |values| >= 3 {
      var total, deviation := TotalDeviation(values, Middle(values)), Distance(node.value, Middle(values));
      if total < TWO64 && 6745 * deviation < TWO64 {
        WrapIsSmall(total);
        ScoresAboveExactlyWhen(deviation, Quotient(total, |values|) + 1, t);
      }
    }
  }

  lemma {:induction false} TotalGrows(a: seq<nat>, x: nat, m: nat)
    ensures TotalDeviation(a + [x], m) == TotalDeviation(a, m) + Distance(x, m)
  {
    if a == [] {
      assert [x][1..] == [];
    } else {
      assert (a + [x])[1..] == a[1..] + [x];
      TotalGrows(a[1..], x, m);
    }
  }

  lemma {:induction false} TotalAfterInsert(x: nat, s: seq<nat>, m: nat)
    ensures TotalDeviation(Insert(x, s), m) == Distance(x, m) + TotalDeviation(s, m)
  {
    if s == [] || x <= s[0] {
      assert ([x] + s)[1..] == s;
    } else {
      TotalAfterInsert(x, s[1..], m);
      assert ([s[0]] + Insert(x, s[1..]))[1..] == Insert(x, s[1..]);
    }
  }

  /** The source sums over the sorted values; the order does not matter. */
  lemma {:induction false} TotalAfterSort(s: seq<nat>, m: nat)
    ensures TotalDeviation(Sort(s), m) == TotalDeviation(s, m)
  {
    if s != [] {
      TotalAfterSort(s[1..], m);
      TotalAfterInsert(s[0], Sort(s[1..]), m);
    }
  }

  method Values(peers: seq<Option<uint64>>) returns (vals: seq<uint64>)
    ensures vals == Present(peers)
  {
    vals := [];
    for i := 0 to |peers|
      invariant vals == Present(peers[..i])
    {
      assert peers[..i + 1][..i] == peers[..i];
      if peers[i].Some? {
        vals := vals + [peers[i].value];
      }
    }
    assert peers[..|peers|] == peers;
  }

  lemma WrapAdds(x: nat, d: nat)
    ensures Wrap(Wrap(x) + d) == Wrap(x + d)
  {}

  /** The summing loop; each addition wraps on its own. */
  method SumOfDeviations(vals: seq<nat>, m: nat) returns (mad: nat)
    ensures mad == Wrap(TotalDeviation(vals, m))
  {
    mad := 0;
    for i := 0 to |vals|
      invariant mad == Wrap(TotalDeviation(vals[..i], m))
    {
      assert vals[..i + 1] == vals[..i] + [vals[i]];
      TotalGrows(vals[..i], vals[i], m);
      WrapAdds(TotalDeviation(vals[..i], m), Distance(vals[i], m));
      mad := Wrap(mad + Distance(vals[i], m));
    }
    assert vals[..|vals|] == vals;
  }

  lemma {:induction false} PresentAreFew(peers: seq<Option<uint64>>)
    ensures |Present(peers)| <= |peers|
  {
    if peers != [] {
      PresentAreFew(peers[..|peers| - 1]);
    }
  }

  method DetectByzantineNode(node: Option<uint64>, peers: seq<Option<uint64>>, t: uint64) returns (flagged: bool)
    ensures flagged == MeanVerdict(node, peers, t)
  {
    PresentAreFew(peers);
    if node.None? || |peers| < 3 {
      return false;
    }
    var vals := Values(peers);
    if |vals| < 3 {
      return false;
    }
    var sorted := Sort(vals);
    var median := sorted[|sorted| / 2];
    var mad := SumOfDeviations(sorted, median);
    TotalAfterSort(vals, median);
    MeanDeviationIsSmall(vals);
    mad := Quotient(mad, |vals|);
    WrapIsSmall(mad + 1);
    var denominator := Wrap(mad + 1);
    flagged := Quotient(Wrap(6745 * Distance(node.value, median)), denominator) > t;
  }

  /** Each flagged value carries its share of the total deviation. */
  lemma {:induction false} FlaggedWeigh(values: seq<nat>, m: nat, denominator: nat, t: nat)
    requires denominator > 0
    ensures Count(values, Beyond(m, denominator, t)) * ((t + 1) * denominator) <= 6745 * TotalDeviation(values, m)
  {
    if values != [] {
      FlaggedWeigh(values[1..], m, denominator, t);
      if Beyond(m, denominator, t)(values[0]) {
        HighScoreTakesDistance(Distance(values[0], m), denominator, t);
        OneMore(Count(values[1..], Beyond(m, denominator, t)), (t + 1) * denominator);
      }
    }
  }

  lemma CancelFactor(flagged: nat, t: nat, denominator: nat, total: nat, n: nat)
    requires flagged * (t * denominator) <= 6745 * total && total < n * denominator
    ensures flagged * t < 6745 * n
  {
    if flagged * t >= 6745 * n {
      ProductGrows(6745 * n, flagged * t, denominator);
    }
  }

  lemma FewAreBeyond(values: seq<nat>, m: nat, denominator: nat, t: nat)
    requires TotalDeviation(values, m) < |values| * denominator
    ensures denominator > 0 && Count(values, Beyond(m, denominator, t)) * (t + 1) < 6745 * |values|
  {
    FlaggedWeigh(values, m, denominator, t);
    CancelFactor(Count(values, Beyond(m, denominator, t)), t + 1, denominator, TotalDeviation(values, m), |values|);
  }

  /** Markov's bound on the values that a threshold flags, as long as the sum of the deviations does not wrap. */
  lemma MarkovBound(values: seq<uint64>, t: nat)
    requires |values| >= 3 && TotalDeviation(values, Middle(values)) < TWO64
    ensures Count(values, Beyond(Middle(values), MeanDeviation(values) + 1, t)) * (t + 1) < 6745 * |values|
  {
    WrapIsSmall(TotalDeviation(values, Middle(values)));
    OneMore(MeanDeviation(values), |values|);
    FewAreBeyond(values, Middle(values), MeanDeviation(values) + 1, t);
  }

  lemma QuotientLosesMore(x: nat, y: nat, n: nat)
    requires 0 < n <= x - y
    ensures Quotient(y, n) < Quotient(x, n)
  {
    QuotientAtLeast(x, n, Quotient(y, n) + 1);
  }

  /** The mean the source works with is the true mean exactly when the sum of the deviations fits in a word. */
  lemma MeanIsExactExactlyWhenTheSumFits(values: seq<uint64>)
    requires 0 < |values| < TWO64
    ensures MeanDeviation(values) == Quotient(TotalDeviation(values, Middle(values)), |values|) <==>
            TotalDeviation(values, Middle(values)) < TWO64
  {
    var total := TotalDeviation(values, Middle(values));
    WrapIsSmall(total);
    if total >= TWO64 {
      WrapDropsAWord(total);
      QuotientLosesMore(total, Wrap(total), |values|);
    }
  }

  lemma WrapDropsAWord(x: nat)
    requires x >= TWO64
    ensures Wrap(x) <= x - TWO64
  {}

  lemma {:induction false} TotalIsBounded(values: seq<nat>, m: nat, bound: nat)
    requires m <= bound && forall i | 0 <= i < |values| :: values[i] <= bound
    ensures TotalDeviation(values, m) <= |values| * bound
  {
    if values != [] {
      TotalIsBounded(values[1..], m, bound);
      OneMore(|values| - 1, bound);
    }
  }

  /** The peers, by position, whose last values have a property. */
  function Having(samples: seq<Option<uint64>>, p: nat -> bool): set<nat> {
    set i: nat | i < |samples| && samples[i].Some? && p(samples[i].value)
  }

  lemma {:induction false} HavingIsCounted(samples: seq<Option<uint64>>, p: nat -> bool)
    ensures |Having(samples, p)| == Count(Present(samples), p)
  {
    if samples != [] {
      var n := |samples| - 1;
      var before := samples[..n];
      HavingIsCounted(before, p);
      if samples[n].Some? {
        CountSplits(Present(before), [samples[n].value], p);
        assert [samples[n].value][1..] == [];
      }
      assert Having(samples, p) ==
             if samples[n].Some? && p(samples[n].value) then Having(before, p) + {n} else Having(before, p);
    }
  }

  /** The peers that the detector flags when each is tested against the whole list. */
  function FlaggedPeers(peers: seq<Option<uint64>>, t: uint64): set<nat> {
    set i: nat | i < |peers| && MeanVerdict(peers[i], peers, t)
  }

  lemma FewPeersAreFlagged(peers: seq<Option<uint64>>, t: uint64)
    requires var values := Present(peers); |values| >= 3 && TotalDeviation(values, Middle(values)) < TWO64
    ensures |FlaggedPeers(peers, t)| * (t + 1) < 6745 * |Present(peers)|
  {
    var values := Present(peers);
    var p := Beyond(Middle(values), MeanDeviation(values) + 1, t);
    assert FlaggedPeers(peers, t) == Having(peers, p);
    HavingIsCounted(peers, p);
    MarkovBound(values, t);
  }

  /** Whether the sum wraps or not, the peers that are flagged carry their share of the true total deviation. */
  lemma FlaggedPeersCarryTheirShare(peers: seq<Option<uint64>>, t: uint64)
    requires |Present(peers)| >= 3
    ensures var values := Present(peers);
            |FlaggedPeers(peers, t)| * ((t + 1) * (MeanDeviation(values) + 1)) <=
            6745 * TotalDeviation(values, Middle(values))
  {
    var values := Present(peers);
    var p := Beyond(Middle(values), MeanDeviation(values) + 1, t);
    assert FlaggedPeers(peers, t) == Having(peers, p);
    HavingIsCounted(peers, p);
    FlaggedWeigh(values, Middle(values), MeanDeviation(values) + 1, t);
  }

  /** A condition on the values alone that is enough for the bound. */
  lemma FewPeersAreFlaggedWhenValuesAreSmall(peers: seq<Option<uint64>>, bound: nat, t: uint64)
    requires |Present(peers)| >= 3 && |Present(peers)| * bound < TWO64
    requires forall i | 0 <= i < |Present(peers)| :: Present(peers)[i] <= bound
    ensures |FlaggedPeers(peers, t)| * (t + 1) < 6745 * |Present(peers)|
  {
    MiddleIsAMember(Present(peers));
    TotalIsBounded(Present(peers), Middle(Present(peers)), bound);
    FewPeersAreFlagged(peers, t);
  }

  const HALF_WORD: nat := 0x8000_0000_0000_0000
  const HALVES: seq<uint64> := [0, 0, HALF_WORD, HALF_WORD]

  lemma HalvesAreSorted()
    ensures Sort(HALVES) == HALVES && Middle(HALVES) == HALF_WORD
  {
    SortedStays(HALVES);
  }

  lemma HalvesByParts()
    ensures HALVES[1..] == [0, HALF_WORD, HALF_WORD]
    ensures HALVES[1..][1..] == [HALF_WORD, HALF_WORD]
    ensures HALVES[1..][1..][1..] == [HALF_WORD]
  {}

  lemma HalvesAreFar()
    ensures TotalDeviation(HALVES, HALF_WORD) == TWO64
  {
    var m, tail := HALF_WORD, HALVES[1..];
    HalvesByParts();
    assert tail[1..][1..][1..] == [];
    assert TotalDeviation(tail[1..][1..], m) == 0;
    assert TotalDeviation(tail[1..], m) == 0;
    assert TotalDeviation(tail, m) == HALF_WORD;
  }

  /** When the sum wraps the bound can fail: two of four nodes are flagged at the default threshold. */
  lemma MarkovBoundFailsWhenTheSumWraps()
    ensures TotalDeviation(HALVES, Middle(HALVES)) == TWO64
    ensures MeanDeviation(HALVES) == 0
    ensures Count(HALVES, Beyond(Middle(HALVES), MeanDeviation(HALVES) + 1, 30000)) * 30001 >= 6745 * |HALVES|
  {
    HalvesAreSorted();
    HalvesByParts();
    HalvesAreFar();
    assert Wrap(6745 * HALF_WORD) == HALF_WORD;
    assert ModifiedZ(HALF_WORD, 1) == HALF_WORD;
  }
}
