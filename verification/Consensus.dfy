/**
 Median consensus over signed telemetry: a minority of liars cannot move a consensus metric
 outside the honest range, as long as the average of the two middle values does not wrap.
 */
module Consensus {
  import opened Words
  import opened Counting

  /** Of the sorted values, the one in the middle, or the lower of the two there; and the upper. */
  function LowerMiddle(values: seq<uint64>): nat
    requires values != []
  {
    Sort(values)[(|values| - 1) / 2]
  }

  function UpperMiddle(values: seq<uint64>): nat
    requires values != []
  {
    Sort(values)[|values| / 2]
  }

  function Average(a: nat, b: nat): nat {
    Wrap(a + b) / 2
  }

  lemma AverageIsBetween(a: nat, b: nat)
    requires a <= b && a + b < TWO64
    ensures a <= Average(a, b) <= b
  {
    WrapIsSmall(a + b);
  }

  lemma WrappedAverageIsBelow(a: uint64, b: uint64)
    requires a + b >= TWO64
    ensures Average(a, b) < a
  {
    assert Wrap(a + b) == a + b - TWO64;
  }

  /** `calculateMedianFp`. */
  function Median(values: seq<uint64>): nat {
    if values == [] then 0
    else if |values| % 2 == 0 then Average(LowerMiddle(values), UpperMiddle(values))
    else UpperMiddle(values)
  }

  method CalculateMedianFp(values: seq<uint64>) returns (m: nat)
    ensures m == Median(values)
    ensures values == [] ==> m == 0
  {
    if values == [] {
      return 0;
    }
    var sorted := Sort(values);
    var mid := |sorted| / 2;
    if |sorted| % 2 == 0 {
      return Average(sorted[mid - 1], sorted[mid]);
    }
    return sorted[mid];
  }

  /** The two middle values of an even number of them add up without wrapping. */
  predicate MiddleFits(values: seq<uint64>) {
    values != [] && |values| % 2 == 0 ==> LowerMiddle(values) + UpperMiddle(values) < TWO64
  }

  function Within(lo: nat, hi: nat): nat -> bool {
    x => lo <= x <= hi
  }

  lemma NoneUpTo(s: seq<nat>, k: nat, lo: nat, hi: nat)
    requires Ascending(s) && k < |s| && s[k] < lo
    ensures Count(s[..k + 1], Within(lo, hi)) == 0
  {
    var below := s[..k + 1];
    forall i | 0 <= i < |below|
      ensures below[i] < lo
    {
      if i < k {
        assert s[i] <= s[k];
      }
    }
    CountNone(below, Within(lo, hi));
  }

  lemma NoneFrom(s: seq<nat>, k: nat, lo: nat, hi: nat)
    requires Ascending(s) && k < |s| && s[k] > hi
    ensures Count(s[k..], Within(lo, hi)) == 0
  {
    var above := s[k..];
    forall i | 0 <= i < |above|
      ensures above[i] > hi
    {
      if 0 < i {
        assert s[k] <= s[k + i];
      }
    }
    CountNone(above, Within(lo, hi));
  }

  lemma CountInParts(s: seq<nat>, k: nat, p: nat -> bool)
    requires k <= |s|
    ensures Count(s, p) == Count(s[..k], p) + Count(s[k..], p)
  {
    CountSplits(s[..k], s[k..], p);
    assert s[..k] + s[k..] == s;
  }

  lemma FewAreWithinAbove(s: seq<nat>, k: nat, lo: nat, hi: nat)
    requires Ascending(s) && k < |s| && s[k] < lo
    ensures Count(s, Within(lo, hi)) <= |s| - k - 1
  {
    NoneUpTo(s, k, lo, hi);
    CountInParts(s, k + 1, Within(lo, hi));
  }

  lemma FewAreWithinBelow(s: seq<nat>, k: nat, lo: nat, hi: nat)
    requires Ascending(s) && k < |s| && s[k] > hi
    ensures Count(s, Within(lo, hi)) <= k
  {
    NoneFrom(s, k, lo, hi);
    CountInParts(s, k, Within(lo, hi));
  }

  /** With more than half of a sorted list within bounds, so are its lower and its upper middle. */
  lemma MiddlesAreWithin(s: seq<nat>, k: nat, j: nat, lo: nat, hi: nat)
    requires Ascending(s) && s != [] && k == (|s| - 1) / 2 && j == |s| / 2
    requires 2 * Count(s, Within(lo, hi)) > |s|
    ensures lo <= s[k] <= s[j] <= hi
  {
    if s[k] < lo {
      FewAreWithinAbove(s, k, lo, hi);
    }
    if s[j] > hi {
      FewAreWithinBelow(s, j, lo, hi);
    }
  }

  lemma MedianIsBetweenMiddles(values: seq<uint64>)
    requires values != [] && MiddleFits(values) && LowerMiddle(values) <= UpperMiddle(values)
    ensures LowerMiddle(values) <= Median(values) <= UpperMiddle(values)
  {
    if |values| % 2 == 0 {
      AverageIsBetween(LowerMiddle(values), UpperMiddle(values));
    }
  }

  lemma MiddlesOfValuesAreWithin(values: seq<uint64>, lo: nat, hi: nat)
    requires 2 * Count(values, Within(lo, hi)) > |values|
    ensures values != [] && lo <= LowerMiddle(values) <= UpperMiddle(values) <= hi
  {
    CountAfterSort(values, Within(lo, hi));
    MiddlesAreWithin(Sort(values), (|values| - 1) / 2, |values| / 2, lo, hi);
  }

  lemma MedianIsWithin(values: seq<uint64>, lo: nat, hi: nat)
    requires MiddleFits(values) && 2 * Count(values, Within(lo, hi)) > |values|
    ensures lo <= Median(values) <= hi
  {
    MiddlesOfValuesAreWithin(values, lo, hi);
    MedianIsBetweenMiddles(values);
  }

  /** More than half of a sorted list with an even number of elements lie from its lower middle up. */
  lemma UpperHalfIsAMajority(s: seq<nat>, k: nat)
    requires Ascending(s) && s != [] && |s| % 2 == 0 && k == (|s| - 1) / 2
    ensures 2 * Count(s, Within(s[k], s[|s| - 1])) > |s|
  {
    var below, upper := s[..k], s[k..];
    assert s == below + upper;
    CountAll(upper, Within(s[k], s[|s| - 1]));
    CountSplits(below, upper, Within(s[k], s[|s| - 1]));
  }

  /** When the sum of the middle pair wraps, the median falls below that whole upper half. */
  lemma WrappedMedianIsTooLow(values: seq<uint64>) returns (lo: nat, hi: nat)
    requires !MiddleFits(values)
    ensures 2 * Count(values, Within(lo, hi)) > |values| && Median(values) < lo
  {
    var s := Sort(values);
    lo, hi := LowerMiddle(values), s[|s| - 1];
    UpperHalfIsAMajority(s, (|s| - 1) / 2);
    CountAfterSort(values, Within(lo, hi));
    SortKeepsMembers(values);
    assert lo in s && UpperMiddle(values) in s;
    WrappedAverageIsBelow(lo, UpperMiddle(values));
  }

  /** The median is within the bounds of every majority exactly when the middle pair does not wrap. */
  lemma MedianIsRobustExactlyWhenMiddleFits(values: seq<uint64>)
    ensures MiddleFits(values) <==>
            forall lo: nat, hi: nat :: 2 * Count(values, Within(lo, hi)) > |values| ==> lo <= Median(values) <= hi
  {
    if MiddleFits(values) {
      forall lo: nat, hi: nat | 2 * Count(values, Within(lo, hi)) > |values|
        ensures lo <= Median(values) <= hi
      {
        MedianIsWithin(values, lo, hi);
      }
    } else {
      var lo, hi := WrappedMedianIsTooLow(values);
    }
  }

  /** `x` is a value that has at least `below` values no larger, itself included, and at least `above` no smaller. */
  ghost predicate Splits(values: seq<nat>, x: nat, below: nat, above: nat) {
    x in values && Count(values, AtMost(x)) >= below && Count(values, AtLeast(x)) >= above
  }

  lemma SortedSplits(values: seq<nat>, k: nat)
    requires k < |values|
    ensures Splits(values, Sort(values)[k], k + 1, |values| - k)
  {
    var s := Sort(values);
    SortKeepsMembers(values);
    assert s[k] in s;
    PrefixIsAtMost(s, k);
    SuffixIsAtLeast(s, k);
    CountAfterSort(values, AtMost(s[k]));
    CountAfterSort(values, AtLeast(s[k]));
  }

  lemma MedianOfMiddles(values: seq<uint64>)
    requires values != []
    ensures var n, lower, upper, m := |values|, LowerMiddle(values), UpperMiddle(values), Median(values);
            && lower <= upper < TWO64
            && (n % 2 == 1 ==> m == lower == upper)
            && (n % 2 == 0 ==>
                  2 * m <= (if lower + upper < TWO64 then lower + upper else lower + upper - TWO64) <= 2 * m + 1)
  {
    var s := Sort(values);
    SortKeepsMembers(values);
    assert UpperMiddle(values) in s;
  }

  /**
   The median is the value in the middle, with as many values on one side as on the other, or the average, rounded
   down, of the two that share the middle, if their sum fits.
   */
  lemma MedianIsInTheMiddle(values: seq<uint64>) returns (lower: nat, upper: nat)
    requires values != []
    ensures var n := |values|;
            && Splits(values, lower, (n + 1) / 2, n / 2 + 1) && Splits(values, upper, n / 2 + 1, (n + 1) / 2)
            && lower <= upper
            && var m := Median(values);
            && (n % 2 == 1 ==> m == lower == upper)
            && (n % 2 == 0 ==>
                  2 * m <= (if lower + upper < TWO64 then lower + upper else lower + upper - TWO64) <= 2 * m + 1)
  {
    lower, upper := LowerMiddle(values), UpperMiddle(values);
    SortedSplits(values, (|values| - 1) / 2);
    SortedSplits(values, |values| / 2);
    MedianOfMiddles(values);
  }

  /** In terms of nodes: if more than half of them are honest, the median lies between honest values. */
  lemma HonestMajorityHoldsTheMedian(values: seq<uint64>, honest: set<nat>, lo: nat, hi: nat)
    requires MiddleFits(values)
    requires 2 * |honest| > |values| && forall i | i in honest :: i < |values| && lo <= values[i] <= hi
    ensures lo <= Median(values) <= hi
  {
    PlacesAreCounted(values, honest, Within(lo, hi));
    MedianIsWithin(values, lo, hi);
  }

  // ---------- aggregation ----------

  datatype Sample = Sample(latency: uint64, cpu: uint64, power: uint64)

  /** `genuine` is the outcome of the signature check. */
  datatype SignedTelemetry = SignedTelemetry(sample: Sample, publicKey: string, genuine: bool)

  datatype Consensus = Consensus(latency: nat, cpu: nat, power: nat)

  datatype ConsensusResult = ConsensusResult(
    consensus: Consensus, agreementCount: nat, totalNodes: nat, confidence: nat, byzantineNodes: seq<string>)

  function Genuine(samples: seq<SignedTelemetry>): (valid: seq<Sample>)
    ensures |valid| <= |samples|
  {
    if samples == [] then []
    else
      var before := Genuine(samples[..|samples| - 1]);
      var last := samples[|samples| - 1];
      if last.genuine then before + [last.sample] else before
  }

  /** The positions of the samples whose signatures verify. */
  function GenuineAt(samples: seq<SignedTelemetry>): set<nat> {
    set i: nat | i < |samples| && samples[i].genuine
  }

  lemma GenuineGrows(samples: seq<SignedTelemetry>)
    requires samples != []
    ensures var n := |samples| - 1;
            GenuineAt(samples) == GenuineAt(samples[..n]) + (if samples[n].genuine then {n} else {})
  {}

  /** `kept` are the samples at those positions. */
  predicate AreAt(kept: seq<Sample>, samples: seq<SignedTelemetry>, at: seq<nat>) {
    |at| == |kept| && forall k | 0 <= k < |at| :: at[k] < |samples| && kept[k] == samples[at[k]].sample
  }

  lemma AreAtGrows(kept: seq<Sample>, samples: seq<SignedTelemetry>, at: seq<nat>)
    requires samples != [] && AreAt(kept, samples[..|samples| - 1], at)
    ensures var n := |samples| - 1;
            AreAt(kept, samples, at) && AreAt(kept + [samples[n].sample], samples, at + [n])
  {}

  /** What is kept are the samples with good signatures, all of them and no others, in their order. */
  lemma {:induction false} GenuineInOrder(samples: seq<SignedTelemetry>) returns (at: seq<nat>)
    ensures InOrder(at, GenuineAt(samples)) && AreAt(Genuine(samples), samples, at)
  {
    if samples == [] {
      at := [];
    } else {
      var n := |samples| - 1;
      var before := GenuineInOrder(samples[..n]);
      GenuineGrows(samples);
      AreAtGrows(Genuine(samples[..n]), samples, before);
      if samples[n].genuine {
        InOrderGrows(before, GenuineAt(samples[..n]), n);
        at := before + [n];
      } else {
        at := before;
      }
    }
  }

  lemma AsManyAsGenuine(samples: seq<SignedTelemetry>)
    ensures |Genuine(samples)| == |set i: nat | i < |samples| && samples[i].genuine|
  {
    var at := GenuineInOrder(samples);
    InOrderCounts(at, GenuineAt(samples));
  }

  function Latencies(valid: seq<Sample>): (r: seq<uint64>)
    ensures |r| == |valid| && forall i | 0 <= i < |r| :: r[i] == valid[i].latency
  {
    seq(|valid|, i requires 0 <= i < |valid| => valid[i].latency)
  }

  function CpuUtilizations(valid: seq<Sample>): (r: seq<uint64>)
    ensures |r| == |valid| && forall i | 0 <= i < |r| :: r[i] == valid[i].cpu
  {
    seq(|valid|, i requires 0 <= i < |valid| => valid[i].cpu)
  }

  function Energies(valid: seq<Sample>): (r: seq<uint64>)
    ensures |r| == |valid| && forall i | 0 <= i < |r| :: r[i] == valid[i].power
  {
    seq(|valid|, i requires 0 <= i < |valid| => valid[i].power)
  }

  function Medians(valid: seq<Sample>): Consensus {
    Consensus(Median(Latencies(valid)), Median(CpuUtilizations(valid)), Median(Energies(valid)))
  }

  /** Three tenths of the consensus latency, in the source's wrapping arithmetic. */
  function LatencyThreshold(c: Consensus): nat {
    Wrap(3000 * c.latency) / FIXED_POINT_SCALE
  }

  predicate IsByzantine(s: Sample, c: Consensus) {
    Distance(s.latency, c.latency) > LatencyThreshold(c) || Distance(s.cpu, c.cpu) > 3000
  }

  /** The nodes, by position, that agree with a consensus. */
  function Agreeing(samples: seq<SignedTelemetry>, c: Consensus): set<nat> {
    set i: nat | i < |samples| && !IsByzantine(samples[i].sample, c)
  }

  function Disagreeing(samples: seq<SignedTelemetry>, c: Consensus): seq<string> {
    if samples == [] then []
    else
      var before := Disagreeing(samples[..|samples| - 1], c);
      var last := samples[|samples| - 1];
      if IsByzantine(last.sample, c) then before + [last.publicKey] else before
  }

  lemma AgreeingGrows(samples: seq<SignedTelemetry>, i: nat, c: Consensus)
    requires i < |samples|
    ensures |Agreeing(samples[..i + 1], c)| ==
            |Agreeing(samples[..i], c)| + (if IsByzantine(samples[i].sample, c) then 0 else 1)
  {
    var before := Agreeing(samples[..i], c);
    assert Agreeing(samples[..i + 1], c) == if IsByzantine(samples[i].sample, c) then before else before + {i};
  }

  /** The share of the nodes that agree, in ten thousandths. */
  function Confidence(agreement: nat, total: nat): nat
    requires total > 0
  {
    Quotient(Wrap(agreement * FIXED_POINT_SCALE), total)
  }

  method AggregateWithConsensus(samples: seq<SignedTelemetry>) returns (r: ConsensusResult)
    ensures r.totalNodes == |samples|
    ensures |samples| < 3 || Genuine(samples) == [] ==>
              r == ConsensusResult(Consensus(0, 0, 0), 0, |samples|, 0, [])
    ensures |samples| >= 3 && Genuine(samples) != [] ==>
              && r.consensus == Medians(Genuine(samples))
              && r.agreementCount == |Agreeing(samples, r.consensus)|
              && r.byzantineNodes == Disagreeing(samples, r.consensus)
              && r.agreementCount + |r.byzantineNodes| == |samples|
              && r.confidence == Confidence(r.agreementCount, |samples|)
  {
    r := ConsensusResult(Consensus(0, 0, 0), 0, |samples|, 0, []);
    if |samples| < 3 {
      return;
    }
    var validSamples := Verified(samples);
    if validSamples == [] {
      return;
    }
    var c := MedianMetrics(validSamples);
    var agreement, byzantine := Classify(samples, c);
    r := ConsensusResult(c, agreement, |samples|, Confidence(agreement, |samples|), byzantine);
  }

  /** The first loop of the source: samples whose signatures do not verify are dropped. */
  method Verified(samples: seq<SignedTelemetry>) returns (validSamples: seq<Sample>)
    ensures validSamples == Genuine(samples)
  {
    validSamples := [];
    for i := 0 to |samples|
      invariant validSamples == Genuine(samples[..i])
    {
      assert samples[..i + 1][..i] == samples[..i];
      if samples[i].genuine {
        validSamples := validSamples + [samples[i].sample];
      }
    }
    assert samples[..|samples|] == samples;
  }

  /** The second: the median of each metric. */
  method MedianMetrics(validSamples: seq<Sample>) returns (c: Consensus)
    ensures c == Medians(validSamples)
  {
    var latencies: seq<uint64>, cpuUtils: seq<uint64>, energies: seq<uint64> := [], [], [];
    for i := 0 to |validSamples|
      invariant latencies == Latencies(validSamples[..i])
      invariant cpuUtils == CpuUtilizations(validSamples[..i])
      invariant energies == Energies(validSamples[..i])
    {
      latencies := latencies + [validSamples[i].latency];
      cpuUtils := cpuUtils + [validSamples[i].cpu];
      energies := energies + [validSamples[i].power];
    }
    assert validSamples[..|validSamples|] == validSamples;
    var latency := CalculateMedianFp(latencies);
    var cpu := CalculateMedianFp(cpuUtils);
    var power := CalculateMedianFp(energies);
    c := Consensus(latency, cpu, power);
  }

  /** The last loop: every sample, genuine or not, is held against the consensus. */
  method Classify(samples: seq<SignedTelemetry>, c: Consensus) returns (agreement: nat, byzantine: seq<string>)
    ensures agreement == |Agreeing(samples, c)| && byzantine == Disagreeing(samples, c)
    ensures agreement + |byzantine| == |samples|
  {
    agreement, byzantine := 0, [];
    assert Agreeing(samples[..0], c) == {};
    for i := 0 to |samples|
      invariant agreement == |Agreeing(samples[..i], c)| && byzantine == Disagreeing(samples[..i], c)
      invariant agreement + |byzantine| == i
    {
      assert samples[..i + 1][..i] == samples[..i];
      AgreeingGrows(samples, i, c);
      if IsByzantine(samples[i].sample, c) {
        byzantine := byzantine + [samples[i].publicKey];
      } else {
        agreement := agreement + 1;
      }
    }
    assert samples[..|samples|] == samples;
  }

  /**
   A node agrees with a consensus whose latency is not absurd exactly when it is within three tenths of that latency
   and within 3000 of the processor load.
   */
  lemma AgreesExactlyWhenClose(samples: seq<SignedTelemetry>, i: nat, c: Consensus)
    requires i < |samples| && 3000 * c.latency < TWO64
    ensures i in Agreeing(samples, c) <==>
            && 7 * c.latency <= 10 * samples[i].sample.latency <= 13 * c.latency
            && c.cpu - 3000 <= samples[i].sample.cpu <= c.cpu + 3000
  {}

  /** The positions of the nodes that do not agree. */
  function Others(samples: seq<SignedTelemetry>, c: Consensus): set<nat> {
    set i: nat | i < |samples| && i !in Agreeing(samples, c)
  }

  lemma OthersGrow(samples: seq<SignedTelemetry>, c: Consensus)
    requires samples != []
    ensures var n := |samples| - 1;
            Others(samples, c) == Others(samples[..n], c) + (if IsByzantine(samples[n].sample, c) then {n} else {})
  {
    var n := |samples| - 1;
    forall i: nat | i < n
      ensures i in Others(samples, c) <==> i in Others(samples[..n], c)
    {
      assert samples[..n][i] == samples[i];
    }
  }

  /** The nodes named as faulty are those that do not agree, each once, in the order of the samples. */
  lemma {:induction false} FaultyAreTheOthers(samples: seq<SignedTelemetry>, c: Consensus) returns (at: seq<nat>)
    ensures |at| == |Disagreeing(samples, c)| && InOrder(at, Others(samples, c))
    ensures forall k | 0 <= k < |at| :: at[k] < |samples| && Disagreeing(samples, c)[k] == samples[at[k]].publicKey
  {
    if samples == [] {
      at := [];
    } else {
      var n := |samples| - 1;
      at := FaultyAreTheOthers(samples[..n], c);
      OthersGrow(samples, c);
      if IsByzantine(samples[n].sample, c) {
        InOrderGrows(at, Others(samples[..n], c), n);
        at := at + [n];
      }
    }
  }

  /** A confidence of 67 percent is two thirds of the nodes and more. */
  lemma ConfidenceIsASupermajority(agreement: nat, total: nat)
    requires 0 < total && agreement <= total
    ensures Confidence(agreement, total) >= 6700 ==> 3 * agreement > 2 * total
    ensures agreement * FIXED_POINT_SCALE < TWO64 ==>
              && (Confidence(agreement, total) >= 6700 <==> 100 * agreement >= 67 * total)
              && Confidence(agreement, total) * total <= 10000 * agreement < (Confidence(agreement, total) + 1) * total
  {
    var w := Wrap(agreement * FIXED_POINT_SCALE);
    WrapIsSmall(agreement * FIXED_POINT_SCALE);
    QuotientAtLeast(w, total, 6700);
  }

  /** Two consensus rounds of the same nodes that both reach the threshold share more than a third of the nodes. */
  lemma ConfidentRoundsOverlap(first: seq<SignedTelemetry>, second: seq<SignedTelemetry>, c: Consensus, d: Consensus)
    requires |first| == |second| > 0
    requires Confidence(|Agreeing(first, c)|, |first|) >= 6700
    requires Confidence(|Agreeing(second, d)|, |second|) >= 6700
    ensures 3 * |Agreeing(first, c) * Agreeing(second, d)| > |first|
  {
    var n := |first|;
    var a, b := Agreeing(first, c), Agreeing(second, d);
    var all := Upto(n);
    Subsets(a, all);
    Subsets(b, all);
    Subsets(a + b, all);
    ConfidenceIsASupermajority(|a|, n);
    ConfidenceIsASupermajority(|b|, n);
    assert |a + b| + |a * b| == |a| + |b|;
  }

  function Upto(n: nat): (s: set<nat>)
    ensures forall i: nat :: i in s <==> i < n
    ensures |s| == n
  {
    if n == 0 then {} else Upto(n - 1) + {n - 1}
  }

  lemma {:induction false} Subsets(a: set<nat>, b: set<nat>)
    requires a <= b
    ensures |a| <= |b|
  {
    assert b == a + (b - a);
  }

  /** Two nodes that agree with the same consensus are close to each other. */
  lemma AgreeingNodesAreClose(samples: seq<SignedTelemetry>, c: Consensus, i: nat, j: nat)
    requires i in Agreeing(samples, c) && j in Agreeing(samples, c)
    ensures Distance(samples[i].sample.latency, samples[j].sample.latency) <= 2 * LatencyThreshold(c)
    ensures Distance(samples[i].sample.cpu, samples[j].sample.cpu) <= 6000
  {}

  /** `honest` are positions of samples with good signatures, more than half of all of those. */
  ghost predicate HonestMajority(samples: seq<SignedTelemetry>, honest: set<nat>) {
    && (forall i | i in honest :: i < |samples| && samples[i].genuine)
    && 2 * |honest| > |set i: nat | i < |samples| && samples[i].genuine|
  }

  /** Where the honest samples are among those that are kept. */
  lemma {:induction false} HonestAmongKept(at: seq<nat>, honest: set<nat>) returns (kept: set<nat>)
    requires forall j, k | 0 <= j < k < |at| :: at[j] < at[k]
    requires forall i | i in honest :: i in at
    ensures |kept| == |honest| && forall k | k in kept :: k < |at| && at[k] in honest
    decreases |honest|
  {
    if honest == {} {
      kept := {};
    } else {
      var i :| i in honest;
      var k: nat :| k < |at| && at[k] == i;
      kept := HonestAmongKept(at, honest - {i});
      assert k !in kept;
      kept := kept + {k};
    }
  }

  /** Every consensus metric lies within any bounds that hold for that metric of all honest nodes. */
  lemma ConsensusIsByzantineRobust(samples: seq<SignedTelemetry>, honest: set<nat>, lo: Consensus, hi: Consensus)
    requires HonestMajority(samples, honest)
    requires var valid := Genuine(samples);
             MiddleFits(Latencies(valid)) && MiddleFits(CpuUtilizations(valid)) && MiddleFits(Energies(valid))
    requires forall i | i in honest :: lo.latency <= samples[i].sample.latency <= hi.latency
    requires forall i | i in honest :: lo.cpu <= samples[i].sample.cpu <= hi.cpu
    requires forall i | i in honest :: lo.power <= samples[i].sample.power <= hi.power
    ensures var c := Medians(Genuine(samples));
            && lo.latency <= c.latency <= hi.latency
            && lo.cpu <= c.cpu <= hi.cpu
            && lo.power <= c.power <= hi.power
  {
    var valid := Genuine(samples);
    var at := GenuineInOrder(samples);
    AsManyAsGenuine(samples);
    var kept := HonestAmongKept(at, honest);
    HonestMajorityHoldsTheMedian(Latencies(valid), kept, lo.latency, hi.latency);
    HonestMajorityHoldsTheMedian(CpuUtilizations(valid), kept, lo.cpu, hi.cpu);
    HonestMajorityHoldsTheMedian(Energies(valid), kept, lo.power, hi.power);
  }
}
