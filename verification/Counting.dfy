/** Sorting as `std::sort` leaves its input, and counting the elements with a property. */
module Counting {
  predicate Ascending(s: seq<nat>) {
    forall i, j | 0 <= i < j < |s| :: s[i] <= s[j]
  }

  function Insert(x: nat, s: seq<nat>): (r: seq<nat>)
    ensures |r| == |s| + 1
  {
    if s == [] || x <= s[0] then [x] + s else [s[0]] + Insert(x, s[1..])
  }

  lemma {:induction false} InsertKeepsOrder(x: nat, s: seq<nat>)
    requires Ascending(s)
    ensures var r := Insert(x, s);
            Ascending(r) && r[0] == if s == [] || x <= s[0] then x else s[0]
  {
    if s != [] && x > s[0] {
      InsertKeepsOrder(x, s[1..]);
    }
  }

  /** The sorted arrangement of `s`. */
  function Sort(s: seq<nat>): (r: seq<nat>)
    ensures Ascending(r) && |r| == |s|
  {
    if s == [] then []
    else
      var rest := Sort(s[1..]);
      InsertKeepsOrder(s[0], rest);
      Insert(s[0], rest)
  }

  lemma {:induction false} InsertAdds(x: nat, s: seq<nat>)
    ensures multiset(Insert(x, s)) == multiset(s) + multiset{x}
  {
    if s != [] && x > s[0] {
      InsertAdds(x, s[1..]);
      assert s == [s[0]] + s[1..];
    }
  }

  lemma FirstAndRest(s: seq<nat>)
    requires s != []
    ensures multiset(s) == multiset(s[1..]) + multiset{s[0]}
    ensures multiset(s[1..]) == multiset(s) - multiset{s[0]}
  {
    assert s == [s[0]] + s[1..];
  }

  /** Sorting rearranges. */
  lemma {:induction false} SortRearranges(s: seq<nat>)
    ensures multiset(Sort(s)) == multiset(s)
  {
    if s != [] {
      SortRearranges(s[1..]);
      InsertAdds(s[0], Sort(s[1..]));
      FirstAndRest(s);
    }
  }

  lemma SortKeepsMembers(s: seq<nat>)
    ensures forall x | x in Sort(s) :: x in s
  {
    SortRearranges(s);
    forall x | x in Sort(s)
      ensures x in s
    {
      assert x in multiset(Sort(s));
    }
  }

  /** The first element of a sorted list is no larger than any element of a rearrangement. */
  lemma FirstIsLeast(a: seq<nat>, b: seq<nat>)
    requires Ascending(a) && multiset(a) == multiset(b) && b != []
    ensures a != [] && a[0] <= b[0]
  {
    assert b[0] in multiset(a);
  }

  lemma SameFirst(a: seq<nat>, b: seq<nat>)
    requires Ascending(a) && Ascending(b) && multiset(a) == multiset(b) && a != [] && b != []
    ensures a[0] == b[0] && multiset(a[1..]) == multiset(b[1..])
  {
    FirstIsLeast(b, a);
    FirstIsLeast(a, b);
    FirstAndRest(a);
    FirstAndRest(b);
  }

  /** There is only one sorted arrangement. */
  lemma {:induction false} SortedIsUnique(a: seq<nat>, b: seq<nat>)
    requires Ascending(a) && Ascending(b) && multiset(a) == multiset(b)
    ensures a == b
  {
    assert |a| == |multiset(a)| == |b|;
    if a != [] {
      SameFirst(a, b);
      SortedIsUnique(a[1..], b[1..]);
      assert a == [a[0]] + a[1..] && b == [b[0]] + b[1..];
    }
  }

  lemma SortedStays(s: seq<nat>)
    requires Ascending(s)
    ensures Sort(s) == s
  {}

  lemma SortOfPermutation(a: seq<nat>, b: seq<nat>)
    requires multiset(a) == multiset(b)
    ensures Sort(a) == Sort(b)
  {
    SortRearranges(a);
    SortRearranges(b);
    SortedIsUnique(Sort(a), Sort(b));
  }

  function Count(s: seq<nat>, p: nat -> bool): (n: nat)
    ensures n <= |s|
  {
    if s == [] then 0 else (if p(s[0]) then 1 else 0) + Count(s[1..], p)
  }

  lemma {:induction false} CountSplits(a: seq<nat>, b: seq<nat>, p: nat -> bool)
    ensures Count(a + b, p) == Count(a, p) + Count(b, p)
  {
    if a == [] {
      assert a + b == b;
    } else {
      assert (a + b)[1..] == a[1..] + b;
      CountSplits(a[1..], b, p);
    }
  }

  lemma {:induction false} CountAfterInsert(x: nat, s: seq<nat>, p: nat -> bool)
    ensures Count(Insert(x, s), p) == Count(s, p) + (if p(x) then 1 else 0)
  {
    if s == [] || x <= s[0] {
      assert ([x] + s)[1..] == s;
    } else {
      CountAfterInsert(x, s[1..], p);
      assert ([s[0]] + Insert(x, s[1..]))[1..] == Insert(x, s[1..]);
    }
  }

  lemma {:induction false} CountAfterSort(s: seq<nat>, p: nat -> bool)
    ensures Count(Sort(s), p) == Count(s, p)
  {
    if s != [] {
      CountAfterSort(s[1..], p);
      CountAfterInsert(s[0], Sort(s[1..]), p);
    }
  }

  /** If a stretch of `n` elements has the property, at least `n` elements have it. */
  lemma {:induction false} CountAll(s: seq<nat>, p: nat -> bool)
    requires forall i | 0 <= i < |s| :: p(s[i])
    ensures Count(s, p) == |s|
  {
    if s != [] {
      CountAll(s[1..], p);
    }
  }

  lemma {:induction false} CountNone(s: seq<nat>, p: nat -> bool)
    requires forall i | 0 <= i < |s| :: !p(s[i])
    ensures Count(s, p) == 0
  {
    if s != [] {
      CountNone(s[1..], p);
    }
  }

  lemma {:induction false} CountWeakens(s: seq<nat>, p: nat -> bool, q: nat -> bool)
    requires forall i | 0 <= i < |s| :: p(s[i]) ==> q(s[i])
    ensures Count(s, p) <= Count(s, q)
  {
    if s != [] {
      CountWeakens(s[1..], p, q);
    }
  }

  /** A set of places whose elements all have the property is no larger than the count. */
  lemma {:induction false} PlacesAreCounted(s: seq<nat>, places: set<nat>, p: nat -> bool)
    requires forall i | i in places :: i < |s| && p(s[i])
    ensures |places| <= Count(s, p)
  {
    if s == [] {
      assert places == {};
    } else {
      var n := |s| - 1;
      var before := s[..n];
      assert s == before + [s[n]];
      PlacesAreCounted(before, places - {n}, p);
      CountSplits(before, [s[n]], p);
      assert [s[n]][1..] == [];
    }
  }

  function AtMost(bound: nat): nat -> bool {
    (x: nat) => x <= bound
  }

  lemma PrefixIsAtMost(s: seq<nat>, k: nat)
    requires Ascending(s) && k < |s|
    ensures Count(s, AtMost(s[k])) >= k + 1
  {
    var low, high := s[..k + 1], s[k + 1..];
    assert s == low + high;
    CountAll(low, AtMost(s[k]));
    CountSplits(low, high, AtMost(s[k]));
  }

  function AtLeast(bound: nat): nat -> bool {
    (x: nat) => x >= bound
  }

  lemma SuffixIsAtLeast(s: seq<nat>, k: nat)
    requires Ascending(s) && k < |s|
    ensures Count(s, AtLeast(s[k])) >= |s| - k
  {
    var low, high := s[..k], s[k..];
    assert s == low + high;
    CountAll(high, AtLeast(s[k]));
    CountSplits(low, high, AtLeast(s[k]));
  }

  /** `at` goes through `places` from left to right, once each. */
  ghost predicate InOrder(at: seq<nat>, places: set<nat>) {
    && (forall j, k | 0 <= j < k < |at| :: at[j] < at[k])
    && (forall i :: i in at <==> i in places)
  }

  lemma InOrderGrows(at: seq<nat>, places: set<nat>, n: nat)
    requires InOrder(at, places) && forall i | i in places :: i < n
    ensures InOrder(at + [n], places + {n})
  {
    forall j, k | 0 <= j < k < |at + [n]|
      ensures (at + [n])[j] < (at + [n])[k]
    {
      assert at[j] in at;
    }
  }

  lemma {:induction false} InOrderCounts(at: seq<nat>, places: set<nat>)
    requires InOrder(at, places)
    ensures |at| == |places|
  {
    if at == [] {
      assert places == {};
    } else {
      var n := |at| - 1;
      forall i
        ensures i in at[..n] <==> i in places - {at[n]}
      {
        assert at == at[..n] + [at[n]];
      }
      InOrderCounts(at[..n], places - {at[n]});
      assert at[n] in places;
    }
  }
}
