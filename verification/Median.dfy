/** The arithmetic of `get_price`: sort, median, tolerance band, second median. */
module Median {
  import opened Prelude

  const BPS: int := 10_000

  predicate Sorted(s: seq<int>) {
    forall i, j :: 0 <= i < j < |s| ==> s[i] <= s[j]
  }

  // ---- sorting --------------------------------------------------------------

  function Insert(x: int, s: seq<int>): (r: seq<int>)
    ensures |r| == |s| + 1
    ensures forall y :: y in r ==> y == x || y in s
  {
    if s == [] then [x] else if x <= s[0] then [x] + s else [s[0]] + Insert(x, s[1..])
  }

  lemma SortedCons(h: int, t: seq<int>)
    requires Sorted(t) && forall y :: y in t ==> h <= y
    ensures Sorted([h] + t)
  {
    forall i, j | 0 <= i < j < |[h] + t| ensures ([h] + t)[i] <= ([h] + t)[j] {
      assert ([h] + t)[j] == t[j - 1] && t[j - 1] in t;
      if i > 0 { assert ([h] + t)[i] == t[i - 1]; }
    }
  }

  lemma {:induction false} InsertSorted(x: int, s: seq<int>)
    requires Sorted(s)
    ensures Sorted(Insert(x, s))
    ensures multiset(Insert(x, s)) == multiset(s) + multiset{x}
  {
    if s == [] {
    } else if x <= s[0] {
      SortedCons(x, s);
    } else {
      InsertSorted(x, s[1..]);
      assert s == [s[0]] + s[1..];
      SortedCons(s[0], Insert(x, s[1..]));
    }
  }

  /** The sorted permutation of `s`, as a reference definition. */
  function SortedCopy(s: seq<int>): (r: seq<int>)
    ensures |r| == |s|
  {
    if s == [] then [] else Insert(s[|s| - 1], SortedCopy(s[..|s| - 1]))
  }

  lemma {:induction false} SortedCopyPermutes(s: seq<int>)
    ensures Sorted(SortedCopy(s))
    ensures multiset(SortedCopy(s)) == multiset(s)
    ensures forall x :: x in SortedCopy(s) <==> x in s
  {
    if s != [] {
      SortedCopyPermutes(s[..|s| - 1]);
      InsertSorted(s[|s| - 1], SortedCopy(s[..|s| - 1]));
      assert s == s[..|s| - 1] + [s[|s| - 1]];
    }
    forall x ensures x in SortedCopy(s) <==> x in s {
      assert x in SortedCopy(s) <==> x in multiset(SortedCopy(s));
      assert x in s <==> x in multiset(s);
    }
  }

  lemma SortedHead(a: seq<int>, x: int)
    requires Sorted(a) && x in multiset(a)
    ensures a[0] <= x
  {
    var k :| 0 <= k < |a| && a[k] == x;
  }

  lemma SortedTail(a: seq<int>)
    requires Sorted(a) && a != []
    ensures Sorted(a[1..])
    ensures multiset(a[1..]) == multiset(a) - multiset{a[0]}
  {
    assert a == [a[0]] + a[1..];
  }

  lemma SameHead(a: seq<int>, b: seq<int>)
    requires Sorted(a) && Sorted(b) && multiset(a) == multiset(b) && a != []
    ensures |a| == |b| && a[0] == b[0]
  {
    SameBagSize(a, b);
    assert a[0] in multiset(a) && b[0] in multiset(b);
    SortedHead(a, b[0]);
    SortedHead(b, a[0]);
  }

  lemma SameTails(a: seq<int>, b: seq<int>)
    requires Sorted(a) && Sorted(b) && multiset(a) == multiset(b) && a != []
    ensures |a| == |b| && a[0] == b[0]
    ensures Sorted(a[1..]) && Sorted(b[1..]) && multiset(a[1..]) == multiset(b[1..])
  {
    SameHead(a, b);
    SortedTail(a);
    SortedTail(b);
  }

  /** A multiset of prices has one sorted order. */
  lemma {:induction false} SortedUnique(a: seq<int>, b: seq<int>)
    requires Sorted(a) && Sorted(b) && multiset(a) == multiset(b)
    ensures a == b
  {
    SameBagSize(a, b);
    if a == [] {
      assert b == [];
    } else {
      SameTails(a, b);
      SortedUnique(a[1..], b[1..]);
      assert a == [a[0]] + a[1..];
      assert b == [b[0]] + b[1..];
    }
  }

  /** The pass `i` of the bubble sort is complete: the last `i` entries are in place. */
  ghost predicate TailPlaced(s: seq<int>, i: nat) {
    forall p, q :: 0 <= p < q < |s| && |s| - i <= q ==> s[p] <= s[q]
  }

  ghost predicate MaxSoFar(s: seq<int>, j: nat)
    requires j < |s|
  {
    forall p :: 0 <= p < j ==> s[p] <= s[j]
  }

  function Swapped(s: seq<int>, j: nat): (r: seq<int>)
    requires j + 1 < |s|
  {
    s[j := s[j + 1]][j + 1 := s[j]]
  }

  lemma SwapStep(s: seq<int>, i: nat, j: nat)
    requires j + 1 < |s| - i && TailPlaced(s, i) && MaxSoFar(s, j) && s[j] > s[j + 1]
    ensures TailPlaced(Swapped(s, j), i) && MaxSoFar(Swapped(s, j), j + 1)
    ensures multiset(Swapped(s, j)) == multiset(s)
  {
    var t := Swapped(s, j);
    forall p, q | 0 <= p < q < |t| && |t| - i <= q ensures t[p] <= t[q] {
      assert t[q] == s[q];
      assert t[p] == if p == j then s[j + 1] else if p == j + 1 then s[j] else s[p];
    }
  }

  /** The in-place bubble sort of the contract leaves the sorted permutation. */
  method BubbleSort(a: array<int>)
    modifies a
    ensures a[..] == SortedCopy(old(a[..]))
  {
    ghost var was := a[..];
    for i := 0 to a.Length
      invariant multiset(a[..]) == multiset(was)
      invariant TailPlaced(a[..], i)
    {
      for j := 0 to a.Length - 1 - i
        invariant multiset(a[..]) == multiset(was)
        invariant TailPlaced(a[..], i) && MaxSoFar(a[..], j)
      {
        if a[j] > a[j + 1] {
          ghost var before := a[..];
          SwapStep(before, i, j);
          a[j], a[j + 1] := a[j + 1], a[j];
          assert a[..] == Swapped(before, j);
        }
      }
    }
    SortedCopyPermutes(was);
    SortedUnique(a[..], SortedCopy(was));
  }

  // ---- counting votes in a range --------------------------------------------

  /** How many entries of `s` lie in [lo, hi]. */
  function CountIn(s: seq<int>, lo: int, hi: int): (n: nat)
    ensures n <= |s|
  {
    if s == [] then 0
    else CountIn(s[..|s| - 1], lo, hi) + if lo <= s[|s| - 1] <= hi then 1 else 0
  }

  lemma {:induction false} CountInConcat(a: seq<int>, b: seq<int>, lo: int, hi: int)
    ensures CountIn(a + b, lo, hi) == CountIn(a, lo, hi) + CountIn(b, lo, hi)
  {
    if b == [] {
      assert a + b == a;
    } else {
      CountInConcat(a, b[..|b| - 1], lo, hi);
      assert (a + b)[..|a + b| - 1] == a + b[..|b| - 1];
    }
  }

  lemma CountInRemove(s: seq<int>, k: nat, lo: int, hi: int)
    requires k < |s|
    ensures CountIn(s, lo, hi)
         == CountIn(s[..k] + s[k + 1..], lo, hi) + if lo <= s[k] <= hi then 1 else 0
  {
    assert s == s[..k] + [s[k]] + s[k + 1..];
    assert CountIn([s[k]], lo, hi) == if lo <= s[k] <= hi then 1 else 0;
    CountInConcat(s[..k] + [s[k]], s[k + 1..], lo, hi);
    CountInConcat(s[..k], [s[k]], lo, hi);
    CountInConcat(s[..k], s[k + 1..], lo, hi);
  }

  lemma {:induction false} SameBagSize(a: seq<int>, b: seq<int>)
    requires multiset(a) == multiset(b)
    ensures |a| == |b|
  {
    assert |multiset(a)| == |multiset(b)|;
  }

  /** Taking one occurrence out of two permutations leaves permutations. */
  lemma RemoveBoth<T>(front: seq<T>, x: T, b: seq<T>) returns (k: nat)
    requires multiset(front + [x]) == multiset(b)
    ensures k < |b| && b[k] == x
    ensures multiset(front) == multiset(b[..k] + b[k + 1..])
  {
    assert x in multiset(front + [x]);
    k :| 0 <= k < |b| && b[k] == x;
    assert b == b[..k] + ([x] + b[k + 1..]);
    assert multiset(b[..k] + b[k + 1..]) == multiset(b) - multiset{x};
  }

  /** Counting does not depend on the order of the list. */
  lemma {:induction false} CountInPermutation(a: seq<int>, b: seq<int>, lo: int, hi: int)
    requires multiset(a) == multiset(b)
    ensures CountIn(a, lo, hi) == CountIn(b, lo, hi)
  {
    SameBagSize(a, b);
    if a != [] {
      var x, front := a[|a| - 1], a[..|a| - 1];
      assert a == front + [x];
      var k := RemoveBoth(front, x, b);
      CountInPermutation(front, b[..k] + b[k + 1..], lo, hi);
      CountInRemove(b, k, lo, hi);
    }
  }

  lemma {:induction false} CountInNone(s: seq<int>, lo: int, hi: int)
    requires forall i :: 0 <= i < |s| ==> !(lo <= s[i] <= hi)
    ensures CountIn(s, lo, hi) == 0
  {
    if s != [] { CountInNone(s[..|s| - 1], lo, hi); }
  }

  /** Votes in a range are bounded by what lies outside a stretch that has none. */
  lemma CountInAvoids(s: seq<int>, from: nat, to: nat, lo: int, hi: int)
    requires from <= to <= |s|
    requires forall i :: from <= i < to ==> !(lo <= s[i] <= hi)
    ensures CountIn(s, lo, hi) <= |s| - (to - from)
  {
    var a, b, c := s[..from], s[from..to], s[to..];
    assert s == (a + b) + c;
    CountInConcat(a + b, c, lo, hi);
    CountInConcat(a, b, lo, hi);
    CountInNone(b, lo, hi);
  }

  /** A range holding more than half of a sorted list holds its median. */
  lemma MajorityHoldsMedian(s: seq<int>, lo: int, hi: int)
    requires Sorted(s) && 2 * CountIn(s, lo, hi) > |s|
    ensures lo <= s[|s| / 2] <= hi
  {
    var k := |s| / 2;
    if s[k] < lo {
      CountInAvoids(s, 0, k + 1, lo, hi);
    } else if s[k] > hi {
      CountInAvoids(s, k, |s|, lo, hi);
    }
  }

  // ---- the band filter -------------------------------------------------------

  /** The entries of `s` inside [lo, hi], in order. */
  function Within(s: seq<int>, lo: int, hi: int): (r: seq<int>)
    ensures |r| == CountIn(s, lo, hi)
    ensures forall x :: x in r <==> x in s && lo <= x <= hi
  {
    if s == [] then []
    else
      assert s == s[..|s| - 1] + [s[|s| - 1]];
      Within(s[..|s| - 1], lo, hi) + if lo <= s[|s| - 1] <= hi then [s[|s| - 1]] else []
  }

  lemma {:induction false} WithinSorted(s: seq<int>, lo: int, hi: int)
    requires Sorted(s)
    ensures Sorted(Within(s, lo, hi))
  {
    if s != [] {
      var front := s[..|s| - 1];
      WithinSorted(front, lo, hi);
      var r := Within(front, lo, hi);
      forall i | 0 <= i < |r| ensures r[i] <= s[|s| - 1] {
        assert r[i] in front;
      }
    }
  }

  /** A band that covers [lo, hi] drops no vote of [lo, hi]. */
  lemma {:induction false} WithinKeeps(s: seq<int>, bandLo: int, bandHi: int, lo: int, hi: int)
    requires bandLo <= lo && hi <= bandHi
    ensures CountIn(Within(s, bandLo, bandHi), lo, hi) == CountIn(s, lo, hi)
  {
    if s != [] {
      var front, last := s[..|s| - 1], s[|s| - 1];
      WithinKeeps(front, bandLo, bandHi, lo, hi);
      CountInConcat(Within(front, bandLo, bandHi), [last], lo, hi);
      assert Within(front, bandLo, bandHi) + [] == Within(front, bandLo, bandHi);
    }
  }

  // ---- the aggregation --------------------------------------------------------

  /** What the two-stage median makes of a list of prices. */
  datatype Aggregated = Overflowed | TooFew | Agreed(price: int)

  function Tolerance(median: int, toleranceBps: nat): int { median * toleranceBps / BPS }

  /** Whether the band around `median` can be computed in i128 arithmetic. */
  predicate BandFits(median: int, toleranceBps: nat) {
    median * toleranceBps <= I128_MAX && median + Tolerance(median, toleranceBps) <= I128_MAX
  }

  /** The two medians and the band between them, on an already sorted list. */
  function Aggregate(sorted: seq<int>, toleranceBps: nat): Aggregated
    requires |sorted| >= 2
  {
    var median := sorted[|sorted| / 2];
    if !BandFits(median, toleranceBps) then Overflowed
    else
      var tolerance := Tolerance(median, toleranceBps);
      SecondMedian(sorted, median - tolerance, median + tolerance)
  }

  function SecondMedian(sorted: seq<int>, bandLo: int, bandHi: int): Aggregated {
    var kept := Within(sorted, bandLo, bandHi);
    if |kept| < 2 then TooFew else Agreed(kept[|kept| / 2])
  }

  lemma ToleranceMonotone(a: int, b: int, toleranceBps: nat)
    requires a <= b
    ensures Tolerance(a, toleranceBps) <= Tolerance(b, toleranceBps)
    ensures BandFits(b, toleranceBps) ==> BandFits(a, toleranceBps)
  {
    assert a * toleranceBps <= b * toleranceBps;
  }

  /** The second stage: the upper median of what the band keeps. */
  lemma SecondMedianRobust(s: seq<int>, bandLo: int, bandHi: int, lo: int, hi: int)
    requires Sorted(s) && 2 * CountIn(s, lo, hi) > |s| >= 2
    requires bandLo <= lo && hi <= bandHi
    ensures SecondMedian(s, bandLo, bandHi).Agreed?
    ensures lo <= SecondMedian(s, bandLo, bandHi).price <= hi
  {
    WithinKeeps(s, bandLo, bandHi, lo, hi);
    WithinSorted(s, bandLo, bandHi);
    MajorityHoldsMedian(Within(s, bandLo, bandHi), lo, hi);
  }

  lemma BandCovers(lo: int, hi: int, median: int, toleranceBps: nat)
    requires lo <= median <= hi
    requires hi - lo <= Tolerance(lo, toleranceBps)
    requires BandFits(hi, toleranceBps)
    ensures BandFits(median, toleranceBps)
    ensures median - Tolerance(median, toleranceBps) <= lo
    ensures hi <= median + Tolerance(median, toleranceBps)
  {
    ToleranceMonotone(lo, median, toleranceBps);
    ToleranceMonotone(median, hi, toleranceBps);
  }

  /** The first stage: an honest median, and a band around it that covers [lo, hi]. */
  lemma FirstMedianRobust(s: seq<int>, toleranceBps: nat, lo: int, hi: int)
    returns (bandLo: int, bandHi: int)
    requires Sorted(s) && 2 * CountIn(s, lo, hi) > |s| >= 2
    requires hi - lo <= Tolerance(lo, toleranceBps) && BandFits(hi, toleranceBps)
    ensures bandLo <= lo && hi <= bandHi
    ensures Aggregate(s, toleranceBps) == SecondMedian(s, bandLo, bandHi)
  {
    MajorityHoldsMedian(s, lo, hi);
    var median := s[|s| / 2];
    BandCovers(lo, hi, median, toleranceBps);
    bandLo, bandHi := median - Tolerance(median, toleranceBps), median + Tolerance(median, toleranceBps);
  }

  /** Robustness: a strict majority inside [lo, hi], a range no wider than the band,
      fixes the result inside [lo, hi] whatever the other entries are. */
  lemma AggregateRobust(s: seq<int>, toleranceBps: nat, lo: int, hi: int)
    requires Sorted(s) && 2 * CountIn(s, lo, hi) > |s| >= 2
    requires hi - lo <= Tolerance(lo, toleranceBps) && BandFits(hi, toleranceBps)
    ensures Aggregate(s, toleranceBps).Agreed?
    ensures lo <= Aggregate(s, toleranceBps).price <= hi
  {
    var bandLo, bandHi := FirstMedianRobust(s, toleranceBps, lo, hi);
    SecondMedianRobust(s, bandLo, bandHi, lo, hi);
  }

  lemma {:induction false} CountInRepeat(n: nat, p: int, lo: int, hi: int)
    ensures CountIn(seq(n, _ => p), lo, hi) == if lo <= p <= hi then n else 0
  {
    if n > 0 {
      assert seq(n, _ => p)[..n - 1] == seq(n - 1, _ => p);
      CountInRepeat(n - 1, p, lo, hi);
    }
  }

  /** If half of a sorted list equals its maximum, so does the upper median. */
  lemma TopHalfHoldsMedian(s: seq<int>, top: int)
    requires Sorted(s) && s != []
    requires forall x :: x in s ==> x <= top
    requires 2 * CountIn(s, top, top) >= |s|
    ensures s[|s| / 2] == top
  {
    var k := |s| / 2;
    assert s[k] in s;
    if s[k] < top {
      CountInAvoids(s, 0, k + 1, top, top);
    }
  }

  /** In a list whose upper half is `top`, whatever band is put around `top` the
      second median is `top` again. */
  lemma TopHalfWins(s: seq<int>, top: int, bandLo: int, bandHi: int)
    requires Sorted(s) && s != [] && 2 * CountIn(s, top, top) >= |s|
    requires forall x :: x in s ==> x <= top
    requires bandLo <= top <= bandHi
    ensures var result := SecondMedian(s, bandLo, bandHi);
            result.Agreed? ==> result.price == top
  {
    WithinKeeps(s, bandLo, bandHi, top, top);
    WithinSorted(s, bandLo, bandHi);
    var kept := Within(s, bandLo, bandHi);
    if |kept| >= 2 { TopHalfHoldsMedian(kept, top); }
  }

  lemma AggregateAtTop(s: seq<int>, top: int, toleranceBps: nat)
    requires |s| >= 2 && 0 < top == s[|s| / 2]
    ensures Aggregate(s, toleranceBps).Overflowed?
         || exists bandLo, bandHi :: bandLo <= top <= bandHi
              && Aggregate(s, toleranceBps) == SecondMedian(s, bandLo, bandHi)
  {
    var tolerance := Tolerance(top, toleranceBps);
    ToleranceMonotone(0, top, toleranceBps);
    if !Aggregate(s, toleranceBps).Overflowed? {
      assert Aggregate(s, toleranceBps) == SecondMedian(s, top - tolerance, top + tolerance);
    }
  }

  lemma AttackTopsHalf(honest: seq<int>, others: nat, attack: int)
    requires |honest| <= others && forall x :: x in honest ==> x < attack
    ensures var s := SortedCopy(honest + seq(others, _ => attack));
            Sorted(s) && 2 * CountIn(s, attack, attack) >= |s| && forall x :: x in s ==> x <= attack
  {
    var posted := seq(others, _ => attack);
    var s := SortedCopy(honest + posted);
    SortedCopyPermutes(honest + posted);
    CountInConcat(honest, posted, attack, attack);
    CountInRepeat(others, attack, attack, attack);
    CountInPermutation(honest + posted, s, attack, attack);
  }

  /** The majority hypothesis is tight: if only half of the entries are honest, the
      others can post one price above all of them, and the result is then never an
      honest price - it is their price, or no price at all. */
  lemma HalfIsNotEnough(honest: seq<int>, others: nat, attack: int, toleranceBps: nat)
    requires |honest| <= others && |honest| + others >= 2
    requires 0 < attack && forall x :: x in honest ==> x < attack
    ensures var result := Aggregate(SortedCopy(honest + seq(others, _ => attack)), toleranceBps);
            result.Agreed? ==> result.price == attack
  {
    var s := SortedCopy(honest + seq(others, _ => attack));
    AttackTopsHalf(honest, others, attack);
    TopHalfHoldsMedian(s, attack);
    AggregateAtTop(s, attack, toleranceBps);
    if !Aggregate(s, toleranceBps).Overflowed? {
      var bandLo, bandHi :| bandLo <= attack <= bandHi
        && Aggregate(s, toleranceBps) == SecondMedian(s, bandLo, bandHi);
      TopHalfWins(s, attack, bandLo, bandHi);
    }
  }
}
