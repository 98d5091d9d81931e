/** Latency statistics of a benchmark run: the measurements are sorted in place by exchanges, then read off. */
module LatencyStats {
  import opened Prelude

  ghost predicate Sorted(s: seq<int>) {
    forall i, j :: 0 <= i < j < |s| ==> s[i] <= s[j]
  }

  function Sum(s: seq<int>): int {
    if s == [] then 0 else Sum(s[..|s| - 1]) + s[|s| - 1]
  }

  /** Integer division that drops the fraction, towards zero. */
  function Quotient(a: int, n: int): int
    requires n > 0
  {
    if a >= 0 then a / n else -(-a / n)
  }

  /** The position of a percentile among n sorted measurements. */
  function Position(n: nat, percent: nat): nat { n * percent / 100 }

  /** The fraction is dropped, so what is left of the sum is less than one unit for each measurement. */
  lemma QuotientMeans(a: int, n: int)
    requires n > 0
    ensures var q := Quotient(a, n); if a >= 0 then q >= 0 && 0 <= a - q * n < n else q <= 0 && -n < a - q * n <= 0
  {
    if a >= 0 {
      assert a == n * (a / n) + a % n;
    } else {
      assert -a == n * (-a / n) + -a % n;
    }
  }

  // ---------- Counting ----------

  /** How many measurements are below a value. */
  function Below(s: seq<int>, x: int): nat {
    if s == [] then 0 else Below(s[..|s| - 1], x) + if s[|s| - 1] < x then 1 else 0
  }

  /** Counts and sums do not depend on the order. */
  lemma {:induction false} SameFigures(a: seq<int>, b: seq<int>, x: int)
    requires multiset(a) == multiset(b)
    ensures Below(a, x) == Below(b, x) && Sum(a) == Sum(b) && |a| == |b|
    decreases |a|
  {
    if a == [] {
      assert |multiset(b)| == 0;
    } else {
      var n := |a| - 1;
      var i := Find(b, a[n]) by { assert a[n] in multiset(a); }
      OneOut(b, i, x);
      OneOut(a, n, x);
      assert a[..n] + a[n + 1..] == a[..n];
      SameFigures(a[..n], b[..i] + b[i + 1..], x);
    }
  }

  lemma Find(s: seq<int>, x: int) returns (i: nat)
    requires x in multiset(s)
    ensures i < |s| && s[i] == x
  {
    assert x in s;
    i :| 0 <= i < |s| && s[i] == x;
  }

  lemma {:induction false} OneOut(s: seq<int>, i: nat, x: int)
    requires i < |s|
    ensures var rest := s[..i] + s[i + 1..];
      multiset(rest) == multiset(s) - multiset{s[i]} && Sum(s) == Sum(rest) + s[i] &&
      Below(s, x) == Below(rest, x) + if s[i] < x then 1 else 0
  {
    AroundIndex(s, i);
    assert multiset(s) == multiset(s[..i] + s[i + 1..]) + multiset{s[i]};
    FiguresOfJoined(s[..i] + [s[i]], s[i + 1..], x);
    FiguresOfJoined(s[..i], [s[i]], x);
    FiguresOfJoined(s[..i], s[i + 1..], x);
    assert [s[i]][..0] == [];
  }

  lemma {:induction false} FiguresOfJoined(a: seq<int>, b: seq<int>, x: int)
    ensures Sum(a + b) == Sum(a) + Sum(b) && Below(a + b, x) == Below(a, x) + Below(b, x)
  {
    if b == [] {
      assert a + b == a;
    } else {
      FiguresOfJoined(a, b[..|b| - 1], x);
      assert (a + b)[..|a + b| - 1] == a + b[..|b| - 1];
    }
  }

  /** In a sorted list at most k measurements are below the one at position k, and more than k are not above it. */
  lemma BelowPosition(s: seq<int>, k: nat)
    requires Sorted(s) && k < |s|
    ensures Below(s, s[k]) <= k && Below(s, s[k] + 1) >= k + 1
  {
    BelowSplits(s, k, s[k]);
    BelowSplits(s, k + 1, s[k] + 1);
    NoneBelow(s[k..], s[k]);
    BelowBound(s[..k], s[k]);
    AllBelow(s[..k + 1], s[k] + 1);
  }

  lemma BelowSplits(s: seq<int>, k: nat, x: int)
    requires k <= |s|
    ensures Below(s, x) == Below(s[..k], x) + Below(s[k..], x)
  {
    FiguresOfJoined(s[..k], s[k..], x);
    assert s == s[..k] + s[k..];
  }

  lemma {:induction false} AllBelow(s: seq<int>, x: int)
    requires forall i :: 0 <= i < |s| ==> s[i] < x
    ensures Below(s, x) == |s|
  {
    if s != [] { AllBelow(s[..|s| - 1], x); }
  }

  lemma {:induction false} NoneBelow(s: seq<int>, x: int)
    requires forall i :: 0 <= i < |s| ==> s[i] >= x
    ensures Below(s, x) == 0
  {
    if s != [] { NoneBelow(s[..|s| - 1], x); }
  }

  lemma {:induction false} BelowBound(s: seq<int>, x: int)
    ensures Below(s, x) <= |s|
  {
    if s != [] { BelowBound(s[..|s| - 1], x); }
  }

  datatype Stats = Stats(min: int, max: int, average: int, p50: int, p90: int, p95: int, p99: int)

  /** Figures read off a sorted list. */
  ghost predicate ReadOff(s: Stats, sorted: seq<int>) {
    var n := |sorted|;
    n > 0 && s.min == sorted[0] && s.max == sorted[n - 1] && s.average == Quotient(Sum(sorted), n) &&
    s.p50 == sorted[Position(n, 50)] && s.p90 == sorted[Position(n, 90)] &&
    s.p95 == sorted[Position(n, 95)] && s.p99 == sorted[Position(n, 99)]
  }

  method Exchange(a: array<int>, i: nat, j: nat)
    requires i < j < a.Length
    modifies a
    ensures a[i] == old(a[j]) && a[j] == old(a[i])
    ensures forall k :: 0 <= k < a.Length && k != i && k != j ==> a[k] == old(a[k])
    ensures multiset(a[..]) == multiset(old(a[..]))
  {
    a[i], a[j] := a[j], a[i];
  }

  /** The smallest of the rest is brought to position i. */
  method Settle(a: array<int>, i: nat)
    requires i < a.Length
    requires forall p, q :: 0 <= p < i <= q < a.Length ==> a[p] <= a[q]
    modifies a
    ensures forall p :: 0 <= p < i ==> a[p] == old(a[p])
    ensures forall p, q :: 0 <= p <= i <= q < a.Length ==> a[p] <= a[q]
    ensures multiset(a[..]) == multiset(old(a[..]))
  {
    for j := i + 1 to a.Length
      invariant multiset(a[..]) == multiset(old(a[..]))
      invariant forall p :: 0 <= p < i ==> a[p] == old(a[p])
      invariant forall p, q :: 0 <= p < i <= q < a.Length ==> a[p] <= a[q]
      invariant forall q :: i <= q < j ==> a[i] <= a[q]
    {
      if a[i] > a[j] { Exchange(a, i, j); }
    }
  }

  method SortByExchanges(a: array<int>)
    modifies a
    ensures Sorted(a[..]) && multiset(a[..]) == multiset(old(a[..]))
  {
    for i := 0 to a.Length
      invariant multiset(a[..]) == multiset(old(a[..]))
      invariant forall p, q :: 0 <= p < q < i ==> a[p] <= a[q]
      invariant forall p, q :: 0 <= p < i <= q < a.Length ==> a[p] <= a[q]
    {
      Settle(a, i);
    }
  }

  lemma {:induction false} SumBounds(s: seq<int>, low: int, high: int)
    requires forall i :: 0 <= i < |s| ==> low <= s[i] <= high
    ensures low * |s| <= Sum(s) <= high * |s|
  {
    if s != [] {
      SumBounds(s[..|s| - 1], low, high);
      assert low * |s| == low * (|s| - 1) + low && high * |s| == high * (|s| - 1) + high;
    }
  }

  lemma FloorBounds(a: int, n: int, low: int, high: int)
    requires n > 0 && low * n <= a <= high * n
    ensures low <= a / n <= high
  {
    var q := a / n;
    assert q * n <= a < q * n + n;
    Ordered(low, q + 1, n);
    Ordered(q, high + 1, n);
  }

  lemma Ordered(x: int, y: int, n: int)
    requires n > 0 && x * n < y * n
    ensures x < y
  {
    if x >= y { NotLess(x, y, n); }
  }

  lemma NotLess(x: int, y: int, n: int)
    requires n > 0 && x >= y
    ensures x * n >= y * n
  {
    assert (x - y) * n >= 0;
  }

  lemma QuotientBounds(total: int, n: int, low: int, high: int)
    requires n > 0 && low * n <= total <= high * n
    ensures low <= Quotient(total, n) <= high
  {
    if total >= 0 {
      FloorBounds(total, n, low, high);
    } else {
      assert -high * n == -(high * n) && -low * n == -(low * n);
      FloorBounds(-total, n, -high, -low);
    }
  }

  /** The figures come in the expected order, with the average between the extremes. */
  lemma FiguresInOrder(s: Stats, sorted: seq<int>)
    requires Sorted(sorted) && ReadOff(s, sorted)
    ensures s.min <= s.p50 <= s.p90 <= s.p95 <= s.p99 <= s.max && s.min <= s.average <= s.max
  {
    SumBounds(sorted, s.min, s.max);
    QuotientBounds(Sum(sorted), |sorted|, s.min, s.max);
  }

  /** What a percentile is: no more than so many in a hundred are below it, and more than so many are not above it. */
  ghost predicate IsPercentile(measurements: seq<int>, percent: nat, value: int) {
    value in measurements && 100 * Below(measurements, value) <= percent * |measurements| &&
    100 * Below(measurements, value + 1) > percent * |measurements|
  }

  lemma PercentileAt(sorted: seq<int>, measurements: seq<int>, percent: nat)
    requires Sorted(sorted) && multiset(sorted) == multiset(measurements) && measurements != [] && percent < 100
    ensures Position(|sorted|, percent) < |sorted|
    ensures IsPercentile(measurements, percent, sorted[Position(|sorted|, percent)])
  {
    var n := |sorted|;
    SameFigures(sorted, measurements, 0);
    var k := Position(n, percent);
    assert 100 * k <= n * percent < 100 * k + 100;
    assert k < n by { assert n * percent < n * 100; }
    BelowPosition(sorted, k);
    SameFigures(sorted, measurements, sorted[k]);
    SameFigures(sorted, measurements, sorted[k] + 1);
    assert sorted[k] in multiset(sorted);
    assert sorted[k] in measurements;
  }

  /**
   The figures in terms of the measurements themselves: the least and the greatest, the mean without its fraction,
   and the four percentiles.
   */
  ghost predicate Describes(s: Stats, measurements: seq<int>) {
    s.min in measurements && s.max in measurements && (forall x :: x in measurements ==> s.min <= x <= s.max) &&
    (var rest := Sum(measurements) - s.average * |measurements|;
     if Sum(measurements) >= 0 then 0 <= rest < |measurements| else -|measurements| < rest <= 0) &&
    IsPercentile(measurements, 50, s.p50) && IsPercentile(measurements, 90, s.p90) &&
    IsPercentile(measurements, 95, s.p95) && IsPercentile(measurements, 99, s.p99)
  }

  lemma ReadOffDescribes(s: Stats, sorted: seq<int>, measurements: seq<int>)
    requires Sorted(sorted) && multiset(sorted) == multiset(measurements) && ReadOff(s, sorted)
    ensures measurements != [] && Describes(s, measurements)
  {
    assert |multiset(measurements)| == |sorted|;
    SameFigures(sorted, measurements, 0);
    PercentileAt(sorted, measurements, 50);
    PercentileAt(sorted, measurements, 90);
    PercentileAt(sorted, measurements, 95);
    PercentileAt(sorted, measurements, 99);
    QuotientMeans(Sum(sorted), |sorted|);
    assert s.min in multiset(sorted) && s.max in multiset(sorted);
    forall x | x in measurements ensures s.min <= x <= s.max {
      var i := Find(sorted, x) by { assert x in multiset(measurements); }
    }
  }

  /** No measurements give no statistics; otherwise the figures are read off their sorted permutation. */
  method CalculateLatencyStats(measurements: seq<int>) returns (stats: Option<Stats>)
    ensures stats.None? <==> measurements == []
    ensures stats.Some? ==>
      exists sorted :: Sorted(sorted) && multiset(sorted) == multiset(measurements) && ReadOff(stats.value, sorted)
    ensures stats.Some? ==> Describes(stats.value, measurements)
    ensures stats.Some? ==> var s := stats.value;
      s.min <= s.p50 <= s.p90 <= s.p95 <= s.p99 <= s.max && s.min <= s.average <= s.max
  {
    if measurements == [] { return None; }
    var n := |measurements|;
    var a := new int[n](i requires 0 <= i < n => measurements[i]);
    assert a[..] == measurements;
    SortByExchanges(a);
    var total := 0;
    for i := 0 to n
      invariant total == Sum(a[..i])
    {
      assert a[..i + 1][..i] == a[..i];
      total := total + a[i];
    }
    assert a[..n] == a[..];
    stats := Some(Stats(a[0], a[n - 1], Quotient(total, n),
                        a[Position(n, 50)], a[Position(n, 90)], a[Position(n, 95)], a[Position(n, 99)]));
    FiguresInOrder(stats.value, a[..]);
    ReadOffDescribes(stats.value, a[..], measurements);
  }
}
