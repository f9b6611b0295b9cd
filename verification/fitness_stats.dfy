/** The summary statistics of EnhancedFitnessVisualization: the median and the nearest-rank
    percentile of an array of fitness values. Both sort the caller's array in place first, so the
    caller sees it sorted afterwards. Doubles are modelled as reals. */
module FitnessStats {
  import opened Common

  /** Java's int range. */
  const IntMin: int := -0x8000_0000
  const IntMax: int := 0x7fff_ffff

  /** Ascending order. */
  predicate Sorted(s: seq<real>)
  {
    forall p, q | 0 <= p < q < |s| :: s[p] <= s[q]
  }

  /** Arrays.sort: the array ends up ascending and holds the same values. */
  method SortValues(a: array<real>)
    modifies a
    ensures Sorted(a[..])
    ensures multiset(a[..]) == old(multiset(a[..]))
  {
    var i := 0;
    while i < a.Length
      invariant 0 <= i <= a.Length
      invariant forall p, q | 0 <= p < q < i :: a[p] <= a[q]
      invariant multiset(a[..]) == old(multiset(a[..]))
    {
      InsertValue(a, i);
      i := i + 1;
    }
  }

  /** One pass of insertion sort: moves a[i] left past every strictly larger value, so that
      a[..i + 1] is ascending when a[..i] was. */
  method InsertValue(a: array<real>, i: nat)
    requires i < a.Length
    requires forall p, q | 0 <= p < q < i :: a[p] <= a[q]
    modifies a
    ensures forall p, q | 0 <= p < q <= i :: a[p] <= a[q]
    ensures multiset(a[..]) == old(multiset(a[..]))
  {
    var j := i;
    while 0 < j && a[j] < a[j - 1]
      invariant 0 <= j <= i
      invariant forall p, q | 0 <= p < q <= i && p != j && q != j :: a[p] <= a[q]
      invariant 0 < j < i ==> a[j - 1] <= a[j + 1]
      invariant j < i ==> a[j] < a[j + 1]
      invariant multiset(a[..]) == old(multiset(a[..]))
    {
      SwapValues(a, j);
      j := j - 1;
    }
  }

  /** Exchanges a[j - 1] and a[j]. */
  method SwapValues(a: array<real>, j: nat)
    requires 0 < j < a.Length
    modifies a
    ensures a[..] == old(a[..])[j - 1 := old(a[j])][j := old(a[j - 1])]
    ensures multiset(a[..]) == old(multiset(a[..]))
  {
    a[j - 1], a[j] := a[j], a[j - 1];
  }

  /** The median read off an ascending sequence: the middle value for an odd length, the mean of
      the two middle values for an even one. On an ascending sequence no value of the lower half
      is above it and no value of the upper half is below it. */
  function Median(s: seq<real>): (m: real)
    requires |s| >= 1
    ensures Sorted(s) ==> forall k | 0 <= k < (|s| + 1) / 2 :: s[k] <= m
    ensures Sorted(s) ==> forall k | |s| / 2 <= k < |s| :: m <= s[k]
  {
    var n := |s|;
    if n % 2 == 0 then (s[n / 2 - 1] + s[n / 2]) / 2.0 else s[n / 2]
  }

  /** calculateMedian: sorts the caller's array, then reads the median off it. */
  method CalculateMedian(values: array<real>) returns (m: real)
    requires values.Length >= 1
    modifies values
    ensures Sorted(values[..])
    ensures multiset(values[..]) == old(multiset(values[..]))
    ensures m == Median(values[..])
  {
    SortValues(values);
    var length := values.Length;
    if length % 2 == 0 {
      m := (values[length / 2 - 1] + values[length / 2]) / 2.0;
    } else {
      m := values[length / 2];
    }
  }

  /** The median of the sorted values lies between the least and the greatest input value: some
      input value is at most it and some input value is at least it. */
  lemma MedianWithinRange(sorted: seq<real>, input: seq<real>)
    requires |sorted| >= 1 && Sorted(sorted) && multiset(sorted) == multiset(input)
    ensures exists i | 0 <= i < |input| :: input[i] <= Median(sorted)
    ensures exists j | 0 <= j < |input| :: Median(sorted) <= input[j]
  {
    var m := Median(sorted);
    assert sorted[0] <= m <= sorted[|sorted| - 1];
    assert sorted[0] in multiset(input) && sorted[|sorted| - 1] in multiset(input);
    var i :| 0 <= i < |input| && input[i] == sorted[0];
    var j :| 0 <= j < |input| && input[j] == sorted[|sorted| - 1];
  }

  /** The median depends only on the values, not on the order they came in: two ascending
      sequences with the same values have the same median. */
  lemma MedianOfSameValues(s: seq<real>, t: seq<real>)
    requires |s| >= 1 && Sorted(s) && Sorted(t) && multiset(s) == multiset(t)
    ensures Median(s) == Median(t)
  {
    SortedUnique(s, t);
  }

  /** Two ascending sequences with the same values are equal. */
  lemma {:induction false} SortedUnique(s: seq<real>, t: seq<real>)
    requires Sorted(s) && Sorted(t) && multiset(s) == multiset(t)
    ensures s == t
    decreases |s|
  {
    assert |s| == |multiset(s)| == |multiset(t)| == |t|;
    if |s| > 0 {
      LeastIsHead(s, t[0]);
      LeastIsHead(t, s[0]);
      assert s[0] == t[0];
      var s', t' := s[1..], t[1..];
      assert s == [s[0]] + s' && t == [t[0]] + t';
      assert multiset(s') == multiset(s) - multiset{s[0]};
      assert multiset(t') == multiset(t) - multiset{t[0]};
      SortedUnique(s', t');
    }
  }

  /** In an ascending sequence, every value is at least the head. */
  lemma LeastIsHead(s: seq<real>, x: real)
    requires Sorted(s) && x in multiset(s)
    ensures |s| > 0 && s[0] <= x
  {
    var k :| 0 <= k < |s| && s[k] == x;
  }

  /** Math.ceil on a value: the least integer not below it. */
  function Ceil(x: real): (c: int)
    ensures (c - 1) as real < x <= c as real
  {
    -((-x).Floor)
  }

  /** The (int) cast of an integral double: values beyond the int range saturate. */
  function ToJavaInt(c: int): (r: int)
    ensures IntMin <= r <= IntMax
    ensures IntMin <= c <= IntMax ==> r == c
  {
    ClampInt(c, IntMin, IntMax)
  }

  /** int subtraction of one: it wraps from the least int to the greatest. */
  function MinusOne(c: int): (r: int)
    requires IntMin <= c <= IntMax
    ensures IntMin <= r <= IntMax
    ensures r == if c == IntMin then IntMax else c - 1
  {
    if c == IntMin then IntMax else c - 1
  }

  /** The index calculatePercentile reads: (int) ceil(percentile / 100 * n) - 1 in int
      arithmetic, clamped into [0, n - 1]. */
  function PercentileIndex(percentile: real, n: nat): (i: int)
    requires n >= 1
    ensures 0 <= i < n
  {
    var index := MinusOne(ToJavaInt(Ceil(percentile / 100.0 * n as real)));
    ClampInt(index, 0, n - 1)
  }

  /** calculatePercentile: sorts the caller's array, then reads the value at the percentile
      index; the result is one of the values. */
  method CalculatePercentile(values: array<real>, percentile: real) returns (r: real)
    requires values.Length >= 1
    modifies values
    ensures Sorted(values[..])
    ensures multiset(values[..]) == old(multiset(values[..]))
    ensures r == values[PercentileIndex(percentile, values.Length)]
    ensures r in old(multiset(values[..]))
  {
    SortValues(values);
    var index := MinusOne(ToJavaInt(Ceil(percentile / 100.0 * values.Length as real)));
    r := values[ClampInt(index, 0, values.Length - 1)];
  }

  /** For a percentile in (0, 100] and a Java-sized array the index is the nearest rank: the
      least i with percentile / 100 * n <= i + 1. */
  lemma PercentileIsNearestRank(percentile: real, n: nat)
    requires 1 <= n <= IntMax && 0.0 < percentile <= 100.0
    ensures (PercentileIndex(percentile, n) as real) < percentile / 100.0 * n as real
    ensures percentile / 100.0 * n as real <= (PercentileIndex(percentile, n) + 1) as real
  {
    var q := percentile / 100.0;
    var x := q * n as real;
    assert 0.0 < q <= 1.0;
    MulMono(1.0, n as real, q);
    assert q <= x;
    MulMono(q, 1.0, n as real);
    assert x <= n as real;
    assert 1 <= Ceil(x) <= n;
  }

  /** A larger non-negative percentile never gives a smaller index. */
  lemma PercentileIndexMonotone(p: real, q: real, n: nat)
    requires n >= 1 && 0.0 <= p <= q
    ensures PercentileIndex(p, n) <= PercentileIndex(q, n)
  {
    MulMono(p / 100.0, q / 100.0, n as real);
    MulMono(0.0, p / 100.0, n as real);
    assert Ceil(p / 100.0 * n as real) <= Ceil(q / 100.0 * n as real);
  }

  /** On the sorted array a larger non-negative percentile never gives a smaller value. */
  lemma PercentileMonotone(sorted: seq<real>, p: real, q: real)
    requires |sorted| >= 1 && Sorted(sorted) && 0.0 <= p <= q
    ensures sorted[PercentileIndex(p, |sorted|)] <= sorted[PercentileIndex(q, |sorted|)]
  {
    PercentileIndexMonotone(p, q, |sorted|);
  }

  /** A percentile so negative that ceil(percentile / 100 * n) is the least int makes the int
      subtraction wrap, and calculatePercentile returns the greatest value instead of the
      least. */
  lemma HugeNegativePercentileReadsLast(n: nat)
    requires 1 <= n <= IntMax
    ensures PercentileIndex(IntMin as real * 100.0, n) == n - 1
  {
    var x := IntMin as real * 100.0 / 100.0 * n as real;
    assert x == IntMin as real * n as real;
    assert x <= IntMin as real;
    assert Ceil(x) <= IntMin;
    assert ToJavaInt(Ceil(x)) == IntMin;
  }
}
