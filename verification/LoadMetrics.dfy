/** The latency statistics of the load tests: in-place sort, truncating mean, 99th percentile. */
module LoadMetrics {
  import opened Common

  /** time.Duration: int64 nanoseconds. */
  type Duration = Int64

  /** Go's `/`: the quotient is rounded toward zero. */
  function TruncDiv(x: int, n: int): int
    requires n > 0
  {
    if x >= 0 then x / n else -((-x) / n)
  }

  ghost predicate Sorted(s: seq<Duration>) {
    forall i, j :: 0 <= i < j < |s| ==> s[i] <= s[j]
  }

  function SumBy(s: seq<Duration>, f: Duration -> int): int {
    if s == [] then 0 else f(s[0]) + SumBy(s[1..], f)
  }

  function Itself(): Duration -> int {
    (y: Duration) => y as int
  }

  function OneIfAtMost(x: int): Duration -> int {
    (y: Duration) => if y <= x then 1 else 0
  }

  function OneIfAtLeast(x: int): Duration -> int {
    (y: Duration) => if y >= x then 1 else 0
  }

  function Sum(s: seq<Duration>): int {
    SumBy(s, Itself())
  }

  function CountAtMost(s: seq<Duration>, x: int): int {
    SumBy(s, OneIfAtMost(x))
  }

  function CountAtLeast(s: seq<Duration>, x: int): int {
    SumBy(s, OneIfAtLeast(x))
  }

  /** The mean the program computes: the int64 running sum, divided. */
  function Mean(s: seq<Duration>): int
    requires s != []
  {
    TruncDiv(I64(Sum(s)), |s|)
  }

  // ---- The program ------------------------------------------------------------------------

  /** Moves the element at `i` down to its place among the sorted ones before it. */
  method Insert(a: array<Duration>, i: nat)
    requires i < a.Length && Sorted(a[..i])
    modifies a
    ensures Sorted(a[..i + 1])
    ensures multiset(a[..]) == multiset(old(a[..]))
  {
    var j: nat := i;
    while j > 0 && a[j - 1] > a[j]
      invariant j <= i
      invariant forall x, y :: 0 <= x < y <= i && y != j ==> a[x] <= a[y]
      invariant multiset(a[..]) == multiset(old(a[..]))
    {
      a[j - 1], a[j] := a[j], a[j - 1];
      j := j - 1;
    }
  }

  /** Stands for the library's in-place sort. */
  method SortAscending(a: array<Duration>)
    modifies a
    ensures Sorted(a[..])
    ensures multiset(a[..]) == multiset(old(a[..]))
  {
    for i := 0 to a.Length
      invariant Sorted(a[..i])
      invariant multiset(a[..]) == multiset(old(a[..]))
    {
      Insert(a, i);
    }
    assert a[..a.Length] == a[..];
  }

  method CalculateMetrics(latencies: array<Duration>) returns (min: int, avg: int, max: int, p99: int)
    modifies latencies
    ensures Sorted(latencies[..]) && multiset(latencies[..]) == multiset(old(latencies[..]))
    ensures latencies.Length == 0 ==> min == avg == max == p99 == 0
    ensures latencies.Length > 0 ==>
              && min == latencies[0] && max == latencies[latencies.Length - 1]
              && avg == Mean(old(latencies[..]))
              && p99 == latencies[99 * latencies.Length / 100]
  {
    if latencies.Length == 0 {
      return 0, 0, 0, 0;
    }
    SortAscending(latencies);
    min := latencies[0];
    max := latencies[latencies.Length - 1];
    var sum: Duration := 0;
    for i := 0 to latencies.Length
      invariant sum == I64(Sum(latencies[..i]))
      invariant Sorted(latencies[..]) && multiset(latencies[..]) == multiset(old(latencies[..]))
      invariant min == latencies[0] && max == latencies[latencies.Length - 1]
    {
      SumSnoc(latencies[..i], latencies[i]);
      assert latencies[..i + 1] == latencies[..i] + [latencies[i]];
      sum := I64(sum + latencies[i]);
    }
    assert latencies[..latencies.Length] == latencies[..];
    SumByPermutation(latencies[..], old(latencies[..]), Itself());
    avg := TruncDiv(sum, latencies.Length);
    var n := latencies.Length;
    var idx := 99 * n / 100;
    if idx >= n {
      idx := n - 1;
    }
    p99 := latencies[idx];
  }

  // ---- Its statistics ---------------------------------------------------------------------

  lemma {:induction false} SumByConcat(a: seq<Duration>, b: seq<Duration>, f: Duration -> int)
    ensures SumBy(a + b, f) == SumBy(a, f) + SumBy(b, f)
  {
    if a == [] {
      assert a + b == b;
    } else {
      assert (a + b)[1..] == a[1..] + b;
      SumByConcat(a[1..], b, f);
    }
  }

  lemma SumSnoc(s: seq<Duration>, x: Duration)
    ensures Sum([]) == 0 && Sum(s + [x]) == Sum(s) + x
  {
    SumByConcat(s, [x], Itself());
    assert SumBy([x], Itself()) == Itself()(x) + SumBy([x][1..], Itself());
  }

  function Without(s: seq<Duration>, i: nat): seq<Duration>
    requires i < |s|
  {
    s[..i] + s[i + 1..]
  }

  lemma SumByAround(before: seq<Duration>, x: Duration, after: seq<Duration>, f: Duration -> int)
    ensures SumBy(before + ([x] + after), f) == f(x) + SumBy(before + after, f)
  {
    SumByConcat(before, [x] + after, f);
    SumByConcat(before, after, f);
    assert ([x] + after)[1..] == after;
  }

  lemma SplitAt<T>(s: seq<T>, i: nat)
    requires i < |s|
    ensures s == s[..i] + ([s[i]] + s[i + 1..])
  {
  }

  lemma SumByWithout(s: seq<Duration>, i: nat, f: Duration -> int)
    requires i < |s|
    ensures SumBy(s, f) == f(s[i]) + SumBy(Without(s, i), f)
  {
    SplitAt(s, i);
    SumByAround(s[..i], s[i], s[i + 1..], f);
  }

  lemma OneFewer(s: seq<Duration>, i: nat)
    requires i < |s|
    ensures multiset(Without(s, i)) == multiset(s) - multiset{s[i]}
  {
    assert s == s[..i] + [s[i]] + s[i + 1..];
  }

  /** Sums and counts do not depend on the order of the samples. */
  lemma {:induction false} SumByPermutation(a: seq<Duration>, b: seq<Duration>, f: Duration -> int)
    requires multiset(a) == multiset(b)
    ensures SumBy(a, f) == SumBy(b, f) && |a| == |b|
  {
    assert |a| == |multiset(a)| && |b| == |multiset(b)|;
    if a != [] {
      assert a == [a[0]] + a[1..];
      assert a[0] in multiset(b);
      var i :| 0 <= i < |b| && b[i] == a[0];
      SumByWithout(b, i, f);
      OneFewer(b, i);
      SumByPermutation(a[1..], Without(b, i), f);
    }
  }

  lemma {:induction false} SumBetween(s: seq<Duration>, low: int, high: int)
    requires forall i :: 0 <= i < |s| ==> low <= s[i] <= high
    ensures |s| * low <= Sum(s) <= |s| * high
  {
    if s != [] {
      SumBetween(s[1..], low, high);
      assert |s| * low == |s[1..]| * low + low && |s| * high == |s[1..]| * high + high;
    }
  }

  lemma DivisionBounds(x: nat, n: int)
    requires n > 0
    ensures n * (x / n) <= x < n * (x / n) + n
  {
  }

  lemma MultiplesAreApart(n: int, a: int, b: int)
    requires n > 0 && a < b
    ensures n * a + n <= n * b
  {
    assert n * (b - a - 1) >= 0;
    assert n * (b - a - 1) == n * b - n * a - n;
  }

  lemma QuotientBetween(x: int, n: int, low: int, high: int)
    requires n > 0 && n * low <= x <= n * high
    ensures low <= TruncDiv(x, n) <= high
  {
    var q := TruncDiv(x, n);
    var y := if x >= 0 then x else -x;
    DivisionBounds(y, n);
    assert n * -(y / n) == -(n * (y / n));
    if q < low {
      MultiplesAreApart(n, q, low);
    }
    if high < q {
      MultiplesAreApart(n, high, q);
    }
  }

  /**
   * The mean is the truncated quotient of the number that the true sum wraps to in int64, which is the
   * sum itself when it fits.
   */
  lemma MeanTruncates(samples: seq<Duration>, w: int)
    requires samples != []
    requires -0x8000_0000_0000_0000 <= w < 0x8000_0000_0000_0000 && (Sum(samples) - w) % 0x1_0000_0000_0000_0000 == 0
    ensures
      var mean, n := Mean(samples), |samples|;
      if w >= 0 then mean >= 0 && n * mean <= w < n * mean + n
      else mean <= 0 && n * -mean <= -w < n * -mean + n
  {
    WrapsTo(Sum(samples), w);
    DivisionBounds(if w >= 0 then w else -w, |samples|);
  }

  lemma WrapsTo(x: int, w: int)
    requires -0x8000_0000_0000_0000 <= w < 0x8000_0000_0000_0000 && (x - w) % 0x1_0000_0000_0000_0000 == 0
    ensures I64(x) == w
  {
    var q := (x - w) / TWO_64;
    assert x + TWO_63 == q * TWO_64 + (w + TWO_63);
  }

  lemma {:induction false} SortedCounts(s: seq<Duration>, k: nat)
    requires Sorted(s) && k < |s|
    ensures CountAtMost(s, s[k]) >= k + 1
    ensures CountAtLeast(s, s[k]) >= |s| - k
  {
    CountsAreNatural(s[1..], s[k]);
    if k > 0 {
      SortedCounts(s[1..], k - 1);
    } else {
      AllAtLeast(s, s[0]);
    }
  }

  lemma {:induction false} CountsAreNatural(s: seq<Duration>, x: int)
    ensures CountAtMost(s, x) >= 0 && CountAtLeast(s, x) >= 0
  {
    if s != [] {
      CountsAreNatural(s[1..], x);
    }
  }

  lemma {:induction false} AllAtLeast(s: seq<Duration>, x: int)
    requires forall i :: 0 <= i < |s| ==> x <= s[i]
    ensures CountAtLeast(s, x) == |s|
  {
    if s != [] {
      AllAtLeast(s[1..], x);
    }
  }

  /** `sorted` is what the sort leaves of `samples`. */
  ghost predicate SortOf(samples: seq<Duration>, sorted: seq<Duration>) {
    Sorted(sorted) && multiset(samples) == multiset(sorted)
  }

  /**
   * For every non-empty sample whose true sum fits in int64, whatever the partial sums do: the mean and the
   * 99th percentile lie between the smallest and the largest sample.
   */
  lemma MetricsAreOrdered(samples: seq<Duration>, sorted: seq<Duration>)
    requires samples != [] && SortOf(samples, sorted) && -TWO_63 <= Sum(samples) < TWO_63
    ensures |samples| == |sorted| && 0 <= 99 * |sorted| / 100 < |sorted|
    ensures sorted[0] <= Mean(samples) <= sorted[|sorted| - 1]
    ensures sorted[0] <= sorted[99 * |sorted| / 100] <= sorted[|sorted| - 1]
    ensures forall x <- samples :: sorted[0] <= x <= sorted[|sorted| - 1]
  {
    SumByPermutation(samples, sorted, Itself());
    var n := |sorted|;
    assert forall x <- samples :: x in multiset(samples);
    forall x | x in samples
      ensures sorted[0] <= x <= sorted[n - 1]
    {
      assert x in multiset(sorted);
    }
    MeanBetween(samples, sorted);
  }

  lemma MeanBetween(samples: seq<Duration>, sorted: seq<Duration>)
    requires samples != [] && Sorted(sorted) && |samples| == |sorted|
    requires -TWO_63 <= Sum(samples) == Sum(sorted) < TWO_63
    ensures sorted[0] <= Mean(samples) <= sorted[|sorted| - 1]
  {
    SumBetween(sorted, sorted[0], sorted[|sorted| - 1]);
    assert I64(Sum(samples)) == Sum(samples);
    QuotientBetween(Sum(samples), |samples|, sorted[0], sorted[|sorted| - 1]);
  }

  function AtMost(s: seq<Duration>, x: int): set<nat> {
    set i: nat | i < |s| && s[i] <= x
  }

  function AtLeast(s: seq<Duration>, x: int): set<nat> {
    set i: nat | i < |s| && s[i] >= x
  }

  lemma CountOneMore(s: seq<Duration>, last: Duration, x: int)
    ensures CountAtMost(s + [last], x) == CountAtMost(s, x) + if last <= x then 1 else 0
    ensures CountAtLeast(s + [last], x) == CountAtLeast(s, x) + if last >= x then 1 else 0
  {
    SumByConcat(s, [last], OneIfAtMost(x));
    SumByConcat(s, [last], OneIfAtLeast(x));
    assert [last][1..] == [];
  }

  lemma OneMoreAtMost(s: seq<Duration>, last: Duration, x: int)
    ensures |AtMost(s + [last], x)| == |AtMost(s, x)| + if last <= x then 1 else 0
  {
    var all := s + [last];
    assert forall i: nat | i < |s| :: all[i] == s[i];
    assert AtMost(all, x) == AtMost(s, x) + if last <= x then {|s|} else {};
  }

  lemma OneMoreAtLeast(s: seq<Duration>, last: Duration, x: int)
    ensures |AtLeast(s + [last], x)| == |AtLeast(s, x)| + if last >= x then 1 else 0
  {
    var all := s + [last];
    assert forall i: nat | i < |s| :: all[i] == s[i];
    assert AtLeast(all, x) == AtLeast(s, x) + if last >= x then {|s|} else {};
  }

  /** The counts are numbers of samples. */
  lemma {:induction false} CountsAreOfSamples(s: seq<Duration>, x: int)
    ensures CountAtMost(s, x) == |AtMost(s, x)| && CountAtLeast(s, x) == |AtLeast(s, x)|
  {
    if s == [] {
      assert AtMost(s, x) == {} && AtLeast(s, x) == {};
    } else {
      var front, last := s[..|s| - 1], s[|s| - 1];
      assert s == front + [last];
      CountsAreOfSamples(front, x);
      CountOneMore(front, last, x);
      OneMoreAtMost(front, last, x);
      OneMoreAtLeast(front, last, x);
    }
  }

  /** More than 99 in 100 samples are at most the 99th percentile, and at least 1 in 100 are at least it. */
  lemma PercentileCounts(samples: seq<Duration>, sorted: seq<Duration>)
    requires samples != [] && SortOf(samples, sorted)
    ensures |samples| == |sorted| && 0 <= 99 * |sorted| / 100 < |sorted|
    ensures var p99 := sorted[99 * |sorted| / 100];
            && 100 * |AtMost(samples, p99)| > 99 * |samples|
            && 100 * |AtLeast(samples, p99)| >= |samples|
  {
    SumByPermutation(samples, sorted, Itself());
    var k := 99 * |sorted| / 100;
    var p99 := sorted[k];
    SortedCounts(sorted, k);
    SumByPermutation(samples, sorted, OneIfAtMost(p99));
    SumByPermutation(samples, sorted, OneIfAtLeast(p99));
    CountsAreOfSamples(samples, p99);
  }
}
