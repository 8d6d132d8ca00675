/** `ServerStatisticData` of src/relay/loadbalancing/server.rs; its f64 fields are reals here. */
module Statistics {

  const MAX_LATENCY_QUEUE_SIZE := 99
  const DEFAULT_CHECK_TIMEOUT_SEC := 2
  const MAX_SERVER_RTT := DEFAULT_CHECK_TIMEOUT_SEC * 1000

  datatype Score = Latency(ms: nat) | Errored

  /** The last `MAX_LATENCY_QUEUE_SIZE` probes. */
  function Window(history: seq<Score>): (w: seq<Score>)
    ensures |w| == if |history| <= MAX_LATENCY_QUEUE_SIZE then |history| else MAX_LATENCY_QUEUE_SIZE
    ensures w == history[|history| - |w|..]
  {
    if |history| <= MAX_LATENCY_QUEUE_SIZE then history else history[|history| - MAX_LATENCY_QUEUE_SIZE..]
  }

  function Latencies(q: seq<Score>): (s: seq<nat>)
  {
    if q == [] then []
    else
      var k := |q| - 1;
      Latencies(q[..k]) + (if q[k].Latency? then [q[k].ms] else [])
  }

  function Errors(q: seq<Score>): (n: nat)
    ensures n + |Latencies(q)| == |q|
  {
    if q == [] then 0
    else
      var k := |q| - 1;
      Errors(q[..k]) + (if q[k].Errored? then 1 else 0)
  }

  function Insert(x: nat, s: seq<nat>): (t: seq<nat>)
    ensures |t| == |s| + 1
  {
    if s == [] || x <= s[0] then [x] + s else [s[0]] + Insert(x, s[1..])
  }

  /** The library's sort. */
  function Sorted(s: seq<nat>): (t: seq<nat>)
    ensures |t| == |s|
  {
    if s == [] then [] else Insert(s[0], Sorted(s[1..]))
  }

  ghost predicate Ascending(s: seq<nat>)
  {
    forall j, k :: 0 <= j < k < |s| ==> s[j] <= s[k]
  }

  ghost predicate AtLeast(s: seq<nat>, b: nat)
  {
    forall k :: 0 <= k < |s| ==> b <= s[k]
  }

  lemma {:induction false} InsertAtLeast(b: nat, x: nat, s: seq<nat>)
    requires b <= x && AtLeast(s, b)
    ensures AtLeast(Insert(x, s), b)
  {
    if s != [] && x > s[0] {
      InsertAtLeast(b, x, s[1..]);
    }
  }

  lemma AscendingCons(x: nat, s: seq<nat>)
    requires Ascending(s) && AtLeast(s, x)
    ensures Ascending([x] + s)
  {
  }

  lemma {:induction false} InsertAscending(x: nat, s: seq<nat>)
    requires Ascending(s)
    ensures Ascending(Insert(x, s))
  {
    if s == [] || x <= s[0] {
      AscendingCons(x, s);
    } else {
      InsertAscending(x, s[1..]);
      InsertAtLeast(s[0], x, s[1..]);
      AscendingCons(s[0], Insert(x, s[1..]));
    }
  }

  lemma {:induction false} SortedAscending(s: seq<nat>)
    ensures Ascending(Sorted(s))
  {
    if s != [] {
      SortedAscending(s[1..]);
      InsertAscending(s[0], Sorted(s[1..]));
    }
  }

  /** How many elements satisfy `p`. */
  function Count(p: nat -> bool, s: seq<nat>): (n: nat)
  {
    if s == [] then 0 else (if p(s[0]) then 1 else 0) + Count(p, s[1..])
  }

  lemma {:induction false} CountInsert(p: nat -> bool, x: nat, s: seq<nat>)
    ensures Count(p, Insert(x, s)) == (if p(x) then 1 else 0) + Count(p, s)
  {
    var t := Insert(x, s);
    if s == [] || x <= s[0] {
      assert t[1..] == s;
    } else {
      CountInsert(p, x, s[1..]);
      assert t[1..] == Insert(x, s[1..]);
    }
  }

  lemma {:induction false} CountSorted(p: nat -> bool, s: seq<nat>)
    ensures Count(p, Sorted(s)) == Count(p, s)
  {
    if s != [] {
      CountSorted(p, s[1..]);
      CountInsert(p, s[0], Sorted(s[1..]));
    }
  }

  lemma {:induction false} CountSplit(p: nat -> bool, s: seq<nat>, k: nat)
    requires k <= |s|
    ensures Count(p, s) == Count(p, s[..k]) + Count(p, s[k..])
  {
    if k > 0 {
      CountSplit(p, s[1..], k - 1);
      assert s[..k][1..] == s[1..][..k - 1];
    } else {
      assert s[..0] == [] && s[0..] == s;
    }
  }

  lemma {:induction false} CountBounds(p: nat -> bool, s: seq<nat>)
    ensures Count(p, s) <= |s|
    ensures (forall k :: 0 <= k < |s| ==> p(s[k])) ==> Count(p, s) == |s|
    ensures (forall k :: 0 <= k < |s| ==> !p(s[k])) ==> Count(p, s) == 0
  {
    if s != [] {
      CountBounds(p, s[1..]);
    }
  }

  function Below(v: nat): (p: nat -> bool)
  {
    (x: nat) => x < v
  }

  function UpTo(v: nat): (p: nat -> bool)
  {
    (x: nat) => x <= v
  }

  /** `v` is the element of rank `k`: at most `k` elements are below it, more than `k` are not above it. */
  ghost predicate IsRanked(s: seq<nat>, k: nat, v: nat)
  {
    Count(Below(v), s) <= k < Count(UpTo(v), s)
  }

  lemma AtMostBelow(t: seq<nat>, k: nat)
    requires Ascending(t) && k < |t|
    ensures Count(Below(t[k]), t) <= k
  {
    var p := Below(t[k]);
    CountSplit(p, t, k);
    CountBounds(p, t[..k]);
    CountBounds(p, t[k..]);
    assert forall i :: 0 <= i < |t| - k ==> !p(t[k..][i]);
  }

  lemma AtLeastUpTo(t: seq<nat>, k: nat)
    requires Ascending(t) && k < |t|
    ensures k < Count(UpTo(t[k]), t)
  {
    var p := UpTo(t[k]);
    var front := t[..k + 1];
    CountSplit(p, t, k + 1);
    CountBounds(p, front);
    assert forall i :: 0 <= i < |front| ==> p(front[i]);
  }

  lemma SortedIsRanked(s: seq<nat>, k: nat)
    requires k < |s|
    ensures IsRanked(s, k, Sorted(s)[k])
  {
    var t := Sorted(s);
    SortedAscending(s);
    AtMostBelow(t, k);
    AtLeastUpTo(t, k);
    CountSorted(Below(t[k]), s);
    CountSorted(UpTo(t[k]), s);
  }

  /** Ranks determine values, so a median is one number whatever the sort. */
  lemma RankedUnique(s: seq<nat>, k: nat, v: nat, w: nat)
    requires IsRanked(s, k, v) && IsRanked(s, k, w)
    ensures v == w
  {
    if v < w {
      CountMonotone(UpTo(v), Below(w), s);
    } else if w < v {
      CountMonotone(UpTo(w), Below(v), s);
    }
  }

  lemma {:induction false} CountMonotone(p: nat -> bool, q: nat -> bool, s: seq<nat>)
    requires forall x :: p(x) ==> q(x)
    ensures Count(p, s) <= Count(q, s)
  {
    if s != [] {
      CountMonotone(p, q, s[1..]);
    }
  }

  /** The middle element, or the rounded-down mean of the two middle ones. */
  function Median(s: seq<nat>): (m: nat)
    requires s != []
  {
    var t, mid := Sorted(s), |s| / 2;
    if |s| % 2 == 0 then (t[mid] + t[mid - 1]) / 2 else t[mid]
  }

  /** The median without sorting: from the elements of the middle ranks. */
  lemma MedianIsMiddle(s: seq<nat>, lo: nat, hi: nat)
    requires s != [] && IsRanked(s, (|s| - 1) / 2, lo) && IsRanked(s, |s| / 2, hi)
    ensures Median(s) == (lo + hi) / 2
  {
    hide Sorted, IsRanked;
    SortedIsRanked(s, (|s| - 1) / 2);
    SortedIsRanked(s, |s| / 2);
    RankedUnique(s, (|s| - 1) / 2, lo, Sorted(s)[(|s| - 1) / 2]);
    RankedUnique(s, |s| / 2, hi, Sorted(s)[|s| / 2]);
  }

  /** The sum of `f` over the elements. */
  function SumOf(f: nat -> real, s: seq<nat>): (r: real)
  {
    if s == [] then 0.0 else f(s[0]) + SumOf(f, s[1..])
  }

  lemma {:induction false} SumSnoc(f: nat -> real, s: seq<nat>, x: nat)
    ensures SumOf(f, s + [x]) == SumOf(f, s) + f(x)
  {
    if s == [] {
      assert s + [x] == [x];
    } else {
      SumSnoc(f, s[1..], x);
      assert (s + [x])[1..] == s[1..] + [x];
    }
  }

  lemma {:induction false} SumInsert(f: nat -> real, x: nat, s: seq<nat>)
    ensures SumOf(f, Insert(x, s)) == f(x) + SumOf(f, s)
  {
    var t := Insert(x, s);
    if s == [] || x <= s[0] {
      assert t[1..] == s;
    } else {
      SumInsert(f, x, s[1..]);
      assert t[1..] == Insert(x, s[1..]);
    }
  }

  lemma {:induction false} SumSorted(f: nat -> real, s: seq<nat>)
    ensures SumOf(f, Sorted(s)) == SumOf(f, s)
  {
    if s != [] {
      SumSorted(f, s[1..]);
      SumInsert(f, s[0], Sorted(s[1..]));
    }
  }

  function Mean(s: seq<nat>): (m: real)
    requires s != []
  {
    SumOf(Value, s) / |s| as real
  }

  function Sq(d: real): (r: real)
  {
    d * d
  }

  function SquaredFrom(m: real): (f: nat -> real)
  {
    (x: nat) => Sq(x as real - m)
  }

  /** The corrected sample variance. */
  function SampleVariance(s: seq<nat>): (v: real)
    requires |s| > 1
  {
    1.0 / (|s| as real - 1.0) * SumOf(SquaredFrom(Mean(s)), s)
  }

  /** Median of the window, or of the latest window that had a latency, or the maximum. */
  ghost function Rtt(history: seq<Score>): (r: nat)
  {
    if history == [] then MAX_SERVER_RTT
    else
      var s := Latencies(Window(history));
      if s != [] then Median(s) else Rtt(history[..|history| - 1])
  }

  /** Variance of the window, or of the latest window that had two latencies, or zero. */
  ghost function Variance(history: seq<Score>): (v: real)
  {
    if history == [] then 0.0
    else
      var s := Latencies(Window(history));
      if |s| > 1 then SampleVariance(s) else Variance(history[..|history| - 1])
  }

  /** The mean kept beside it. */
  ghost function MeanKept(history: seq<Score>): (m: real)
  {
    if history == [] then 0.0
    else
      var s := Latencies(Window(history));
      if |s| > 1 then Mean(s) else MeanKept(history[..|history| - 1])
  }

  function Ratio(a: nat, b: nat): (r: real)
    requires b > 0
  {
    a as real / b as real
  }

  ghost function FailRate(history: seq<Score>): (r: real)
  {
    if history == [] then 1.0 else Ratio(Errors(Window(history)), |Window(history)|)
  }

  /** What one more score makes of the fields. */
  lemma Refreshed(history: seq<Score>)
    requires history != []
    ensures var s, before := Latencies(Window(history)), history[..|history| - 1];
            && FailRate(history) == Ratio(Errors(Window(history)), |Window(history)|)
            && Rtt(history) == (if s != [] then Median(s) else Rtt(before))
            && Variance(history) == (if |s| > 1 then SampleVariance(s) else Variance(before))
            && MeanKept(history) == (if |s| > 1 then Mean(s) else MeanKept(before))
  {
    hide Ratio, SampleVariance, Mean, Median;
  }

  /** The library's square root. */
  ghost predicate IsSqrt(sqrt: real -> real)
  {
    forall x: real :: x >= 0.0 ==> IsRoot(x, sqrt(x))
  }

  predicate IsRoot(x: real, r: real)
  {
    r >= 0.0 && r * r == x
  }

  function MaxLatencyVariance(): (v: real)
  {
    var mrtt := MAX_SERVER_RTT as real;
    var avg := (0.0 + mrtt) / 2.0;
    (0.0 - avg) * (0.0 - avg) + (mrtt - avg) * (mrtt - avg)
  }

  /** `score`: a weighted sum of normalized latency, failure rate and deviation, in thousandths. */
  function ScoreOf(sqrt: real -> real, rtt: nat, failRate: real, stdev: real): (s: int)
  {
    var most := sqrt(MaxLatencyVariance());
    var nstdev := if most == 0.0 then 0.0 else stdev / most;
    ((rtt as real / MAX_SERVER_RTT as real * 1.0 + failRate * 3.0 + nstdev * 1.0) / 5.0 * 1000.0).Floor
  }

  // Bounds

  ghost predicate AtMost(s: seq<nat>, m: nat)
  {
    forall k :: 0 <= k < |s| ==> s[k] <= m
  }

  function Value(x: nat): (r: real) { x as real }

  function Square(x: nat): (r: real) { Sq(x as real) }

  /** The sum of the squared deviations, from the sums of squares and of values. */
  function Expanded(squares: real, values: real, n: real, m: real): (r: real)
  {
    squares - 2.0 * m * values + n * m * m
  }

  lemma DeviationStep(x: real, m: real, q: real, v: real, n: real)
    ensures Sq(x - m) + Expanded(q, v, n, m) == Expanded(Sq(x) + q, x + v, n + 1.0, m)
  {
    assert (x - m) * (x - m) == x * x - 2.0 * m * x + m * m;
    assert 2.0 * m * (x + v) == 2.0 * m * x + 2.0 * m * v;
    assert (n + 1.0) * m * m == n * m * m + m * m;
  }

  lemma {:induction false} SumDeviations(s: seq<nat>, m: real)
    ensures SumOf(SquaredFrom(m), s) == Expanded(SumOf(Square, s), SumOf(Value, s), |s| as real, m)
  {
    if s != [] {
      hide Expanded, Sq;
      var t, x := s[1..], s[0] as real;
      SumDeviations(t, m);
      DeviationStep(x, m, SumOf(Square, t), SumOf(Value, t), |t| as real);
      assert |s| as real == |t| as real + 1.0;
    }
  }

  lemma SquareStep(x: real, m: real, a: real, v: real)
    requires 0.0 <= x <= m && a <= m * v
    ensures Sq(x) + a <= m * (x + v)
  {
    assert x * (m - x) >= 0.0;
    assert x * (m - x) == m * x - x * x;
    assert m * (x + v) == m * x + m * v;
  }

  /** Every square is at most `most` times its value. */
  lemma {:induction false} SumSquares(s: seq<nat>, most: nat)
    requires AtMost(s, most)
    ensures SumOf(Square, s) <= most as real * SumOf(Value, s)
  {
    if s != [] {
      hide Sq;
      var t := s[1..];
      SumSquares(t, most);
      SquareStep(s[0] as real, most as real, SumOf(Square, t), SumOf(Value, t));
    }
  }

  /** `n m (M - m)` is at most `n M^2 / 4`. */
  lemma ParabolaTop(n: real, m: real, most: real)
    requires n >= 0.0
    ensures n * (m * (most - m)) <= n * (most * most / 4.0)
  {
    var d := most / 2.0 - m;
    assert most * most / 4.0 - m * (most - m) == d * d;
    assert d * d >= 0.0;
    var a, b := m * (most - m), most * most / 4.0;
    assert a <= b;
    assert n * (b - a) >= 0.0;
    assert n * (b - a) == n * b - n * a;
  }

  /** The squared deviations of `n` values in `0 .. most` add up to at most `n most^2 / 4`. */
  lemma DeviationBound(s: seq<nat>, most: nat)
    requires s != [] && AtMost(s, most)
    ensures SumOf(SquaredFrom(Mean(s)), s) <= |s| as real * (most as real * most as real / 4.0)
  {
    hide SumOf, Expanded, SquaredFrom;
    SumDeviations(s, Mean(s));
    SumSquares(s, most);
    AroundMean(SumOf(Square, s), SumOf(Value, s), |s| as real, Mean(s), most as real);
  }

  lemma AroundMean(q: real, v: real, n: real, m: real, top: real)
    requires n > 0.0 && m == v / n && q <= top * v
    ensures Expanded(q, v, n, m) <= n * (top * top / 4.0)
  {
    MeanTimes(n, m, v, top);
    ParabolaTop(n, m, top);
  }

  lemma MeanTimes(n: real, m: real, v: real, top: real)
    requires n > 0.0 && m == v / n
    ensures top * v - 2.0 * m * v + n * m * m == n * (m * (top - m))
  {
    assert v == n * m;
    Commute(n, m, top);
  }

  lemma Commute(n: real, m: real, top: real)
    ensures top * (n * m) - 2.0 * m * (n * m) + n * m * m == n * (m * (top - m))
  {
    assert m * (top - m) == m * top - m * m;
    assert n * (m * top - m * m) == n * (m * top) - n * (m * m);
    assert top * (n * m) == n * (m * top);
    assert m * (n * m) == n * (m * m) && n * m * m == n * (m * m);
  }

  /** The sample variance of latencies of at most `most` is at most `most^2 / 2`. */
  lemma VarianceBound(s: seq<nat>, most: nat)
    requires |s| > 1 && AtMost(s, most)
    ensures 0.0 <= SampleVariance(s) <= HalfSquare(most as real)
  {
    DeviationBound(s, most);
    SumNonNegative(Mean(s), s);
    Corrected(|s| as real, SumOf(SquaredFrom(Mean(s)), s), most as real * most as real / 4.0);
  }

  function HalfSquare(x: real): (r: real)
  {
    x * x / 2.0
  }

  lemma HalfSquareNonNegative(x: real)
    ensures HalfSquare(x) >= 0.0
  {
    assert x * x >= 0.0;
  }

  lemma {:induction false} SumNonNegative(m: real, s: seq<nat>)
    ensures SumOf(SquaredFrom(m), s) >= 0.0
  {
    if s != [] {
      SumNonNegative(m, s[1..]);
      var d := s[0] as real - m;
      assert d * d >= 0.0;
    }
  }

  lemma Corrected(n: real, sum: real, q: real)
    requires n >= 2.0 && q >= 0.0 && 0.0 <= sum <= n * q
    ensures 0.0 <= 1.0 / (n - 1.0) * sum <= 2.0 * q
  {
    var c := 1.0 / (n - 1.0);
    assert c > 0.0 && c * (n - 1.0) == 1.0;
    assert (n - 2.0) * q >= 0.0;
    assert (n - 2.0) * q == n * q - 2.0 * q && (n - 1.0) * q == n * q - q;
    assert sum <= 2.0 * ((n - 1.0) * q);
    Scaled(c, sum, 2.0 * ((n - 1.0) * q));
    assert c * (2.0 * ((n - 1.0) * q)) == 2.0 * ((c * (n - 1.0)) * q);
    assert c * sum >= 0.0;
  }

  lemma Scaled(c: real, a: real, b: real)
    requires c >= 0.0 && a <= b
    ensures c * a <= c * b
  {
    assert c * (b - a) >= 0.0;
  }

  lemma {:induction false} SortedAtMost(s: seq<nat>, m: nat)
    requires AtMost(s, m)
    ensures AtMost(Sorted(s), m)
  {
    if s != [] {
      SortedAtMost(s[1..], m);
      InsertAtMost(s[0], Sorted(s[1..]), m);
    }
  }

  lemma {:induction false} InsertAtMost(x: nat, s: seq<nat>, m: nat)
    requires x <= m && AtMost(s, m)
    ensures AtMost(Insert(x, s), m)
  {
    if s != [] && x > s[0] {
      InsertAtMost(x, s[1..], m);
    }
  }

  /** No latency ever recorded is above `most`. */
  ghost predicate Within(history: seq<Score>, most: nat)
  {
    forall k :: 0 <= k < |history| && history[k].Latency? ==> history[k].ms <= most
  }

  lemma {:induction false} LatenciesWithin(q: seq<Score>, most: nat)
    requires Within(q, most)
    ensures AtMost(Latencies(q), most)
  {
    if q != [] {
      LatenciesWithin(q[..|q| - 1], most);
    }
  }

  /**
   In every reachable state, stale fields included: the median is in range or still the initial
   one, and then the variance is still zero; the variance is in range.
   */
  lemma {:induction false} InRange(history: seq<Score>, most: nat)
    requires Within(history, most)
    ensures Rtt(history) <= most || (Rtt(history) == MAX_SERVER_RTT && Variance(history) == 0.0)
    ensures 0.0 <= Variance(history) <= HalfSquare(most as real)
  {
    hide HalfSquare;
    HalfSquareNonNegative(most as real);
    if history == [] {
      NoHistory();
    } else {
      hide Median, SampleVariance, Latencies, Window, Rtt, Variance, FailRate, Ratio;
      Refreshed(history);
      InRange(history[..|history| - 1], most);
      var w := Window(history);
      var s := Latencies(w);
      LatenciesWithin(w, most);
      if s != [] {
        MedianWithin(s, most);
      }
      if |s| > 1 {
        VarianceBound(s, most);
      }
    }
  }

  lemma MedianWithin(s: seq<nat>, most: nat)
    requires s != [] && AtMost(s, most)
    ensures Median(s) <= most
  {
    SortedAtMost(s, most);
  }

  lemma FailRateInRange(history: seq<Score>)
    ensures 0.0 <= FailRate(history) <= 1.0
  {
    var w := Window(history);
    if history != [] {
      Fraction(Errors(w) as real, |w| as real);
    }
  }

  lemma Fraction(a: real, b: real)
    requires 0.0 <= a <= b && b > 0.0
    ensures 0.0 <= a / b <= 1.0
  {
  }

  /** The score of a server with the given probe history. */
  ghost function ScoreAfter(sqrt: real -> real, history: seq<Score>): (s: int)
  {
    ScoreOf(sqrt, Rtt(history), FailRate(history), sqrt(Variance(history)))
  }

  /** The highest score of a server whose latencies are at most `most`. */
  function MaxScore(most: nat): (s: nat)
  {
    if most < 1000 then 800 else 600 + most / 5
  }

  lemma MaxScoreCovers(most: nat)
    ensures 600 + most / 5 <= MaxScore(most) && 800 <= MaxScore(most)
  {
  }

  /** No score of such a server is higher. */
  lemma ScoreBound(sqrt: real -> real, history: seq<Score>, most: nat)
    requires IsSqrt(sqrt) && Within(history, most)
    ensures 0 <= ScoreAfter(sqrt, history) <= MaxScore(most)
  {
    hide *;
    InRange(history, most);
    FailRateInRange(history);
    Unfold(sqrt, history);
    MaxScoreCovers(most);
    var rtt, failRate, v := Rtt(history), FailRate(history), Variance(history);
    if rtt <= most {
      Normalized(sqrt, v, most as real);
      Weighted(sqrt, rtt, failRate, sqrt(v), most);
    } else {
      RootOfZero(sqrt);
      Unprobed(sqrt, failRate);
    }
  }

  /** The deviation, normalized, is at most the largest latency, normalized; equal at half its square. */
  lemma Normalized(sqrt: real -> real, v: real, most: real)
    requires IsSqrt(sqrt) && 0.0 <= v <= HalfSquare(most) && most >= 0.0
    ensures sqrt(MaxLatencyVariance()) > 0.0 && 0.0 <= sqrt(v) / sqrt(MaxLatencyVariance()) <= most / 2000.0
    ensures v == HalfSquare(most) ==> sqrt(v) / sqrt(MaxLatencyVariance()) == most / 2000.0
  {
    assert MaxLatencyVariance() == 2_000_000.0;
    hide IsSqrt, MaxLatencyVariance;
    var a, c := sqrt(v), sqrt(MaxLatencyVariance());
    RootLaw(sqrt, v);
    RootLaw(sqrt, MaxLatencyVariance());
    RootPositive(c);
    Rescaled(a, c, v, most);
  }

  lemma Rescaled(a: real, c: real, v: real, most: real)
    requires a >= 0.0 && a * a == v && c > 0.0 && c * c == 2_000_000.0 && most >= 0.0
    requires v <= HalfSquare(most)
    ensures 0.0 <= a / c <= most / 2000.0
    ensures v == HalfSquare(most) ==> a / c == most / 2000.0
  {
    var x, y := 2000.0 * a, most * c;
    assert x * x == 4_000_000.0 * (a * a);
    assert y * y == (most * most) * (c * c);
    Product(most, c);
    RootMonotone(x, y);
    Quotient(a, c, most);
    if v == HalfSquare(most) {
      RootMonotone(y, x);
      Quotient(-a, c, -most);
    }
  }

  lemma Product(x: real, y: real)
    requires x >= 0.0 && y >= 0.0
    ensures x * y >= 0.0
  {
  }

  lemma Quotient(a: real, c: real, most: real)
    requires c > 0.0 && 2000.0 * a <= most * c
    ensures a / c <= most / 2000.0 && (a >= 0.0 ==> a / c >= 0.0)
  {
    var q, m := a / c, most / 2000.0;
    assert q * c == a && m * c == most * c / 2000.0;
    Cancel(q, m, c);
    if a >= 0.0 {
      assert 0.0 * c == 0.0;
      Cancel(0.0, q, c);
    }
  }

  lemma Cancel(x: real, y: real, c: real)
    requires c > 0.0 && x * c <= y * c
    ensures x <= y
  {
    assert (x - y) * c == x * c - y * c;
    if x > y {
      Positive(x - y, c);
    }
  }

  lemma RootLaw(sqrt: real -> real, x: real)
    requires IsSqrt(sqrt) && x >= 0.0
    ensures sqrt(x) >= 0.0 && sqrt(x) * sqrt(x) == x
  {
  }

  lemma RootOfZero(sqrt: real -> real)
    requires IsSqrt(sqrt)
    ensures sqrt(0.0) == 0.0
  {
    hide IsSqrt;
    RootLaw(sqrt, 0.0);
    RootMonotone(sqrt(0.0), 0.0);
  }

  lemma RootPositive(r: real)
    requires r >= 0.0 && r * r > 0.0
    ensures r > 0.0
  {
  }

  lemma Positive(d: real, e: real)
    requires d > 0.0 && e > 0.0
    ensures d * e > 0.0
  {
  }

  lemma RootMonotone(a: real, b: real)
    requires a >= 0.0 && b >= 0.0 && a * a <= b * b
    ensures a <= b
  {
    assert (a - b) * (a + b) == a * a - b * b;
    if a > b {
      Positive(a - b, a + b);
    }
  }

  lemma Weighted(sqrt: real -> real, rtt: nat, failRate: real, stdev: real, most: nat)
    requires rtt <= most && 0.0 <= failRate <= 1.0 && sqrt(MaxLatencyVariance()) > 0.0
    requires 0.0 <= stdev / sqrt(MaxLatencyVariance()) <= most as real / 2000.0
    ensures 0 <= ScoreOf(sqrt, rtt, failRate, stdev) <= 600 + most / 5
    ensures rtt == most && failRate == 1.0 && stdev / sqrt(MaxLatencyVariance()) == most as real / 2000.0 ==>
              ScoreOf(sqrt, rtt, failRate, stdev) == 600 + most / 5
  {
    hide MaxLatencyVariance;
    var n := stdev / sqrt(MaxLatencyVariance());
    var x := (rtt as real / 2000.0 * 1.0 + failRate * 3.0 + n * 1.0) / 5.0 * 1000.0;
    assert ScoreOf(sqrt, rtt, failRate, stdev) == x.Floor;
    assert 0.0 <= x <= 600.0 + most as real / 5.0;
    Fifth(most);
  }

  lemma Fifth(n: nat)
    ensures (600.0 + n as real / 5.0).Floor == 600 + n / 5
  {
    var q, r := n / 5, n % 5;
    assert n as real == 5.0 * q as real + r as real;
  }

  lemma Unprobed(sqrt: real -> real, failRate: real)
    requires 0.0 <= failRate <= 1.0
    ensures 0 <= ScoreOf(sqrt, MAX_SERVER_RTT, failRate, 0.0) <= 800
    ensures ScoreOf(sqrt, MAX_SERVER_RTT, 1.0, 0.0) == 800
  {
    hide MaxLatencyVariance;
  }

  lemma Unfold(sqrt: real -> real, h: seq<Score>)
    ensures ScoreAfter(sqrt, h) == ScoreOf(sqrt, Rtt(h), FailRate(h), sqrt(Variance(h)))
  {
  }

  /** Two probes as far apart as can be, then failures until both have left the window. */
  function WorstHistory(most: nat): (h: seq<Score>)
  {
    if most < 1000 then [] else [Latency(0), Latency(most)] + Failures(MAX_LATENCY_QUEUE_SIZE)
  }

  function Failures(n: nat): (h: seq<Score>)
    ensures |h| == n
  {
    seq(n, _ => Errored)
  }

  lemma {:induction false} OnlyFailures(q: seq<Score>, n: nat)
    ensures Latencies(q + Failures(n)) == Latencies(q) && Errors(q + Failures(n)) == Errors(q) + n
  {
    if n == 0 {
      assert q + Failures(0) == q;
    } else {
      OnlyFailures(q, n - 1);
      var h := q + Failures(n);
      assert h[..|h| - 1] == q + Failures(n - 1);
    }
  }

  lemma ShortLatencies(a: nat, b: nat)
    ensures Latencies([]) == [] && Latencies([Latency(a)]) == [a] && Latencies([Latency(a), Latency(b)]) == [a, b]
  {
    assert [Latency(a)][..0] == [] && [Latency(a), Latency(b)][..1] == [Latency(a)];
  }

  /** Where the fields stand while the two probes leave the window. */
  lemma LeavingWindow(most: nat)
    ensures var h := [Latency(0), Latency(most)];
            && Latencies(Window(h + Failures(97))) == [0, most]
            && Latencies(Window(h + Failures(98))) == [most]
            && Latencies(Window(h + Failures(99))) == []
            && Errors(Window(h + Failures(99))) == 99
  {
    hide Latencies, Errors;
    var h := [Latency(0), Latency(most)];
    ShortLatencies(0, most);
    ShortLatencies(most, most);
    OnlyFailures(h, 97);
    assert Window(h + Failures(98)) == [Latency(most)] + Failures(98);
    OnlyFailures([Latency(most)], 98);
    assert Window(h + Failures(99)) == [] + Failures(99);
    OnlyFailures([], 99);
    assert Errors([]) == 0;
  }

  lemma WorstFields(most: nat)
    ensures var h := [Latency(0), Latency(most)] + Failures(99);
            Rtt(h) == most && Variance(h) == HalfSquare(most as real) && FailRate(h) == 1.0
  {
    var two := [Latency(0), Latency(most)];
    var a, b, c := two + Failures(97), two + Failures(98), two + Failures(99);
    assert b[..|b| - 1] == a && c[..|c| - 1] == b;
    LeavingWindow(most);
    SpreadOfTwo(most);
    assert Ratio(99, 99) == 1.0;
    hide Rtt, Variance, FailRate, Ratio, Latencies, Errors, SampleVariance, Median, HalfSquare;
    Refreshed(a);
    Refreshed(b);
    Refreshed(c);
  }

  lemma SpreadOfTwo(most: nat)
    ensures SampleVariance([0, most]) == HalfSquare(most as real) && Median([most]) == most
  {
    var s: seq<nat>, m := [0, most], most as real;
    SumOfTwo(Value, 0, most);
    assert Mean(s) == m / 2.0;
    var f := SquaredFrom(m / 2.0);
    SumOfTwo(f, 0, most);
    assert f(0) == m * m / 4.0 && f(most) == m * m / 4.0;
    assert Sorted([most]) == [most];
  }

  lemma SumOfTwo(f: nat -> real, a: nat, b: nat)
    ensures SumOf(f, [a, b]) == f(a) + f(b)
  {
    var one: seq<nat>, two: seq<nat> := [b], [a, b];
    assert two[1..] == one && one[1..] == [];
    assert SumOf(f, one) == f(b) + SumOf(f, one[1..]);
  }

  /** And some score of such a server is as high. */
  lemma WorstScore(sqrt: real -> real, most: nat)
    requires IsSqrt(sqrt)
    ensures Within(WorstHistory(most), most) && ScoreAfter(sqrt, WorstHistory(most)) == MaxScore(most)
  {
    hide IsSqrt, Rtt, Variance, FailRate, ScoreOf, ScoreAfter, HalfSquare, MaxLatencyVariance;
    var h := WorstHistory(most);
    Unfold(sqrt, h);
    if most < 1000 {
      NoHistory();
      RootOfZero(sqrt);
      Unprobed(sqrt, 1.0);
    } else {
      WorstFields(most);
      InRange(h, most);
      Normalized(sqrt, Variance(h), most as real);
      Weighted(sqrt, Rtt(h), FailRate(h), sqrt(Variance(h)), most);
    }
  }

  /**
   The score stays in thousandths exactly when no probe may be recorded as slower than 2004 ms;
   the timeout is 2000 ms, and a probe that runs into it is recorded with the time it took.
   */
  lemma ScoreBoundIff(sqrt: real -> real, most: nat)
    requires IsSqrt(sqrt)
    ensures (forall history :: Within(history, most) ==> ScoreAfter(sqrt, history) <= 1000) <==> most <= 2004
    ensures MaxScore(MAX_SERVER_RTT) == 1000
  {
    hide IsSqrt, ScoreAfter, WorstHistory;
    WorstScore(sqrt, most);
    if most <= 2004 {
      forall history | Within(history, most) ensures ScoreAfter(sqrt, history) <= 1000 {
        ScoreBound(sqrt, history, most);
      }
    }
  }

  // Exact scores

  /** The deviation on the scale of the score. */
  lemma Deviation(sqrt: real -> real, v: real) returns (d: real)
    requires IsSqrt(sqrt) && v >= 0.0
    ensures d >= 0.0 && 2_000_000.0 * (d * d) == v
    ensures sqrt(MaxLatencyVariance()) > 0.0 && d == sqrt(v) / sqrt(MaxLatencyVariance())
  {
    assert MaxLatencyVariance() == 2_000_000.0;
    hide IsSqrt, MaxLatencyVariance;
    var a, c := sqrt(v), sqrt(MaxLatencyVariance());
    RootLaw(sqrt, v);
    RootLaw(sqrt, MaxLatencyVariance());
    RootPositive(c);
    d := a / c;
    Ratioed(a, c, d);
  }

  lemma Ratioed(a: real, c: real, d: real)
    requires a >= 0.0 && c > 0.0 && d == a / c
    ensures d >= 0.0 && (c * c) * (d * d) == a * a
  {
    assert c * d == a;
    assert (c * c) * (d * d) == (c * d) * (c * d);
  }

  lemma SameSquare(d: real, e: real)
    requires d >= 0.0 && e >= 0.0 && d * d == e * e
    ensures d == e
  {
    RootMonotone(d, e);
    RootMonotone(e, d);
  }

  lemma VarianceNonNegative(history: seq<Score>)
    ensures Variance(history) >= 0.0
  {
    var most := Highest(history);
    InRange(history, most);
  }

  lemma {:induction false} Highest(history: seq<Score>) returns (most: nat)
    ensures Within(history, most)
  {
    if history == [] {
      most := 0;
    } else {
      var k := |history| - 1;
      most := Highest(history[..k]);
      if history[k].Latency? && history[k].ms > most {
        most := history[k].ms;
      }
    }
  }

  /**
   The score, exactly: a tenth of the median, 600 times the failure rate, and 200 times the
   deviation, where the deviation of one probe at 0 and one at 2000 ms counts as 1.
   */
  lemma ScoreIs(sqrt: real -> real, history: seq<Score>, d: real)
    requires IsSqrt(sqrt) && d >= 0.0 && 2_000_000.0 * (d * d) == Variance(history)
    ensures ScoreAfter(sqrt, history)
         == (Rtt(history) as real / 10.0 + 600.0 * FailRate(history) + 200.0 * d).Floor
  {
    hide IsSqrt, Rtt, Variance, FailRate, MaxLatencyVariance;
    VarianceNonNegative(history);
    var e := Deviation(sqrt, Variance(history));
    SameSquare(d, e);
    Summed(Rtt(history) as real, FailRate(history), d);
  }

  lemma Summed(rtt: real, failRate: real, d: real)
    ensures (rtt / 2000.0 * 1.0 + failRate * 3.0 + d * 1.0) / 5.0 * 1000.0 == rtt / 10.0 + 600.0 * failRate + 200.0 * d
  {
  }

  /** Times their number, the sum of the latencies. */
  predicate IsMean(mean: real, s: seq<nat>)
  {
    mean * |s| as real == SumOf(Value, s)
  }

  /** Times one less than their number, the sum of the squared distances from the mean. */
  predicate IsVariance(v: real, mean: real, s: seq<nat>)
  {
    v * (|s| as real - 1.0) == SumOf(SquaredFrom(mean), s)
  }

  /** Mean and variance kept, by their laws. */
  lemma VarianceIs(history: seq<Score>, mean: real)
    requires |Latencies(Window(history))| > 1 && IsMean(mean, Latencies(Window(history)))
    ensures MeanKept(history) == mean && IsVariance(Variance(history), mean, Latencies(Window(history)))
  {
    hide *;
    NoHistory();
    NoLatency();
    Refreshed(history);
    SampleVarianceIs(Latencies(Window(history)), mean);
  }

  lemma SampleVarianceIs(s: seq<nat>, mean: real)
    requires |s| > 1 && IsMean(mean, s)
    ensures Mean(s) == mean && IsVariance(SampleVariance(s), mean, s)
  {
    hide SumOf, SquaredFrom;
    var n := |s| as real;
    MeanOf(mean, n, SumOf(Value, s));
    Undone(n - 1.0, SumOf(SquaredFrom(mean), s));
  }

  lemma MeanOf(mean: real, n: real, sum: real)
    requires n > 0.0 && mean * n == sum
    ensures sum / n == mean
  {
  }

  lemma Undone(n: real, x: real)
    requires n > 0.0
    ensures 1.0 / n * x * n == x
  {
    assert 1.0 / n * n == 1.0;
    assert 1.0 / n * x * n == (1.0 / n * n) * x;
  }

  /** A server that is slower, fails more often and varies more never scores lower. */
  lemma ScoreMonotone(sqrt: real -> real, h: seq<Score>, k: seq<Score>)
    requires IsSqrt(sqrt)
    requires Rtt(h) <= Rtt(k) && FailRate(h) <= FailRate(k) && Variance(h) <= Variance(k)
    ensures ScoreAfter(sqrt, h) <= ScoreAfter(sqrt, k)
  {
    hide IsSqrt, Rtt, Variance, FailRate, MaxLatencyVariance, ScoreAfter;
    VarianceNonNegative(h);
    VarianceNonNegative(k);
    var d := Deviation(sqrt, Variance(h));
    var e := Deviation(sqrt, Variance(k));
    RootMonotone(d, e);
    ScoreIs(sqrt, h, d);
    ScoreIs(sqrt, k, e);
  }

  /** Failures around at most one latency, at position `p`. */
  ghost predicate Lone(q: seq<Score>, p: nat, x: nat)
  {
    forall k :: 0 <= k < |q| ==> q[k] == if k == p then Latency(x) else Errored
  }

  lemma {:induction false} LoneLatency(q: seq<Score>, p: nat, x: nat)
    requires Lone(q, p, x)
    ensures Latencies(q) == if p < |q| then [x] else []
  {
    if q != [] {
      LoneLatency(q[..|q| - 1], p, x);
    }
  }

  lemma {:induction false} LoneVariance(q: seq<Score>, p: nat, x: nat)
    requires Lone(q, p, x) && |q| <= 99
    ensures Variance(q) == 0.0
  {
    if q != [] {
      LoneLatency(q, p, x);
      LoneVariance(q[..|q| - 1], p, x);
    }
  }

  /** The score of one answer after `x` ms among `e` failures, in whatever order. */
  lemma OneLatency(sqrt: real -> real, history: seq<Score>, p: nat, x: nat, e: nat)
    requires IsSqrt(sqrt) && |history| == e + 1 <= 99 && p < |history| && Lone(history, p, x)
    ensures ScoreAfter(sqrt, history)
         == (x as real / 10.0 + 600.0 * (e as real / (e + 1) as real)).Floor
  {
    hide *;
    OneFields(history, p, x, e);
    ScoreIs(sqrt, history, 0.0);
  }

  lemma OneFields(history: seq<Score>, p: nat, x: nat, e: nat)
    requires |history| == e + 1 <= 99 && p < |history| && Lone(history, p, x)
    ensures Rtt(history) == x && Variance(history) == 0.0 && FailRate(history) == e as real / (e + 1) as real
  {
    hide Latencies, Rtt, Variance, FailRate, MeanKept, Median, SampleVariance, Mean, Errors, Lone;
    LoneLatency(history, p, x);
    LoneVariance(history, p, x);
    Refreshed(history);
    MiddleOfOne(x);
    assert Window(history) == history;
  }

  lemma MiddleOfOne(x: nat)
    ensures Median([x]) == x
  {
    assert Sorted([x]) == [x];
  }

  /** The score of two answers, one at once and one after `x` ms. */
  lemma TwoLatencies(sqrt: real -> real, x: nat)
    requires IsSqrt(sqrt)
    ensures ScoreAfter(sqrt, [Latency(0), Latency(x)]) == ((x / 2) as real / 10.0 + x as real / 10.0).Floor
  {
    hide *;
    TwoFields(x);
    HalfSquareIs(x as real);
    ScoreIs(sqrt, [Latency(0), Latency(x)], x as real / 2000.0);
  }

  lemma HalfSquareIs(m: real)
    ensures 2_000_000.0 * ((m / 2000.0) * (m / 2000.0)) == HalfSquare(m)
  {
  }

  lemma TwoFields(x: nat)
    ensures var h := [Latency(0), Latency(x)];
            Rtt(h) == x / 2 && Variance(h) == HalfSquare(x as real) && FailRate(h) == 0.0
  {
    hide Latencies, Rtt, Variance, FailRate, MeanKept, Median, SampleVariance, Mean, HalfSquare, Errors;
    var h := [Latency(0), Latency(x)];
    ShortLatencies(0, x);
    SpreadOfTwo(x);
    MiddleOfTwo(x);
    Refreshed(h);
    assert Window(h) == h;
  }

  lemma MiddleOfTwo(x: nat)
    ensures Median([0, x]) == x / 2
  {
    var s: seq<nat> := [0, x];
    assert s[1..] == [x];
    assert Sorted([x]) == [x];
    assert Sorted(s) == s;
  }

  /** Only the last 99 probes count, once two of them were answered. */
  lemma OlderForgotten(sqrt: real -> real, older: seq<Score>, recent: seq<Score>)
    requires |recent| == 99 && |Latencies(recent)| > 1
    ensures ScoreAfter(sqrt, older + recent) == ScoreAfter(sqrt, recent)
  {
    var h := older + recent;
    assert h[|h| - 99..] == recent;
    hide Median, SampleVariance, Mean, Latencies, Ratio, Rtt, Variance, FailRate, MeanKept;
    Refreshed(h);
    Refreshed(recent);
  }

  lemma {:induction false} Prompt(q: seq<Score>, n: nat)
    requires Latencies(q) == []
    ensures Latencies(q + seq(n, _ => Latency(0))) == seq(n, _ => 0)
  {
    var h := q + seq(n, _ => Latency(0));
    if n == 0 {
      assert h == q;
    } else {
      Prompt(q, n - 1);
      assert h[..|h| - 1] == q + seq(n - 1, _ => Latency(0));
      assert seq(n, _ => 0) == seq(n - 1, _ => 0) + [0];
    }
  }

  lemma NoSpread(n: nat)
    requires n > 1
    ensures var s: seq<nat> := seq(n, _ => 0); Median(s) == 0 && SampleVariance(s) == 0.0
  {
    var s: seq<nat> := seq(n, _ => 0);
    assert AtMost(s, 0);
    MedianWithin(s, 0);
    VarianceBound(s, 0);
  }

  lemma PromptFields(h: seq<Score>, n: nat, e: nat)
    requires h != [] && n > 1 && Latencies(Window(h)) == seq(n, _ => 0) && |Window(h)| == n + e
    ensures Rtt(h) == 0 && Variance(h) == 0.0 && FailRate(h) == Ratio(e, n + e)
  {
    hide Latencies, Rtt, Variance, FailRate, MeanKept, Median, SampleVariance, Mean, Ratio, Errors, Window;
    NoSpread(n);
    Refreshed(h);
  }

  /** And all of them do: the failure before 98 prompt answers still counts, before 99 it does not. */
  lemma OldestCounts(sqrt: real -> real)
    requires IsSqrt(sqrt)
    ensures ScoreAfter(sqrt, [Errored] + seq(98, _ => Latency(0))) == 6
    ensures ScoreAfter(sqrt, [Errored] + seq(99, _ => Latency(0))) == 0
  {
    hide IsSqrt, Rtt, Variance, FailRate, ScoreAfter, Latencies, Errors, Median, SampleVariance;
    var g, h := [Errored] + seq(98, _ => Latency(0)), [Errored] + seq(99, _ => Latency(0));
    NoLatency();
    Prompt([Errored], 98);
    Prompt([], 99);
    assert Window(h) == [] + seq(99, _ => Latency(0));
    PromptFields(g, 98, 1);
    PromptFields(h, 99, 0);
    ScoreIs(sqrt, g, 0.0);
    ScoreIs(sqrt, h, 0.0);
  }

  lemma NoLatency()
    ensures Latencies([Errored]) == [] && Latencies([]) == []
  {
    assert [Errored][..0] == [];
  }

  lemma NoHistory()
    ensures Window([]) == [] && Rtt([]) == MAX_SERVER_RTT && FailRate([]) == 1.0
    ensures Variance([]) == 0.0 && MeanKept([]) == 0.0
  {
  }

  // The statistic object

  class ServerStatisticData {
    const sqrt: real -> real
    var rtt: nat
    var failRate: real
    var latencyQueue: seq<Score>
    var latencyStdev: real
    var latencyMean: real

    ghost var history: seq<Score>   // every score ever pushed

    /** The fields are what the whole history says, and the queue is its last part. */
    ghost predicate Valid()
      reads this
    {
      && IsSqrt(sqrt)
      && latencyQueue == Window(history)
      && rtt == Rtt(history)
      && failRate == FailRate(history)
      && latencyStdev == sqrt(Variance(history))
      && latencyMean == MeanKept(history)
    }

    constructor (sqrt: real -> real)
      requires IsSqrt(sqrt)
      ensures Valid() && history == []
    {
      hide IsSqrt, IsRoot, Window, Rtt, Variance, MeanKept, FailRate;
      NoHistory();
      RootOfZero(sqrt);
      this.sqrt := sqrt;
      rtt, failRate, latencyQueue, latencyStdev, latencyMean := MAX_SERVER_RTT, 1.0, [], 0.0, 0.0;
      history := [];
    }

    method PushScore(score: Score) returns (s: int)
      requires Valid()
      modifies this
      ensures Valid() && history == old(history) + [score] && s == ScoreAfter(sqrt, history)
    {
      hide IsSqrt, IsRoot, Rtt, Variance, MeanKept, FailRate, Latencies, Errors;
      ghost var h := history + [score];
      assert h[..|history|] == history;
      WindowSlides(history, score);
      latencyQueue := latencyQueue + [score];
      if |latencyQueue| > MAX_LATENCY_QUEUE_SIZE {
        latencyQueue := latencyQueue[1..];
      }
      history := h;
      s := RecalculateScore();
    }

    /** The fields are those of the history before its last score; afterwards they are up to date. */
    method RecalculateScore() returns (s: int)
      requires latencyQueue == Window(history) && IsSqrt(sqrt)
      requires var before := if history == [] then [] else history[..|history| - 1];
               && rtt == Rtt(before) && latencyStdev == sqrt(Variance(before)) && latencyMean == MeanKept(before)
      requires history == [] ==> failRate == FailRate([])
      modifies this`rtt, this`failRate, this`latencyStdev, this`latencyMean
      ensures Valid() && s == ScoreAfter(sqrt, history)
    {
      hide IsSqrt, IsRoot, ScoreOf, Median, Latencies, Errors, SampleVariance, Mean, Ratio, Rtt, Variance, MeanKept,
        FailRate;
      if latencyQueue == [] {
        return ScoreOf(sqrt, rtt, failRate, latencyStdev);
      }
      Refreshed(history);
      var vlat, cerr := Collect();
      failRate := Ratio(cerr, |latencyQueue|);
      if vlat != [] {
        rtt := MiddleOf(vlat);
        if |vlat| > 1 {
          var mean, variance := Spread(vlat);
          latencyMean := mean;
          latencyStdev := sqrt(variance);
        }
      }
      s := ScoreOf(sqrt, rtt, failRate, latencyStdev);
    }

    /** Splits the queue into latencies and a count of errors. */
    method Collect() returns (vlat: seq<nat>, cerr: nat)
      ensures vlat == Latencies(latencyQueue) && cerr == Errors(latencyQueue)
    {
      vlat, cerr := [], 0;
      for k := 0 to |latencyQueue|
        invariant vlat == Latencies(latencyQueue[..k]) && cerr == Errors(latencyQueue[..k])
      {
        assert latencyQueue[..k + 1][..k] == latencyQueue[..k];
        match latencyQueue[k]
        case Errored => cerr := cerr + 1;
        case Latency(ms) => vlat := vlat + [ms];
      }
      assert latencyQueue[..|latencyQueue|] == latencyQueue;
    }
  }

  /** The window after one more score: the same shifted by one once it is full. */
  lemma WindowSlides(history: seq<Score>, score: Score)
    ensures var q := Window(history) + [score];
            Window(history + [score]) == if |q| > MAX_LATENCY_QUEUE_SIZE then q[1..] else q
  {
  }

  /** The median, read off the sorted latencies. */
  method MiddleOf(latencies: seq<nat>) returns (m: nat)
    requires latencies != []
    ensures m == Median(latencies)
  {
    hide Sorted;
    var vlat := Sorted(latencies);
    var mid := |vlat| / 2;
    if |vlat| % 2 == 0 {
      m := (vlat[mid] + vlat[mid - 1]) / 2;
    } else {
      m := vlat[mid];
    }
  }

  /** Mean and corrected sample variance, in two passes over the sorted latencies. */
  method Spread(latencies: seq<nat>) returns (mean: real, variance: real)
    requires |latencies| > 1
    ensures mean == Mean(latencies) && variance == SampleVariance(latencies)
  {
    hide SumOf, Sorted, SquaredFrom;
    var vlat := Sorted(latencies);
    var total := Total(vlat);
    SumSorted(Value, latencies);
    mean := total as real / |vlat| as real;
    var accDiff := AccDiff(vlat, mean);
    SumSorted(SquaredFrom(mean), latencies);
    variance := 1.0 / (|vlat| as real - 1.0) * accDiff;
  }

  method Total(vlat: seq<nat>) returns (total: nat)
    ensures total as real == SumOf(Value, vlat)
  {
    total := 0;
    for k := 0 to |vlat|
      invariant total as real == SumOf(Value, vlat[..k])
    {
      SumSnoc(Value, vlat[..k], vlat[k]);
      assert vlat[..k + 1] == vlat[..k] + [vlat[k]];
      total := total + vlat[k];
    }
    assert vlat[..|vlat|] == vlat;
  }

  method AccDiff(vlat: seq<nat>, mean: real) returns (accDiff: real)
    ensures accDiff == SumOf(SquaredFrom(mean), vlat)
  {
    accDiff := 0.0;
    for k := 0 to |vlat|
      invariant accDiff == SumOf(SquaredFrom(mean), vlat[..k])
    {
      SumSnoc(SquaredFrom(mean), vlat[..k], vlat[k]);
      assert vlat[..k + 1] == vlat[..k] + [vlat[k]];
      accDiff := accDiff + Sq(vlat[k] as real - mean);
    }
    assert vlat[..|vlat|] == vlat;
  }
}
