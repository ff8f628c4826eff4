/** Empirical distributions given as a table of (value, cumulative probability) entries, over exact reals. */
module Cdf {

  const TABLE_ENTRIES := 32

  datatype Entry = Entry(value: real, cdf: real)

  // ---- What the loops over a table compute ----

  // The entry to the left of entry `i`; the distribution starts at the origin.
  function Left(t: seq<Entry>, i: nat): Entry
    requires i <= |t|
  {
    if i == 0 then Entry(0.0, 0.0) else t[i - 1]
  }

  function Middle(t: seq<Entry>, i: nat): real
    requires i < |t|
  {
    (t[i].value + Left(t, i).value) / 2.0
  }

  function Prob(t: seq<Entry>, i: nat): real
    requires i < |t|
  {
    t[i].cdf - Left(t, i).cdf
  }

  function Weighted(v: real, p: real): real { v * p }

  function Squared(v: real, p: real): real { v * v * p }

  function Avg(t: seq<Entry>, n: nat): real
    requires n <= |t|
  {
    if n == 0 then 0.0 else Avg(t, n - 1) + Weighted(Middle(t, n - 1), Prob(t, n - 1))
  }

  function Sq(t: seq<Entry>, n: nat): real
    requires n <= |t|
  {
    if n == 0 then 0.0 else Sq(t, n - 1) + Squared(Middle(t, n - 1), Prob(t, n - 1))
  }

  function Mean(t: seq<Entry>): real { Avg(t, |t|) }

  function Variance(t: seq<Entry>): real { Sq(t, |t|) - Mean(t) * Mean(t) }

  function Interpolate(x: real, x1: real, y1: real, x2: real, y2: real): real {
    if x1 == x2 then (y1 + y2) / 2.0 else y1 + (x - x1) * (y2 - y1) / (x2 - x1)
  }

  // The first entry, at or after `i`, that a draw does not exceed; `|t|` when it exceeds all.
  function Index(t: seq<Entry>, x: real, i: nat): (k: nat)
    requires i <= |t|
    ensures i <= k <= |t| && (k < |t| ==> x <= t[k].cdf)
    ensures forall j :: i <= j < k ==> x > t[j].cdf
    decreases |t| - i
  {
    if i == |t| || x <= t[i].cdf then i else Index(t, x, i + 1)
  }

  // The value on the segment that ends at entry `i`.
  function OnSegment(t: seq<Entry>, i: nat, x: real): real
    requires i < |t|
  {
    Interpolate(x, Left(t, i).cdf, Left(t, i).value, t[i].cdf, t[i].value)
  }

  function Sample(t: seq<Entry>, x: real): real
    requires t != []
  {
    var i := Index(t, x, 0);
    if i < |t| then OnSegment(t, i, x) else t[|t| - 1].value
  }

  // ---- Tables ----

  predicate CdfRises(t: seq<Entry>) {
    && (forall i :: 0 <= i < |t| ==> 0.0 <= t[i].cdf <= 1.0)
    && (forall i :: 0 <= i < |t| ==> Left(t, i).cdf <= t[i].cdf)
  }

  predicate IsDistribution(t: seq<Entry>) {
    && t != [] && CdfRises(t) && t[|t| - 1].cdf == 1.0
    && (forall i :: 0 <= i < |t| ==> Left(t, i).value <= t[i].value)
  }

  lemma {:induction false} Ordered(t: seq<Entry>, i: nat, j: nat)
    requires IsDistribution(t) && i <= j <= |t|
    ensures Left(t, i).value <= Left(t, j).value && Left(t, i).cdf <= Left(t, j).cdf
    decreases j - i
  {
    if i < j {
      Ordered(t, i, j - 1);
      assert Left(t, j - 1).value <= t[j - 1].value && Left(t, j - 1).cdf <= t[j - 1].cdf;
    }
  }

  lemma EntryRises(t: seq<Entry>, i: nat)
    requires IsDistribution(t) && i < |t|
    ensures Left(t, i).value <= t[i].value && Left(t, i).cdf <= t[i].cdf
  {
  }

  lemma NotEmpty(t: seq<Entry>)
    requires IsDistribution(t)
    ensures t != []
  {
  }

  // ---- One segment ----

  function Slope(x1: real, y1: real, x2: real, y2: real): real
    requires x1 != x2
  {
    (y2 - y1) / (x2 - x1)
  }

  lemma DivideProduct(a: real, b: real, c: real)
    requires c != 0.0
    ensures a * b / c == a * (b / c)
  {
  }

  lemma Scale(a: real, b: real, k: real)
    requires a <= b && k >= 0.0
    ensures a * k <= b * k
  {
  }

  // The height, at distance `d`, of the line of slope `k` that starts at height `y`.
  function Line(y: real, d: real, k: real): real { y + d * k }

  lemma LineRises(y: real, d: real, e: real, k: real)
    requires d <= e && k >= 0.0
    ensures Line(y, d, k) <= Line(y, e, k) && Line(y, 0.0, k) == y
  {
  }

  lemma SlopeForm(x: real, x1: real, y1: real, x2: real, y2: real)
    requires x1 < x2
    ensures Interpolate(x, x1, y1, x2, y2) == Line(y1, x - x1, Slope(x1, y1, x2, y2))
    ensures Line(y1, x2 - x1, Slope(x1, y1, x2, y2)) == y2
    ensures y1 <= y2 ==> Slope(x1, y1, x2, y2) >= 0.0
  {
    DivideProduct(x - x1, y2 - y1, x2 - x1);
    DivideProduct(x2 - x1, y2 - y1, x2 - x1);
  }

  // On a segment the value rises with the draw, and stays between the values of the two ends.
  lemma SegmentRises(x: real, y: real, x1: real, y1: real, x2: real, y2: real)
    requires x <= y && x1 <= x2 && y1 <= y2
    ensures Interpolate(x, x1, y1, x2, y2) <= Interpolate(y, x1, y1, x2, y2)
    ensures x1 <= x ==> y1 <= Interpolate(x, x1, y1, x2, y2)
    ensures y <= x2 ==> Interpolate(y, x1, y1, x2, y2) <= y2
    ensures y == x2 && x1 < x2 ==> Interpolate(y, x1, y1, x2, y2) == y2
  {
    if x1 == x2 {
      assert forall z :: Interpolate(z, x1, y1, x2, y2) == (y1 + y2) / 2.0;
    } else {
      SlopedRises(x, y, x1, y1, x2, y2);
    }
  }

  lemma SlopedRises(x: real, y: real, x1: real, y1: real, x2: real, y2: real)
    requires x <= y && x1 < x2 && y1 <= y2
    ensures Interpolate(x, x1, y1, x2, y2) <= Interpolate(y, x1, y1, x2, y2)
    ensures x1 <= x ==> y1 <= Interpolate(x, x1, y1, x2, y2)
    ensures y <= x2 ==> Interpolate(y, x1, y1, x2, y2) <= y2
    ensures y == x2 ==> Interpolate(y, x1, y1, x2, y2) == y2
  {
    hide *;
    var k := Slope(x1, y1, x2, y2);
    SlopeForm(x, x1, y1, x2, y2);
    SlopeForm(y, x1, y1, x2, y2);
    LineRises(y1, x - x1, y - x1, k);
    if x1 <= x { LineRises(y1, 0.0, x - x1, k); }
    if y <= x2 { LineRises(y1, y - x1, x2 - x1, k); }
  }

  // ---- Sampling ----

  // A larger draw gives a larger value on the segment, within the values of its ends.
  lemma SegmentMonotone(t: seq<Entry>, i: nat, x: real, y: real)
    requires IsDistribution(t) && i < |t| && x <= y
    ensures OnSegment(t, i, x) <= OnSegment(t, i, y)
    ensures Left(t, i).cdf <= x ==> Left(t, i).value <= OnSegment(t, i, x)
    ensures y <= t[i].cdf ==> OnSegment(t, i, y) <= t[i].value
  {
    EntryRises(t, i);
    hide IsDistribution, Interpolate;
    SegmentRises(x, y, Left(t, i).cdf, Left(t, i).value, t[i].cdf, t[i].value);
  }

  lemma SampleIs(t: seq<Entry>, x: real)
    requires t != []
    ensures Index(t, x, 0) < |t| ==> Sample(t, x) == OnSegment(t, Index(t, x, 0), x)
    ensures Index(t, x, 0) == |t| ==> Sample(t, x) == Left(t, |t|).value
    ensures Left(t, 0) == Entry(0.0, 0.0) && Left(t, |t|) == t[|t| - 1]
    ensures forall i :: 0 < i <= |t| ==> Left(t, i) == t[i - 1]
  {
    hide OnSegment;
  }

  // The sample lies between the values of the entries around the draw.
  lemma SampleBetween(t: seq<Entry>, x: real)
    requires IsDistribution(t)
    ensures var i := Index(t, x, 0);
      && (i > 0 || 0.0 <= x ==> Left(t, i).value <= Sample(t, x))
      && Sample(t, x) <= Left(t, if i < |t| then i + 1 else i).value
  {
    hide *;
    NotEmpty(t);
    SampleIs(t, x);
    var i := Index(t, x, 0);
    if i < |t| { SegmentMonotone(t, i, x, x); }
  }

  lemma IndexRises(t: seq<Entry>, x: real, y: real)
    requires x <= y
    ensures Index(t, x, 0) <= Index(t, y, 0)
  {
  }

  lemma SampleInRange(t: seq<Entry>, x: real)
    requires IsDistribution(t)
    ensures 0.0 <= x ==> 0.0 <= Sample(t, x)
    ensures Sample(t, x) <= t[|t| - 1].value
  {
    hide *;
    NotEmpty(t);
    SampleIs(t, x);
    SampleBetween(t, x);
    var i := Index(t, x, 0);
    Ordered(t, 0, i);
    if i < |t| { Ordered(t, i + 1, |t|); }
  }

  /** A larger draw never gives a smaller sample, and a draw that is not negative gives a value of the table's range. */
  lemma SamplingIsMonotone(t: seq<Entry>, x: real, y: real)
    requires IsDistribution(t) && x <= y
    ensures Sample(t, x) <= Sample(t, y)
    ensures 0.0 <= x ==> 0.0 <= Sample(t, x)
    ensures Sample(t, x) <= t[|t| - 1].value
  {
    hide *;
    NotEmpty(t);
    SampleInRange(t, x);
    var i, j := Index(t, x, 0), Index(t, y, 0);
    IndexRises(t, x, y);
    SampleBetween(t, x);
    SampleBetween(t, y);
    if i < j {
      Ordered(t, i + 1, j);
    } else if i < |t| {
      SampleIs(t, x);
      SampleIs(t, y);
      SegmentMonotone(t, i, x, y);
    } else {
      SampleIs(t, x);
      SampleIs(t, y);
    }
  }

  // ---- The mean is the integral of the sampling function ----

  function Rectangle(height: real, width: real): real { height * width }

  function Trapezoid(width: real, left: real, right: real): real { width * (left + right) / 2.0 }

  // The area under the segments up to draw `x`, where `x` lies on the segment that ends at entry `i`.
  function Area(t: seq<Entry>, i: nat, x: real): real
    requires i < |t|
  {
    Avg(t, i) + Trapezoid(x - Left(t, i).cdf, Left(t, i).value, OnSegment(t, i, x))
  }

  lemma NoWidth(left: real, right: real)
    ensures Trapezoid(0.0, left, right) == 0.0
  {
  }

  lemma AvgStep(t: seq<Entry>, i: nat)
    requires i < |t|
    ensures Avg(t, i + 1) == Avg(t, i) + Trapezoid(t[i].cdf - Left(t, i).cdf, Left(t, i).value, t[i].value)
  {
    var m, p := Middle(t, i), Prob(t, i);
    assert Weighted(m, p) == Trapezoid(p, Left(t, i).value, t[i].value);
  }

  lemma AreaAtEnds(t: seq<Entry>, i: nat)
    requires IsDistribution(t) && i < |t|
    ensures Area(t, i, Left(t, i).cdf) == Avg(t, i)
    ensures Area(t, i, t[i].cdf) == Avg(t, i + 1)
    ensures Left(t, i).value <= OnSegment(t, i, t[i].cdf) <= t[i].value
  {
    var l, r := Left(t, i), t[i];
    EntryRises(t, i);
    hide Interpolate, IsDistribution, Trapezoid, Avg;
    SegmentRises(r.cdf, r.cdf, l.cdf, l.value, r.cdf, r.value);
    NoWidth(l.value, OnSegment(t, i, l.cdf));
    NoWidth(l.value, r.value);
    AvgStep(t, i);
  }

  // The strip of a trapezoid between two distances lies between the two rectangles on its base.
  lemma Strip(d: real, e: real, y: real, k: real)
    requires d <= e && k >= 0.0
    ensures Rectangle(Line(y, d, k), e - d)
         <= Trapezoid(e, y, Line(y, e, k)) - Trapezoid(d, y, Line(y, d, k))
         <= Rectangle(Line(y, e, k), e - d)
  {
    var w := e - d;
    assert Trapezoid(e, y, Line(y, e, k)) - Trapezoid(d, y, Line(y, d, k))
        == (Rectangle(Line(y, d, k), w) + Rectangle(Line(y, e, k), w)) / 2.0;
    assert Rectangle(Line(y, e, k), w) - Rectangle(Line(y, d, k), w) == (w * w) * k;
    assert 0.0 <= w * w;
    Scale(0.0, w * w, k);
  }

  lemma AreaOnSegment(t: seq<Entry>, i: nat, a: real, b: real)
    requires IsDistribution(t) && i < |t|
    requires Left(t, i).cdf <= a <= b <= t[i].cdf
    ensures Rectangle(OnSegment(t, i, a), b - a) <= Area(t, i, b) - Area(t, i, a) <= Rectangle(OnSegment(t, i, b), b - a)
  {
    var l, r := Left(t, i), t[i];
    EntryRises(t, i);
    assert a == b ==> Rectangle(OnSegment(t, i, a), 0.0) == 0.0;
    hide Interpolate, Slope, Line, Trapezoid, Rectangle, IsDistribution, Avg;
    if l.cdf < r.cdf {
      var k := Slope(l.cdf, l.value, r.cdf, r.value);
      SlopeForm(a, l.cdf, l.value, r.cdf, r.value);
      SlopeForm(b, l.cdf, l.value, r.cdf, r.value);
      Strip(a - l.cdf, b - l.cdf, l.value, k);
      assert (b - l.cdf) - (a - l.cdf) == b - a;
    } else {
      assert a == b && b - a == 0.0;
    }
  }

  lemma LeftIs(t: seq<Entry>, i: nat)
    requires 0 < i <= |t|
    ensures Left(t, i) == t[i - 1]
  {
  }

  lemma {:induction false} AreaAcross(t: seq<Entry>, i: nat, j: nat, a: real, b: real)
    requires IsDistribution(t) && i <= j < |t| && a <= b
    requires Left(t, i).cdf <= a <= t[i].cdf && Left(t, j).cdf <= b <= t[j].cdf
    ensures OnSegment(t, i, a) <= OnSegment(t, j, b)
    ensures Rectangle(OnSegment(t, i, a), b - a) <= Area(t, j, b) - Area(t, i, a) <= Rectangle(OnSegment(t, j, b), b - a)
    decreases j - i
  {
    hide *;
    if i == j {
      SegmentMonotone(t, i, a, b);
      AreaOnSegment(t, i, a, b);
    } else {
      var m := t[i].cdf;
      LeftIs(t, i + 1);
      EntryRises(t, i + 1);
      Ordered(t, i + 1, j);
      SegmentMonotone(t, i, a, m);
      SegmentMonotone(t, i + 1, m, m);
      AreaOnSegment(t, i, a, m);
      AreaAtEnds(t, i);
      AreaAtEnds(t, i + 1);
      AreaAcross(t, i + 1, j, m, b);
      Combine(m - a, b - m, OnSegment(t, i, a), OnSegment(t, i, m), OnSegment(t, i + 1, m), OnSegment(t, j, b));
    }
  }

  lemma Combine(d: real, e: real, ya: real, ym: real, yn: real, yb: real)
    requires d >= 0.0 && e >= 0.0 && ya <= ym <= yn <= yb
    ensures Rectangle(ya, d + e) <= Rectangle(ya, d) + Rectangle(yn, e)
    ensures Rectangle(ym, d) + Rectangle(yb, e) <= Rectangle(yb, d + e)
  {
    Scale(ya, yn, e);
    Scale(ym, yb, d);
  }

  // The area under the sampling function from 0 to `x`.
  function Integral(t: seq<Entry>, x: real): real
    requires IsDistribution(t) && x <= 1.0
  {
    Area(t, Index(t, x, 0), x)
  }

  lemma AreaBetween(t: seq<Entry>, a: real, b: real)
    requires IsDistribution(t) && 0.0 <= a <= b <= 1.0
    ensures Rectangle(Sample(t, a), b - a) <= Integral(t, b) - Integral(t, a) <= Rectangle(Sample(t, b), b - a)
  {
    hide Rectangle, Area, OnSegment;
    AreaAcross(t, Index(t, a, 0), Index(t, b, 0), a, b);
  }

  // The area between two draws lies between the rectangles on their samples.
  lemma IntegralBounds(t: seq<Entry>, a: real, b: real)
    requires IsDistribution(t) && 0.0 <= a <= b <= 1.0
    ensures Sample(t, a) * (b - a) <= Integral(t, b) - Integral(t, a) <= Sample(t, b) * (b - a)
  {
    hide *;
    NotEmpty(t);
    AreaBetween(t, a, b);
    RectangleIs(Sample(t, a), b - a);
    RectangleIs(Sample(t, b), b - a);
  }

  lemma {:induction false} AvgFlat(t: seq<Entry>, i: nat, n: nat)
    requires i <= n <= |t| && forall j :: i <= j < n ==> Prob(t, j) == 0.0
    ensures Avg(t, n) == Avg(t, i)
  {
    if i < n { AvgFlat(t, i, n - 1); }
  }

  lemma FlatTail(t: seq<Entry>, i: nat, j: nat)
    requires IsDistribution(t) && i < j < |t| && t[i].cdf >= 1.0
    ensures t[i].cdf == 1.0 && Prob(t, j) == 0.0
  {
    Ordered(t, i + 1, j);
    Ordered(t, j + 1, |t|);
    EntryRises(t, j);
  }

  lemma IntegralEnds(t: seq<Entry>)
    requires IsDistribution(t)
    ensures Integral(t, 0.0) == 0.0 && Integral(t, 1.0) == Mean(t)
  {
    var i := Index(t, 1.0, 0);
    assert t[i].cdf == 1.0 && Index(t, 0.0, 0) == 0 && Avg(t, 0) == 0.0;
    hide Area, IsDistribution, Avg, Prob;
    AreaAtEnds(t, 0);
    AreaAtEnds(t, i);
    forall j | i < j < |t| ensures Prob(t, j) == 0.0 {
      FlatTail(t, i, j);
    }
    AvgFlat(t, i + 1, |t|);
  }

  // ---- Riemann sums ----

  predicate IsPartition(p: seq<real>) {
    && |p| > 1 && p[0] == 0.0 && p[|p| - 1] == 1.0
    && forall i, j :: 0 <= i <= j < |p| ==> p[i] <= p[j]
  }

  // The sums over the first `n` cells; the sampling function rises, so its bounds on a cell are at the cell's ends.
  function LowerSum(t: seq<Entry>, p: seq<real>, n: nat): real
    requires t != [] && n < |p|
  {
    if n == 0 then 0.0 else LowerSum(t, p, n - 1) + Sample(t, p[n - 1]) * (p[n] - p[n - 1])
  }

  function UpperSum(t: seq<Entry>, p: seq<real>, n: nat): real
    requires t != [] && n < |p|
  {
    if n == 0 then 0.0 else UpperSum(t, p, n - 1) + Sample(t, p[n]) * (p[n] - p[n - 1])
  }

  lemma RectangleIs(height: real, width: real)
    ensures Rectangle(height, width) == height * width
  {
  }

  lemma SumsNext(t: seq<Entry>, p: seq<real>, k: nat)
    requires t != [] && k < |p|
    ensures LowerSum(t, p, 0) == UpperSum(t, p, 0) == 0.0
    ensures k > 0 ==> LowerSum(t, p, k) == LowerSum(t, p, k - 1) + Rectangle(Sample(t, p[k - 1]), p[k] - p[k - 1])
    ensures k > 0 ==> UpperSum(t, p, k) == UpperSum(t, p, k - 1) + Rectangle(Sample(t, p[k]), p[k] - p[k - 1])
  {
    hide Rectangle, Sample;
    if k > 0 {
      RectangleIs(Sample(t, p[k - 1]), p[k] - p[k - 1]);
      RectangleIs(Sample(t, p[k]), p[k] - p[k - 1]);
    }
  }

  lemma {:induction false} SumsBoundIntegral(t: seq<Entry>, p: seq<real>, n: nat)
    requires IsDistribution(t) && IsPartition(p) && n < |p|
    ensures p[n] <= 1.0
    ensures LowerSum(t, p, n) <= Integral(t, p[n]) <= UpperSum(t, p, n)
  {
    hide Integral, Sample, Rectangle, IsDistribution, LowerSum, UpperSum;
    NotEmpty(t);
    SumsNext(t, p, n);
    if n == 0 {
      IntegralEnds(t);
    } else {
      SumsBoundIntegral(t, p, n - 1);
      AreaBetween(t, p[n - 1], p[n]);
    }
  }

  /** For every partition of [0,1] the mean lies between the two Riemann sums of the sampling function. */
  lemma MeanBetweenSums(t: seq<Entry>, p: seq<real>)
    requires IsDistribution(t) && IsPartition(p)
    ensures LowerSum(t, p, |p| - 1) <= Mean(t) <= UpperSum(t, p, |p| - 1)
  {
    SumsBoundIntegral(t, p, |p| - 1);
    IntegralEnds(t);
  }

  function Width(n: nat): real
    requires n > 0
  {
    1.0 / n as real
  }

  // The partition into `n` cells of equal width.
  function Even(n: nat): seq<real>
    requires n > 0
  {
    seq(n + 1, k requires 0 <= k <= n => k as real / n as real)
  }

  lemma Quotients(j: nat, k: nat, n: nat)
    requires n > 0 && j <= k
    ensures j as real / n as real <= k as real / n as real
    ensures (k + 1) as real / n as real - k as real / n as real == 1.0 / n as real
  {
  }

  lemma EvenIsPartition(n: nat)
    requires n > 0
    ensures IsPartition(Even(n))
  {
    var p := Even(n);
    forall i, j | 0 <= i <= j < |p| ensures p[i] <= p[j] {
      Quotients(i, j, n);
    }
  }

  lemma RectangleDiff(a: real, b: real, c: real, w: real)
    ensures Rectangle(a, w) - Rectangle(b, w) + Rectangle(b - c, w) == Rectangle(a - c, w)
  {
  }

  lemma EvenIs(n: nat)
    requires n > 0
    ensures |Even(n)| == n + 1 && Even(n)[0] == 0.0 && Even(n)[n] == 1.0
  {
  }

  lemma NoRectangle(w: real)
    ensures Rectangle(0.0, w) == 0.0
  {
  }

  lemma EvenStep(n: nat, k: nat)
    requires 0 < n && 0 < k <= n
    ensures |Even(n)| == n + 1 && Even(n)[k] - Even(n)[k - 1] == Width(n)
  {
    Quotients(k - 1, k - 1, n);
  }

  // The gap between the two sums telescopes.
  lemma {:induction false} Gap(t: seq<Entry>, n: nat, k: nat)
    requires t != [] && 0 < n && k <= n
    ensures UpperSum(t, Even(n), k) - LowerSum(t, Even(n), k)
         == Rectangle(Sample(t, Even(n)[k]) - Sample(t, Even(n)[0]), Width(n))
  {
    hide *;
    var p, w := Even(n), Width(n);
    EvenIs(n);
    SumsNext(t, p, k);
    if k == 0 {
      NoRectangle(w);
    } else {
      Gap(t, n, k - 1);
      EvenStep(n, k);
      RectangleDiff(Sample(t, p[k]), Sample(t, p[k - 1]), Sample(t, p[0]), w);
    }
  }

  lemma DivideBack(d: real, e: real)
    requires d >= 0.0 && e > 0.0
    ensures d / e * e == d && d / e >= 0.0
  {
  }

  lemma Beyond(q: real, n: real, e: real)
    requires q < n && e > 0.0
    ensures q * e < n * e
  {
    assert (n - q) * e > 0.0;
    assert n * e == q * e + (n - q) * e;
  }

  // A gap divided into enough cells is smaller than any positive number.
  lemma Archimedes(d: real, e: real) returns (n: nat)
    requires d >= 0.0 && e > 0.0
    ensures n > 0 && Rectangle(d, Width(n)) < e
  {
    hide Rectangle;
    DivideBack(d, e);
    n := (d / e).Floor + 1;
    Beyond(d / e, n as real, e);
    Shrink(d, n as real, e);
  }

  lemma Shrink(d: real, n: real, e: real)
    requires n > 0.0 && d < n * e
    ensures Rectangle(d, 1.0 / n) < e
  {
    var w := 1.0 / n;
    assert w * n == 1.0 && w > 0.0;
    Beyond(d, n * e, w);
    assert n * e * w == e * (w * n);
  }

  predicate BetweenSums(t: seq<Entry>, z: real, p: seq<real>)
    requires t != [] && p != []
  {
    LowerSum(t, p, |p| - 1) <= z <= UpperSum(t, p, |p| - 1)
  }

  lemma SumsApart(t: seq<Entry>, p: seq<real>, z: real, gap: real, e: real)
    requires t != [] && p != [] && BetweenSums(t, Mean(t), p)
    requires UpperSum(t, p, |p| - 1) - LowerSum(t, p, |p| - 1) == gap < e
    requires if z < Mean(t) then e == Mean(t) - z else e == z - Mean(t)
    ensures !BetweenSums(t, z, p)
  {
    hide Mean, UpperSum, LowerSum;
  }

  // Any other number leaves the sums of a fine enough partition.
  lemma OthersFail(t: seq<Entry>, z: real) returns (p: seq<real>)
    requires IsDistribution(t) && z != Mean(t)
    ensures IsPartition(p) && !BetweenSums(t, z, p)
  {
    hide *;
    NotEmpty(t);
    SamplingIsMonotone(t, 0.0, 1.0);
    var gap := Sample(t, 1.0) - Sample(t, 0.0);
    var e := if z < Mean(t) then Mean(t) - z else z - Mean(t);
    var n := Archimedes(gap, e);
    p := Even(n);
    EvenIs(n);
    EvenIsPartition(n);
    Gap(t, n, n);
    MeanBetweenSums(t, p);
    MeanBetween(t, p);
    SumsApart(t, p, z, Rectangle(gap, Width(n)), e);
  }

  lemma MeanBetween(t: seq<Entry>, p: seq<real>)
    requires t != [] && p != [] && LowerSum(t, p, |p| - 1) <= Mean(t) <= UpperSum(t, p, |p| - 1)
    ensures BetweenSums(t, Mean(t), p)
  {
  }

  /** The mean is the integral of the sampling function: the one number between the sums of every partition. */
  lemma MeanIsTheIntegral(t: seq<Entry>, z: real)
    requires IsDistribution(t)
    ensures z == Mean(t) <==> forall p :: IsPartition(p) ==> BetweenSums(t, z, p)
  {
    assert t != [];
    hide IsDistribution, LowerSum, UpperSum, Mean;
    if z == Mean(t) {
      forall p | IsPartition(p) ensures BetweenSums(t, z, p) {
        MeanBetweenSums(t, p);
      }
    } else {
      var p := OthersFail(t, z);
    }
  }

  // ---- The variance ----

  predicate Schwarz(a: real, p: real, s: real) { a * a <= p * s }

  // One step of the weighted Cauchy-Schwarz inequality.
  lemma CauchyStep(a: real, s: real, p: real, v: real, q: real)
    requires Schwarz(a, p, s) && p >= 0.0 && q >= 0.0 && s >= 0.0
    ensures Schwarz(a + Weighted(v, q), p + q, s + Squared(v, q)) && Squared(v, q) >= 0.0
  {
    var cross := p * v * v - 2.0 * (a * v) + s;
    assert cross >= 0.0 by { CrossTerm(a, s, p, v); }
    assert v * v >= 0.0;
    Scale(0.0, v * v, q);
    Scale(0.0, cross, q);
    assert (p + q) * (s + v * v * q) - (a + v * q) * (a + v * q) == (p * s - a * a) + cross * q;
  }

  lemma CrossTerm(a: real, s: real, p: real, v: real)
    requires a * a <= p * s && p >= 0.0 && s >= 0.0
    ensures p * v * v - 2.0 * (a * v) + s >= 0.0
  {
    if p == 0.0 {
      if a > 0.0 { assert a * a > 0.0; } else if a < 0.0 { assert a * a > 0.0; }
    } else {
      var c, b := p * v * v - 2.0 * (a * v) + s, p * v - a;
      assert p * c == b * b + (p * s - a * a);
      assert b * b >= 0.0;
      Unscale(p, c);
    }
  }

  lemma Unscale(p: real, c: real)
    requires p > 0.0 && p * c >= 0.0
    ensures c >= 0.0
  {
  }

  lemma ProbRises(t: seq<Entry>, n: nat)
    requires CdfRises(t) && 0 < n <= |t|
    ensures Prob(t, n - 1) >= 0.0 && Left(t, n).cdf == Left(t, n - 1).cdf + Prob(t, n - 1) && Left(t, n).cdf <= 1.0
  {
  }

  lemma {:induction false} CauchySchwarz(t: seq<Entry>, n: nat)
    requires CdfRises(t) && n <= |t|
    ensures Sq(t, n) >= 0.0 && 0.0 <= Left(t, n).cdf <= 1.0
    ensures Schwarz(Avg(t, n), Left(t, n).cdf, Sq(t, n))
  {
    if n > 0 {
      CauchySchwarz(t, n - 1);
      ProbRises(t, n);
      hide CdfRises, Schwarz, Weighted, Squared, Prob, Middle;
      CauchyStep(Avg(t, n - 1), Sq(t, n - 1), Left(t, n - 1).cdf, Middle(t, n - 1), Prob(t, n - 1));
    }
  }

  lemma SchwarzBelow(a: real, p: real, s: real)
    requires Schwarz(a, p, s) && p <= 1.0 && s >= 0.0
    ensures s - a * a >= 0.0
  {
    Scale(p, 1.0, s);
  }

  /** No table of rising probabilities has a negative variance, whatever its values. */
  lemma VarianceIsNotNegative(t: seq<Entry>)
    requires CdfRises(t)
    ensures Variance(t) >= 0.0
  {
    hide Schwarz, CdfRises, Sq, Avg;
    CauchySchwarz(t, |t|);
    SchwarzBelow(Mean(t), Left(t, |t|).cdf, Sq(t, |t|));
  }

  // The mean squared distance of the segments' middles from `c`.
  function Spread(t: seq<Entry>, c: real, n: nat): real
    requires n <= |t|
  {
    if n == 0 then 0.0 else
      Spread(t, c, n - 1) + (Middle(t, n - 1) - c) * (Middle(t, n - 1) - c) * Prob(t, n - 1)
  }

  lemma SquaredIs(v: real, p: real)
    ensures Squared(v, p) == v * v * p && Weighted(v, p) == v * p
  {
  }

  lemma SpreadNext(t: seq<Entry>, c: real, n: nat)
    requires n < |t|
    ensures Spread(t, c, 0) == 0.0
    ensures Spread(t, c, n + 1) == Spread(t, c, n) + Squared(Middle(t, n) - c, Prob(t, n))
  {
    hide Squared, Middle, Prob;
    SquaredIs(Middle(t, n) - c, Prob(t, n));
  }

  function Correction(c: real, a: real, p: real): real { c * c * p - 2.0 * (c * a) }

  lemma {:induction false} SpreadIs(t: seq<Entry>, c: real, n: nat)
    requires n <= |t|
    ensures Spread(t, c, n) == Sq(t, n) + Correction(c, Avg(t, n), Left(t, n).cdf)
  {
    hide *;
    SumsStart(t, c);
    if n > 0 {
      var m := n - 1;
      SpreadIs(t, c, m);
      SpreadNext(t, c, m);
      MomentsNext(t, m);
      SpreadStep(c, Middle(t, m), Prob(t, m), Avg(t, m), Left(t, m).cdf);
    }
  }

  lemma SumsStart(t: seq<Entry>, c: real)
    ensures Spread(t, c, 0) == Sq(t, 0) + Correction(c, Avg(t, 0), Left(t, 0).cdf)
  {
  }

  lemma MomentsNext(t: seq<Entry>, n: nat)
    requires n < |t|
    ensures Avg(t, n + 1) == Avg(t, n) + Weighted(Middle(t, n), Prob(t, n))
    ensures Sq(t, n + 1) == Sq(t, n) + Squared(Middle(t, n), Prob(t, n))
    ensures Left(t, n + 1).cdf == Left(t, n).cdf + Prob(t, n)
  {
    hide Weighted, Squared, Middle;
  }

  lemma SpreadStep(c: real, m: real, q: real, a: real, p: real)
    ensures Squared(m - c, q) == Squared(m, q) + Correction(c, a + Weighted(m, q), p + q) - Correction(c, a, p)
  {
  }

  lemma CorrectionAtMean(a: real)
    ensures Correction(a, a, 1.0) == -(a * a)
  {
  }

  /** The difference the code returns is the mean squared distance from the mean, once the probabilities add up to one. */
  lemma VarianceIsSpread(t: seq<Entry>)
    requires t != [] && t[|t| - 1].cdf == 1.0
    ensures Variance(t) == Spread(t, Mean(t), |t|)
  {
    hide Correction, Spread, Sq, Avg;
    SpreadIs(t, Mean(t), |t|);
    CorrectionAtMean(Mean(t));
  }

  lemma SpreadTerm(d: real, q: real)
    requires q >= 0.0
    ensures Squared(d, q) >= 0.0
    ensures Squared(d, q) == 0.0 <==> q == 0.0 || d == 0.0
  {
    if d == 0.0 || q == 0.0 {
      assert Squared(d, q) == 0.0;
    } else {
      Positive(d, q);
    }
  }

  lemma Positive(d: real, q: real)
    requires d != 0.0 && q > 0.0
    ensures Squared(d, q) > 0.0
  {
    hide Weighted, Squared;
    SameSigns(d, d);
    SameSigns(Weighted(d, d), q);
    SquaredTwice(d, q);
  }

  lemma SquaredTwice(v: real, p: real)
    ensures Squared(v, p) == Weighted(Weighted(v, v), p)
  {
  }

  lemma SameSigns(a: real, b: real)
    requires a != 0.0 && b != 0.0 && (a > 0.0 <==> b > 0.0)
    ensures Weighted(a, b) > 0.0
  {
  }

  // The middle of segment `i` is at `c`, unless no probability falls on it.
  predicate Centred(t: seq<Entry>, c: real, i: nat)
    requires i < |t|
  {
    Left(t, i).cdf < t[i].cdf ==> Left(t, i).value + t[i].value == 2.0 * c
  }

  lemma CentredIs(t: seq<Entry>, c: real, i: nat)
    requires i < |t| && CdfRises(t)
    ensures Centred(t, c, i) <==> Prob(t, i) == 0.0 || Middle(t, i) - c == 0.0
    ensures Prob(t, i) >= 0.0
  {
  }

  lemma {:induction false} SpreadIsZero(t: seq<Entry>, c: real, n: nat)
    requires CdfRises(t) && n <= |t|
    ensures Spread(t, c, n) >= 0.0
    ensures Spread(t, c, n) == 0.0 <==> forall i: nat :: i < n ==> Centred(t, c, i)
  {
    if n > 0 {
      hide *;
      var m := n - 1;
      SpreadIsZero(t, c, m);
      SpreadNext(t, c, m);
      CentredIs(t, c, m);
      SpreadTerm(Middle(t, m) - c, Prob(t, m));
    }
  }

  /** The variance is zero exactly when every segment with any probability has its middle at the mean. */
  lemma VarianceIsZero(t: seq<Entry>)
    requires CdfRises(t) && t != [] && t[|t| - 1].cdf == 1.0
    ensures Variance(t) == 0.0 <==> forall i: nat :: i < |t| ==> Centred(t, Mean(t), i)
  {
    hide *;
    VarianceIsSpread(t);
    SpreadIsZero(t, Mean(t), |t|);
  }

  // ---- The samples themselves ----

  // The point (x, v) lies on the segment from `l` to `e`; on a vertical segment, in its middle.
  predicate OnLine(l: Entry, e: Entry, x: real, v: real) {
    if l.cdf == e.cdf then v + v == l.value + e.value
    else (v - l.value) * (e.cdf - l.cdf) == (x - l.cdf) * (e.value - l.value)
  }

  lemma InterpolateIs(x: real, l: Entry, e: Entry)
    ensures OnLine(l, e, x, Interpolate(x, l.cdf, l.value, e.cdf, e.value))
  {
  }

  // The first entry that the draw does not exceed.
  ghost predicate IsFirst(t: seq<Entry>, x: real, i: nat) {
    i < |t| && x <= t[i].cdf && forall j: nat :: j < i ==> t[j].cdf < x
  }

  lemma FirstIs(t: seq<Entry>, x: real, i: nat)
    requires IsFirst(t, x, i)
    ensures Index(t, x, 0) == i
  {
  }

  /** The sample of a draw: on the segment that leads to the first entry it does not exceed, or else the last value. */
  lemma SampleOnLine(t: seq<Entry>, x: real)
    requires t != []
    ensures forall i: nat :: IsFirst(t, x, i) ==>
              OnLine(if i == 0 then Entry(0.0, 0.0) else t[i - 1], t[i], x, Sample(t, x))
    ensures (forall i: nat :: !IsFirst(t, x, i)) ==> Sample(t, x) == t[|t| - 1].value
  {
    hide Interpolate, OnLine;
    assert Index(t, x, 0) < |t| ==> IsFirst(t, x, Index(t, x, 0));
    forall i: nat | IsFirst(t, x, i)
      ensures OnLine(if i == 0 then Entry(0.0, 0.0) else t[i - 1], t[i], x, Sample(t, x))
    {
      FirstIs(t, x, i);
      InterpolateIs(x, Left(t, i), t[i]);
    }
  }

  // ---- The table ----

  class CdfTable {
    var entries: array<Entry>
    var numEntry: nat
    var minCdf: real
    var maxCdf: real

    predicate Valid()
      reads this
    {
      numEntry <= entries.Length && entries.Length > 0
    }

    function Contents(): seq<Entry>
      requires Valid()
      reads this, entries
    {
      entries[..numEntry]
    }

    constructor ()
      ensures Valid() && fresh(entries) && Contents() == [] && entries.Length == 32
      ensures minCdf == 0.0 && maxCdf == 1.0
    {
      entries := new Entry[TABLE_ENTRIES];
      numEntry := 0;
      minCdf, maxCdf := 0.0, 1.0;
    }

    // Appends the entries of a file, one a line; the array doubles whenever it is full.
    method LoadCdf(lines: seq<Entry>)
      requires Valid()
      modifies this, entries
      ensures Valid() && Contents() == old(Contents()) + lines
      ensures entries == old(entries) || fresh(entries)
      ensures entries.Length == old(entries.Length) || entries.Length < 2 * numEntry
      ensures IsLeast(minCdf, old(minCdf), lines) && IsGreatest(maxCdf, old(maxCdf), lines)
    {
      hide IsLeast, IsGreatest;
      NoLines(minCdf, maxCdf);
      var n := 0;
      while n < |lines|
        invariant n <= |lines| && Valid() && Contents() == old(Contents()) + lines[..n]
        invariant entries == old(entries) || fresh(entries)
        invariant entries.Length == old(entries.Length) || entries.Length < 2 * numEntry
        invariant IsLeast(minCdf, old(minCdf), lines[..n]) && IsGreatest(maxCdf, old(maxCdf), lines[..n])
      {
        LeastNext(minCdf, old(minCdf), lines[..n], lines[n]);
        GreatestNext(maxCdf, old(maxCdf), lines[..n], lines[n]);
        AppendNext(old(Contents()), lines, n);
        LoadLine(lines[n]);
        n := n + 1;
      }
      assert lines[..n] == lines;
    }

    // One turn of the loading loop.
    method LoadLine(e: Entry)
      requires Valid()
      modifies this, entries
      ensures Valid() && Contents() == old(Contents()) + [e]
      ensures entries == old(entries) || (fresh(entries) && entries.Length == 2 * old(numEntry))
      ensures minCdf == if old(minCdf) > e.cdf then e.cdf else old(minCdf)
      ensures maxCdf == if old(maxCdf) < e.cdf then e.cdf else old(maxCdf)
    {
      if numEntry >= entries.Length {
        Resize();
      }
      entries[numEntry] := e;
      if minCdf > entries[numEntry].cdf {
        minCdf := entries[numEntry].cdf;
      }
      if maxCdf < entries[numEntry].cdf {
        maxCdf := entries[numEntry].cdf;
      }
      numEntry := numEntry + 1;
    }

    method Resize()
      requires Valid()
      modifies this
      ensures Valid() && Contents() == old(Contents()) && fresh(entries)
      ensures entries.Length == 2 * old(entries.Length)
      ensures numEntry == old(numEntry) && minCdf == old(minCdf) && maxCdf == old(maxCdf)
    {
      var e := new Entry[2 * entries.Length];
      var i := 0;
      while i < numEntry
        invariant i <= numEntry && Valid() && e[..i] == entries[..i]
        invariant numEntry == old(numEntry) && entries == old(entries) && minCdf == old(minCdf) && maxCdf == old(maxCdf)
        modifies e
      {
        e[i] := entries[i];
        i := i + 1;
      }
      entries := e;
    }

    method AvgCdf() returns (avg: real)
      requires Valid()
      ensures avg == Mean(Contents())
    {
      hide Weighted, Squared;
      ghost var t := Contents();
      avg := 0.0;
      var i := 0;
      while i < numEntry
        invariant i <= numEntry && avg == Avg(t, i)
      {
        var value, prob;
        if i == 0 {
          value := entries[i].value / 2.0;
          prob := entries[i].cdf;
        } else {
          value := (entries[i].value + entries[i - 1].value) / 2.0;
          prob := entries[i].cdf - entries[i - 1].cdf;
        }
        assert value == Middle(t, i) && prob == Prob(t, i);
        SquaredIs(value, prob);
        avg := avg + value * prob;
        i := i + 1;
      }
    }

    method VarCdf() returns (variance: real)
      requires Valid()
      ensures variance == Variance(Contents())
      ensures CdfRises(Contents()) ==> variance >= 0.0
    {
      hide Weighted, Squared, CdfRises;
      ghost var t := Contents();
      var avg, sq := 0.0, 0.0;
      var i := 0;
      while i < numEntry
        invariant i <= numEntry && avg == Avg(t, i) && sq == Sq(t, i)
      {
        var value, prob;
        if i == 0 {
          value := entries[i].value / 2.0;
          prob := entries[i].cdf;
        } else {
          value := (entries[i].value + entries[i - 1].value) / 2.0;
          prob := entries[i].cdf - entries[i - 1].cdf;
        }
        assert value == Middle(t, i) && prob == Prob(t, i);
        SquaredIs(value, prob);
        avg := avg + value * prob;
        sq := sq + value * value * prob;
        i := i + 1;
      }
      variance := sq - avg * avg;
      if CdfRises(t) { VarianceIsNotNegative(t); }
    }

    // The draw `r`, from 0 to 1, stands for the random number.
    method GenRandomCdf(r: real) returns (v: real)
      requires Valid() && numEntry > 0
      ensures v == Sample(Contents(), minCdf + r * (maxCdf - minCdf))
    {
      hide Interpolate;
      ghost var t := Contents();
      var x := minCdf + r * (maxCdf - minCdf);
      var i := 0;
      while i < numEntry
        invariant i <= numEntry && Index(t, x, 0) == Index(t, x, i)
      {
        if x <= entries[i].cdf {
          if i == 0 {
            return Interpolate(x, 0.0, 0.0, entries[i].cdf, entries[i].value);
          } else {
            return Interpolate(x, entries[i - 1].cdf, entries[i - 1].value, entries[i].cdf, entries[i].value);
          }
        }
        i := i + 1;
      }
      return entries[numEntry - 1].value;
    }
  }

  // The least of a start value and the probabilities of a list of entries.
  predicate IsLeast(m: real, start: real, lines: seq<Entry>) {
    && m <= start && (forall i :: 0 <= i < |lines| ==> m <= lines[i].cdf)
    && (m == start || exists i :: 0 <= i < |lines| && m == lines[i].cdf)
  }

  predicate IsGreatest(m: real, start: real, lines: seq<Entry>) {
    && m >= start && (forall i :: 0 <= i < |lines| ==> m >= lines[i].cdf)
    && (m == start || exists i :: 0 <= i < |lines| && m == lines[i].cdf)
  }

  lemma NoLines(min: real, max: real)
    ensures IsLeast(min, min, []) && IsGreatest(max, max, [])
  {
  }

  lemma AppendNext(was: seq<Entry>, lines: seq<Entry>, n: nat)
    requires n < |lines|
    ensures lines[..n + 1] == lines[..n] + [lines[n]]
    ensures (was + lines[..n]) + [lines[n]] == was + lines[..n + 1]
  {
  }

  lemma LeastNext(m: real, start: real, lines: seq<Entry>, e: Entry)
    requires IsLeast(m, start, lines)
    ensures IsLeast(if m > e.cdf then e.cdf else m, start, lines + [e])
  {
    var more := lines + [e];
    assert more[|lines|] == e && forall i :: 0 <= i < |lines| ==> more[i] == lines[i];
  }

  lemma GreatestNext(m: real, start: real, lines: seq<Entry>, e: Entry)
    requires IsGreatest(m, start, lines)
    ensures IsGreatest(if m < e.cdf then e.cdf else m, start, lines + [e])
  {
    var more := lines + [e];
    assert more[|lines|] == e && forall i :: 0 <= i < |lines| ==> more[i] == lines[i];
  }

  lemma ExtremesAre(min: real, max: real, lines: seq<Entry>)
    requires IsDistribution(lines) && IsLeast(min, 0.0, lines) && IsGreatest(max, 1.0, lines)
    ensures lines != [] && min == 0.0 && max == 1.0
  {
  }

  lemma WholeRange(min: real, max: real, r: real)
    requires min == 0.0 && max == 1.0
    ensures min + r * (max - min) == r
  {
  }

  /** A fresh table loaded with a distribution looks up the draw itself, and samples a value of the table's range. */
  method SampleFile(lines: seq<Entry>, r: real) returns (v: real)
    requires IsDistribution(lines) && 0.0 <= r <= 1.0
    ensures v == Sample(lines, r) && 0.0 <= v <= lines[|lines| - 1].value
  {
    hide IsDistribution, Sample, IsLeast, IsGreatest;
    var table := new CdfTable();
    table.LoadCdf(lines);
    assert table.Contents() == lines;
    ExtremesAre(table.minCdf, table.maxCdf, lines);
    v := table.GenRandomCdf(r);
    WholeRange(table.minCdf, table.maxCdf, r);
    SamplingIsMonotone(lines, r, r);
  }
}
