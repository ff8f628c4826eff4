/** The one-pass mean and second moment of a benchmark's results, over exact reals. */
module Welford {
  import opened Wrappers

  datatype Phase = Phase(time: real, rate: real, period: real)

  datatype Result = Result(init: Phase, run: Phase)

  // What is reported: the mean and the standard deviation; and the second moment they are computed from.
  datatype Summary = Summary(average: Result, moment2: Result, stdev: Result)

  // The square root of the C library, on numbers that have one.
  ghost predicate IsRoot(sqrt: real -> real) {
    forall x: real :: x >= 0.0 ==> sqrt(x) >= 0.0 && sqrt(x) * sqrt(x) == x
  }

  datatype Field = InitTime | InitRate | InitPeriod | RunTime | RunRate | RunPeriod

  function Get(r: Result, f: Field): real {
    match f
    case InitTime => r.init.time
    case InitRate => r.init.rate
    case InitPeriod => r.init.period
    case RunTime => r.run.time
    case RunRate => r.run.rate
    case RunPeriod => r.run.period
  }

  // ---- The two-pass definitions ----

  function Sum(xs: seq<Result>, f: Field, n: nat): real
    requires n <= |xs|
  {
    if n == 0 then 0.0 else Sum(xs, f, n - 1) + Get(xs[n - 1], f)
  }

  function Mean(xs: seq<Result>, f: Field): real
    requires xs != []
  {
    Sum(xs, f, |xs|) / |xs| as real
  }

  function Square(x: real): real { x * x }

  // The sum of squared distances from `c`.
  function Deviations(xs: seq<Result>, f: Field, c: real, n: nat): real
    requires n <= |xs|
  {
    if n == 0 then 0.0 else Deviations(xs, f, c, n - 1) + Square(Get(xs[n - 1], f) - c)
  }

  // ---- The one-pass step ----

  function Times(x: real, y: real): real { x * y }

  function Shifted(average: real, x: real, count: nat): real
    requires count > 0
  {
    average + (x - average) / count as real
  }

  function Grown(moment2: real, average: real, x: real, count: nat): real
    requires count > 0
  {
    moment2 + Times(x - average, x - Shifted(average, x, count))
  }

  // Moving the reference point from `c` to `d` changes the sum of squares by this much.
  function Moved(c: real, d: real, sum: real, n: real): real {
    2.0 * (c - d) * sum - (c * c - d * d) * n
  }

  lemma {:induction false} MoveReference(xs: seq<Result>, f: Field, c: real, d: real, n: nat)
    requires n <= |xs|
    ensures Deviations(xs, f, d, n) == Deviations(xs, f, c, n) + Moved(c, d, Sum(xs, f, n), n as real)
  {
    if n == 0 {
      assert Moved(c, d, 0.0, 0.0) == 0.0;
    } else {
      MoveReference(xs, f, c, d, n - 1);
      hide Square, Moved, Get;
      MovedStep(c, d, Sum(xs, f, n - 1), (n - 1) as real, Get(xs[n - 1], f));
    }
  }

  lemma MovedStep(c: real, d: real, sum: real, n: real, x: real)
    ensures Square(x - d) + Moved(c, d, sum, n) == Square(x - c) + Moved(c, d, sum + x, n + 1.0)
  {
  }

  // What holds of one field after `n` results: the average starts at the first result.
  predicate Tracks(xs: seq<Result>, f: Field, n: nat, average: real, moment2: real)
    requires n <= |xs| && xs != []
  {
    && (if n == 0 then average == Get(xs[0], f) else Times(average, n as real) == Sum(xs, f, n))
    && moment2 == Deviations(xs, f, average, n)
  }

  lemma ShiftTimes(a: real, x: real, n: nat)
    ensures Times(Shifted(a, x, n + 1), (n + 1) as real) == Times(a, n as real) + x
  {
    var c := (n + 1) as real;
    assert (x - a) / c * c == x - a;
    assert Shifted(a, x, n + 1) * c == a * c + (x - a) / c * c;
  }

  // Moving to the new average and adding the new distance is what the product of the two deltas adds.
  lemma DeltaProduct(a: real, b: real, x: real, n: real)
    requires Times(b, n + 1.0) == Times(a, n) + x
    ensures Times(x - a, x - b) == Moved(a, b, Times(a, n), n) + Square(x - b)
  {
    assert Moved(a, b, a * n, n) == n * Square(a - b);
    assert x - b == n * (b - a);
    assert n * Square(a - b) == (x - b) * (b - a);
  }

  lemma TracksNext(xs: seq<Result>, f: Field, n: nat, average: real, moment2: real)
    requires n < |xs| && Tracks(xs, f, n, average, moment2)
    ensures Tracks(xs, f, n + 1, Shifted(average, Get(xs[n], f), n + 1), Grown(moment2, average, Get(xs[n], f), n + 1))
  {
    assert Times(average, 0.0) == 0.0;
    hide Times, Shifted, Square, Moved, Get;
    var x := Get(xs[n], f);
    var b := Shifted(average, x, n + 1);
    ShiftTimes(average, x, n);
    assert Times(average, n as real) == Sum(xs, f, n);
    MoveReference(xs, f, average, b, n);
    DeltaProduct(average, b, x, n as real);
  }

  lemma TracksAll(xs: seq<Result>, f: Field, average: real, moment2: real)
    requires xs != [] && Tracks(xs, f, |xs|, average, moment2)
    ensures average == Mean(xs, f) && moment2 == Deviations(xs, f, average, |xs|)
  {
    var c := |xs| as real;
    assert Sum(xs, f, |xs|) == average * c;
    assert average * c / c == average;
  }

  predicate AllTrack(xs: seq<Result>, n: nat, average: Result, moment2: Result)
    requires n <= |xs| && xs != []
  {
    forall f :: Tracks(xs, f, n, Get(average, f), Get(moment2, f))
  }

  // ---- The loop ----

  method Accumulate(run: real, average: real, moment2: real, count: nat) returns (newAverage: real, newMoment2: real)
    requires count > 0
    ensures newAverage == Shifted(average, run, count) && newMoment2 == Grown(moment2, average, run, count)
  {
    var deltaPre := run - average;
    newAverage := average + deltaPre / count as real;
    var deltaPost := run - newAverage;
    newMoment2 := moment2 + deltaPre * deltaPost;
  }

  // One turn of the loop: every field of both records is accumulated.
  method AccumulateAll(run: Result, average: Result, moment2: Result, count: nat)
    returns (newAverage: Result, newMoment2: Result)
    requires count > 0
    ensures forall f :: Get(newAverage, f) == Shifted(Get(average, f), Get(run, f), count)
    ensures forall f :: Get(newMoment2, f) == Grown(Get(moment2, f), Get(average, f), Get(run, f), count)
  {
    hide Shifted, Grown;
    var a0, m0 := Accumulate(run.init.time, average.init.time, moment2.init.time, count);
    var a1, m1 := Accumulate(run.init.rate, average.init.rate, moment2.init.rate, count);
    var a2, m2 := Accumulate(run.init.period, average.init.period, moment2.init.period, count);
    var a3, m3 := Accumulate(run.run.time, average.run.time, moment2.run.time, count);
    var a4, m4 := Accumulate(run.run.rate, average.run.rate, moment2.run.rate, count);
    var a5, m5 := Accumulate(run.run.period, average.run.period, moment2.run.period, count);
    newAverage := Result(Phase(a0, a1, a2), Phase(a3, a4, a5));
    newMoment2 := Result(Phase(m0, m1, m2), Phase(m3, m4, m5));
  }

  lemma AllTrackStart(xs: seq<Result>)
    requires xs != []
    ensures AllTrack(xs, 0, xs[0], Result(Phase(0.0, 0.0, 0.0), Phase(0.0, 0.0, 0.0)))
  {
  }

  lemma AllTrackNext(xs: seq<Result>, n: nat, average: Result, moment2: Result, newAverage: Result, newMoment2: Result)
    requires n < |xs| && AllTrack(xs, n, average, moment2)
    requires forall f :: Get(newAverage, f) == Shifted(Get(average, f), Get(xs[n], f), n + 1)
    requires forall f :: Get(newMoment2, f) == Grown(Get(moment2, f), Get(average, f), Get(xs[n], f), n + 1)
    ensures AllTrack(xs, n + 1, newAverage, newMoment2)
  {
    hide Tracks, Get, Shifted, Grown;
    forall f ensures Tracks(xs, f, n + 1, Get(newAverage, f), Get(newMoment2, f)) {
      TracksNext(xs, f, n, Get(average, f), Get(moment2, f));
    }
  }

  class BenchSuite {
    var results: seq<Result>

    constructor (results: seq<Result>)
      ensures this.results == results
    {
      this.results := results;
    }

    /** Fewer than two results report nothing; otherwise each field's exact mean and spread are reported. */
    method Log(sqrt: real -> real) returns (summary: Option<Summary>)
      requires IsRoot(sqrt)
      ensures summary.None? <==> |results| < 2
      ensures summary.Some? ==> forall f ::
                && Get(summary.value.average, f) == Mean(results, f)
                && Get(summary.value.moment2, f) == Deviations(results, f, Mean(results, f), |results|)
                && IsDeviation(Get(summary.value.stdev, f), Deviations(results, f, Mean(results, f), |results|), |results|)
    {
      if |results| < 2 {
        return None;
      }
      hide Tracks, Shifted, Grown, Mean, Deviations, IsRoot, IsDeviation;
      var n := 0;
      var average := results[0];
      var moment2 := Result(Phase(0.0, 0.0, 0.0), Phase(0.0, 0.0, 0.0));
      AllTrackStart(results);
      hide AllTrack;
      while n < |results|
        invariant n <= |results| && AllTrack(results, n, average, moment2)
      {
        var newAverage, newMoment2 := AccumulateAll(results[n], average, moment2, n + 1);
        AllTrackNext(results, n, average, moment2, newAverage, newMoment2);
        average, moment2 := newAverage, newMoment2;
        n := n + 1;
      }
      AllTrackEnd(results, average, moment2);
      var k := n as real;
      var stdev := Result(Phase(sqrt(moment2.init.time / k), sqrt(moment2.init.rate / k), sqrt(moment2.init.period / k)),
                          Phase(sqrt(moment2.run.time / k), sqrt(moment2.run.rate / k), sqrt(moment2.run.period / k)));
      forall f ensures IsDeviation(Get(stdev, f), Get(moment2, f), n) {
        RootOfVariance(sqrt, results, f, Get(moment2, f), Get(stdev, f));
      }
      return Some(Summary(average, moment2, stdev));
    }
  }

  // The number that is not negative and whose square is the mean of the sum of squares.
  predicate IsDeviation(s: real, sumOfSquares: real, n: nat)
    requires n > 0
  {
    s >= 0.0 && s * s == sumOfSquares / n as real
  }

  lemma {:induction false} DeviationsPositive(xs: seq<Result>, f: Field, c: real, n: nat)
    requires n <= |xs|
    ensures Deviations(xs, f, c, n) >= 0.0
  {
    if n > 0 { DeviationsPositive(xs, f, c, n - 1); }
  }

  lemma Quotient(m: real, k: real)
    requires m >= 0.0 && k > 0.0
    ensures m / k >= 0.0
  {
  }

  lemma RootOfVariance(sqrt: real -> real, xs: seq<Result>, f: Field, moment2: real, s: real)
    requires IsRoot(sqrt) && xs != [] && moment2 == Deviations(xs, f, Mean(xs, f), |xs|)
    requires s == sqrt(moment2 / |xs| as real)
    ensures IsDeviation(s, moment2, |xs|)
  {
    DeviationsPositive(xs, f, Mean(xs, f), |xs|);
    hide Mean, Deviations;
    Quotient(moment2, |xs| as real);
  }

  lemma AllTrackEnd(xs: seq<Result>, average: Result, moment2: Result)
    requires xs != [] && AllTrack(xs, |xs|, average, moment2)
    ensures forall f :: Get(average, f) == Mean(xs, f) && Get(moment2, f) == Deviations(xs, f, Mean(xs, f), |xs|)
  {
    hide Tracks, Mean, Deviations, Get;
    forall f ensures Get(average, f) == Mean(xs, f) && Get(moment2, f) == Deviations(xs, f, Mean(xs, f), |xs|) {
      assert Tracks(xs, f, |xs|, Get(average, f), Get(moment2, f));
      TracksAll(xs, f, Get(average, f), Get(moment2, f));
    }
  }

  lemma MeanTimes(xs: seq<Result>, f: Field)
    requires xs != []
    ensures Sum(xs, f, |xs|) == Times(Mean(xs, f), |xs| as real)
  {
    var k := |xs| as real;
    assert Sum(xs, f, |xs|) / k * k == Sum(xs, f, |xs|);
  }

  lemma LeastMove(m: real, c: real, k: real)
    requires k >= 0.0
    ensures Moved(m, c, Times(m, k), k) >= 0.0
  {
    assert Moved(m, c, m * k, k) == Square(m - c) * k;
    assert Square(m - c) >= 0.0;
  }

  /** The mean is the point from which the spread is least. */
  lemma MeanIsLeast(xs: seq<Result>, f: Field, c: real)
    requires xs != []
    ensures Deviations(xs, f, Mean(xs, f), |xs|) <= Deviations(xs, f, c, |xs|)
  {
    hide Moved, Times, Mean, Deviations, Sum;
    MoveReference(xs, f, Mean(xs, f), c, |xs|);
    MeanTimes(xs, f);
    LeastMove(Mean(xs, f), c, |xs| as real);
  }
}
