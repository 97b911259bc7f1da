/** `BenchSuite::Log` of utils/bench-scheduler.cc over the reals: Welford's running average
and second moment, for the six fields of a result at once. */
module BenchStatistics {

  datatype Phase = Phase(time: real, rate: real, period: real)
  datatype Result = Result(init: Phase, run: Phase)

  datatype Field = InitTime | InitRate | InitPeriod | RunTime | RunRate | RunPeriod

  function Get(r: Result, f: Field): real {
    match f
    case InitTime => r.init.time
    case InitRate => r.init.rate
    case InitPeriod => r.init.period
    case RunTime => r.run.time
    case RunRate => r.run.rate
    case RunPeriod => r.run.period
  }

  // ----- the textbook quantities -----

  ghost function Sum(xs: seq<real>): real {
    if xs == [] then 0.0 else Sum(xs[..|xs| - 1]) + xs[|xs| - 1]
  }

  ghost function SumSquares(xs: seq<real>): real {
    if xs == [] then 0.0 else SumSquares(xs[..|xs| - 1]) + Square(xs[|xs| - 1])
  }

  ghost function Square(x: real): real {
    x * x
  }

  ghost function Mean(xs: seq<real>): real
    requires xs != []
  {
    Sum(xs) / |xs| as real
  }

  /** Sum of the squared deviations of `xs` from `m`. */
  ghost function Deviations(xs: seq<real>, m: real): real {
    if xs == [] then 0.0 else
      Deviations(xs[..|xs| - 1], m) + Square(xs[|xs| - 1] - m)
  }

  /** Deviations from `m` of `n` samples with sum `s` and sum of squares `q`. */
  ghost function Spread(n: real, m: real, s: real, q: real): real {
    q - 2.0 * (m * s) + n * (m * m)
  }

  lemma ExpandStep(n: real, m: real, s: real, q: real, x: real)
    ensures Spread(n, m, s, q) + Square(x - m) == Spread(n + 1.0, m, s + x, q + Square(x))
  {
  }

  lemma {:induction false} DeviationsExpand(xs: seq<real>, m: real)
    ensures Deviations(xs, m) == Spread(|xs| as real, m, Sum(xs), SumSquares(xs))
  {
    if xs != [] {
      hide Spread, Square;
      var init, x := xs[..|xs| - 1], xs[|xs| - 1];
      DeviationsExpand(init, m);
      ExpandStep(|init| as real, m, Sum(init), SumSquares(init), x);
      assert |xs| as real == |init| as real + 1.0;
    }
  }

  lemma SquareNonNegative(x: real)
    ensures Square(x) >= 0.0
  {
  }

  lemma {:induction false} DeviationsNonNegative(xs: seq<real>, m: real)
    ensures Deviations(xs, m) >= 0.0
  {
    hide Square;
    if xs != [] {
      DeviationsNonNegative(xs[..|xs| - 1], m);
      SquareNonNegative(xs[|xs| - 1] - m);
    }
  }

  lemma ShiftStep(n: real, mean: real, m: real, s: real, q: real)
    requires n * mean == s
    ensures Spread(n, m, s, q) == Spread(n, mean, s, q) + n * Square(m - mean)
  {
  }

  lemma SquareZero(d: real)
    ensures Square(d) == 0.0 <==> d == 0.0
  {
    SquareEven(d);
    hide Square;
    if d > 0.0 {
      SquarePositive(d);
    } else if d < 0.0 {
      SquarePositive(-d);
    } else {
      SquareOfZero();
    }
  }

  lemma SquarePositive(d: real)
    requires d > 0.0
    ensures Square(d) > 0.0
  {
    PositiveProduct(d, d, Square(d));
  }

  lemma PositiveProduct(x: real, y: real, product: real)
    requires x > 0.0 && y > 0.0 && product == x * y
    ensures product > 0.0
  {
  }

  lemma SquareOfZero()
    ensures Square(0.0) == 0.0
  {
  }

  lemma SquareEven(d: real)
    ensures Square(-d) == Square(d)
  {
    SignsCancel(d, d);
  }

  lemma SignsCancel(x: real, y: real)
    ensures (-x) * (-y) == x * y
  {
  }

  /** There is no deviation exactly when every sample is the mean. */
  lemma {:induction false} NoDeviation(xs: seq<real>, m: real)
    ensures Deviations(xs, m) == 0.0 <==> forall i :: 0 <= i < |xs| ==> xs[i] == m
  {
    if xs != [] {
      var init, d := xs[..|xs| - 1], xs[|xs| - 1] - m;
      NoDeviation(init, m);
      DeviationsNonNegative(init, m);
      SquareNonNegative(d);
      SquareZero(d);
      hide Square;
      assert forall i :: 0 <= i < |init| ==> init[i] == xs[i];
    }
  }

  /** Mean and deviations of two samples. */
  lemma TwoSamples(a: real, b: real)
    ensures Mean([a, b]) == (a + b) / 2.0
    ensures Deviations([a, b], (a + b) / 2.0) == (a - b) * (a - b) / 2.0
  {
    var m := (a + b) / 2.0;
    assert [a, b][..1] == [a] && [a][..0] == [];
    HalfSquares(a, b, m);
    hide Square;
    assert Sum([a]) == 0.0 + a;
    assert Deviations([a], m) == 0.0 + Square(a - m);
    assert Deviations([a, b], m) == Deviations([a], m) + Square(b - m);
  }

  lemma HalfSquares(a: real, b: real, m: real)
    requires m == (a + b) / 2.0
    ensures Square(a - m) + Square(b - m) == (a - b) * (a - b) / 2.0
  {
    var d := (a - b) / 2.0;
    assert a - m == d && b - m == -d;
    SignsCancel(d, d);
    assert (a - b) * (a - b) == (2.0 * d) * (2.0 * d) == 4.0 * (d * d);
  }

  /** The mean is where the squared deviations are smallest, and by how much. */
  lemma MeanMinimises(xs: seq<real>, mean: real, m: real)
    requires xs != [] && mean == Mean(xs)
    ensures Deviations(xs, m) == Deviations(xs, mean) + |xs| as real * Square(m - mean)
    ensures Deviations(xs, mean) <= Deviations(xs, m)
  {
    MeanTimesCount(xs);
    hide *;
    Shift(xs, mean, m);
  }

  lemma Shift(xs: seq<real>, mean: real, m: real)
    requires |xs| as real * mean == Sum(xs)
    ensures Deviations(xs, m) == Deviations(xs, mean) + |xs| as real * Square(m - mean)
    ensures Deviations(xs, mean) <= Deviations(xs, m)
  {
    hide *;
    DeviationsExpand(xs, m);
    DeviationsExpand(xs, mean);
    ShiftStep(|xs| as real, mean, m, Sum(xs), SumSquares(xs));
    SquareNonNegative(m - mean);
    ProductNonNegative(|xs| as real, Square(m - mean));
  }

  lemma ProductNonNegative(a: real, b: real)
    requires a >= 0.0 && b >= 0.0
    ensures a * b >= 0.0
  {
  }

  lemma MeanTimesCount(xs: seq<real>)
    requires xs != []
    ensures |xs| as real * Mean(xs) == Sum(xs)
  {
    TimesQuotient(Sum(xs), |xs| as real);
  }

  lemma TimesQuotient(s: real, n: real)
    requires n > 0.0
    ensures n * (s / n) == s
  {
  }

  // ----- the running form -----

  /** What the two accumulators of a field hold after `xs`.  Before the first sample any
      average will do, so seeding it with the first sample is harmless. */
  ghost predicate Running(xs: seq<real>, average: real, moment2: real) {
    |xs| as real * average == Sum(xs) && moment2 == Deviations(xs, average)
  }

  lemma UpdateStep(n: real, a: real, b: real, s: real, q: real, x: real)
    requires n * a == s && (n + 1.0) * b == s + x
    ensures Spread(n + 1.0, b, s + x, q + Square(x)) == Spread(n, a, s, q) + (x - a) * (x - b)
  {
  }

  lemma SpreadSnoc(xs: seq<real>, x: real, m: real)
    ensures Deviations(xs + [x], m) == Spread(|xs| as real + 1.0, m, Sum(xs) + x, SumSquares(xs) + Square(x))
  {
    hide Spread, Square;
    assert (xs + [x])[..|xs + [x]| - 1] == xs;
    assert |xs + [x]| as real == |xs| as real + 1.0;
    assert Sum(xs + [x]) == Sum(xs) + x;
    assert SumSquares(xs + [x]) == SumSquares(xs) + Square(x);
    DeviationsExpand(xs + [x], m);
  }

  /** The update identity: deviations from the old mean and the new one multiply to exactly
      what the second moment grows by. */
  lemma WelfordStep(xs: seq<real>, average: real, x: real, next: real)
    requires |xs| as real * average == Sum(xs)
    requires (|xs| as real + 1.0) * next == Sum(xs) + x
    ensures Deviations(xs + [x], next) == Deviations(xs, average) + (x - average) * (x - next)
  {
    hide *;
    SpreadSnoc(xs, x, next);
    DeviationsExpand(xs, average);
    UpdateStep(|xs| as real, average, next, Sum(xs), SumSquares(xs), x);
  }

  /** The `ACCUMULATE` macro for one field. */
  method Accumulate(x: real, average: real, moment2: real, count: nat, ghost xs: seq<real>)
    returns (average': real, moment2': real)
    requires count == |xs| + 1 && Running(xs, average, moment2)
    ensures Running(xs + [x], average', moment2')
  {
    hide Running;
    var deltaPre := x - average;
    average' := average + deltaPre / count as real;
    var deltaPost := x - average';
    moment2' := moment2 + deltaPre * deltaPost;
    RunningStep(xs, average, moment2, x, average');
  }

  lemma RunningStep(xs: seq<real>, average: real, moment2: real, x: real, next: real)
    requires Running(xs, average, moment2)
    requires next == average + (x - average) / (|xs| + 1) as real
    ensures Running(xs + [x], next, moment2 + (x - average) * (x - next))
  {
    hide Deviations, Sum;
    AverageStep(|xs| as real, average, x, Sum(xs), next);
    WelfordStep(xs, average, x, next);
    SumSnoc(xs, x);
    assert |xs + [x]| as real == |xs| as real + 1.0;
  }

  lemma SumSnoc(xs: seq<real>, x: real)
    ensures Sum(xs + [x]) == Sum(xs) + x
  {
  }

  lemma AverageStep(n: real, average: real, x: real, s: real, next: real)
    requires n >= 0.0 && n * average == s
    requires next == average + (x - average) / (n + 1.0)
    ensures (n + 1.0) * next == s + x
  {
    var m, q := n + 1.0, (x - average) / (n + 1.0);
    TimesQuotient(x - average, m);
    Distribute(m, average, q);
    assert m * average == n * average + average;
  }

  lemma Distribute(a: real, b: real, c: real)
    ensures a * (b + c) == a * b + a * c
  {
  }

  // ----- the loop -----

  ghost function Samples(results: seq<Result>, f: Field): (xs: seq<real>)
    ensures |xs| == |results| && forall i :: 0 <= i < |xs| ==> xs[i] == Get(results[i], f)
  {
    seq(|results|, i requires 0 <= i < |results| => Get(results[i], f))
  }

  ghost predicate AllRunning(results: seq<Result>, average: Result, moment2: Result) {
    forall f :: Running(Samples(results, f), Get(average, f), Get(moment2, f))
  }

  datatype Option<T> = None | Some(value: T)

  /** Average and variance of every field; the source prints the variance's square root.
      With fewer than two results it prints nothing. */
  method Log(results: seq<Result>) returns (summary: Option<(Result, Result)>)
    ensures summary == None <==> |results| < 2
    ensures summary.Some? ==> Summary(results, summary.value.0, summary.value.1)
  {
    if |results| < 2 { return None; }
    hide Summary, Over;
    var average := results[0];
    var moment2 := Result(Phase(0.0, 0.0, 0.0), Phase(0.0, 0.0, 0.0));
    assert AllRunning(results[..0], average, moment2);
    hide AllRunning;
    for n := 0 to |results|
      invariant AllRunning(results[..n], average, moment2)
    {
      average, moment2 := AccumulateAll(results[n], average, moment2, n + 1, results[..n]);
      assert results[..n] + [results[n]] == results[..n + 1];
    }
    assert results[..|results|] == results;
    Summarised(results, average, moment2);
    summary := Some((average, Over(moment2, |results| as real)));
  }

  function Over(r: Result, n: real): Result
    requires n != 0.0
  {
    Result(Phase(r.init.time / n, r.init.rate / n, r.init.period / n),
           Phase(r.run.time / n, r.run.rate / n, r.run.period / n))
  }

  /** `average` holds the means, and `variance` the mean squared deviations from them. */
  ghost predicate Summary(results: seq<Result>, average: Result, variance: Result)
    requires results != []
  {
    forall f ::
      && Get(average, f) == Mean(Samples(results, f))
      && Get(variance, f) * |results| as real == Deviations(Samples(results, f), Mean(Samples(results, f)))
      && Get(variance, f) >= 0.0
  }

  lemma Summarised(results: seq<Result>, average: Result, moment2: Result)
    requires results != [] && AllRunning(results, average, moment2)
    ensures Summary(results, average, Over(moment2, |results| as real))
  {
    hide Running, Mean, Deviations;
    var variance := Over(moment2, |results| as real);
    forall f: Field
      ensures Get(average, f) == Mean(Samples(results, f))
      ensures Get(variance, f) * |results| as real == Deviations(Samples(results, f), Mean(Samples(results, f)))
      ensures Get(variance, f) >= 0.0
    {
      assert Get(variance, f) == Get(moment2, f) / |results| as real;
      RunningIsMean(Samples(results, f), Get(average, f), Get(moment2, f));
    }
  }

  lemma RunningIsMean(xs: seq<real>, average: real, moment2: real)
    requires xs != [] && Running(xs, average, moment2)
    ensures average == Mean(xs)
    ensures (moment2 / |xs| as real) * |xs| as real == Deviations(xs, Mean(xs))
    ensures moment2 / |xs| as real >= 0.0
  {
    DeviationsNonNegative(xs, average);
    Quotient(average, Sum(xs), |xs| as real);
  }

  lemma Quotient(a: real, s: real, n: real)
    requires n > 0.0 && n * a == s
    ensures a == s / n
  {
  }

  /** The six expansions of the macro in the loop body. */
  method AccumulateAll(run: Result, average: Result, moment2: Result, count: nat, ghost before: seq<Result>)
    returns (average': Result, moment2': Result)
    requires count == |before| + 1 && AllRunning(before, average, moment2)
    ensures AllRunning(before + [run], average', moment2')
  {
    hide Running;
    forall f: Field
      ensures Running(Samples(before, f), Get(average, f), Get(moment2, f))
      ensures Samples(before + [run], f) == Samples(before, f) + [Get(run, f)]
    {
    }
    var a1, m1 := Accumulate(run.init.time, average.init.time, moment2.init.time, count, Samples(before, InitTime));
    var a2, m2 := Accumulate(run.init.rate, average.init.rate, moment2.init.rate, count, Samples(before, InitRate));
    var a3, m3 := Accumulate(run.init.period, average.init.period, moment2.init.period, count, Samples(before, InitPeriod));
    var a4, m4 := Accumulate(run.run.time, average.run.time, moment2.run.time, count, Samples(before, RunTime));
    var a5, m5 := Accumulate(run.run.rate, average.run.rate, moment2.run.rate, count, Samples(before, RunRate));
    var a6, m6 := Accumulate(run.run.period, average.run.period, moment2.run.period, count, Samples(before, RunPeriod));
    average' := Result(Phase(a1, a2, a3), Phase(a4, a5, a6));
    moment2' := Result(Phase(m1, m2, m3), Phase(m4, m5, m6));
    forall f: Field
      ensures Running(Samples(before + [run], f), Get(average', f), Get(moment2', f))
    {
    }
  }
}
