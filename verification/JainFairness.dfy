/** Jain's fairness index as examples/tcp/dctcp-example.cc computes it: 64-bit unsigned
accumulators that wrap, then one floating-point division, taken here over the reals. */
module JainFairness {

  const U64: nat := 0x1_0000_0000_0000_0000
  const U32: nat := 0x1_0000_0000

  function Wrap(n: nat): nat {
    n % U64
  }

  /** What dividing two doubles gives. */
  datatype Quotient = Finite(value: real) | Infinite | NotANumber

  function Divide(a: nat, b: nat): Quotient {
    if b > 0 then Finite(a as real / b as real) else if a > 0 then Infinite else NotANumber
  }

  // ----- the exact quantities -----

  ghost function Sum(xs: seq<nat>): nat {
    if xs == [] then 0 else Sum(xs[..|xs| - 1]) + xs[|xs| - 1]
  }

  ghost function SumSquares(xs: seq<nat>): nat {
    if xs == [] then 0 else SumSquares(xs[..|xs| - 1]) + xs[|xs| - 1] * xs[|xs| - 1]
  }

  ghost predicate AllEqual(xs: seq<nat>) {
    forall i, j :: 0 <= i < |xs| && 0 <= j < |xs| ==> xs[i] == xs[j]
  }

  /** At most one counter is not zero. */
  ghost predicate OneSender(xs: seq<nat>) {
    forall i, j :: 0 <= i < j < |xs| ==> xs[i] == 0 || xs[j] == 0
  }

  // ----- Cauchy-Schwarz -----

  /** Sum of the squared differences from `x`. */
  ghost function Differences(xs: seq<nat>, x: nat): nat {
    if xs == [] then 0 else
      var d := xs[|xs| - 1] - x;
      SquareNonNegative(d);
      Differences(xs[..|xs| - 1], x) + d * d
  }

  lemma SquareNonNegative(d: int)
    ensures d * d >= 0
    ensures d * d == 0 <==> d == 0
  {
  }

  lemma DifferenceStep(n: int, s: int, q: int, x: int, y: int)
    ensures (q + n * (x * x) - 2 * (x * s)) + (y - x) * (y - x)
            == (q + y * y) + (n + 1) * (x * x) - 2 * (x * (s + y))
  {
  }

  lemma {:induction false} DifferencesExpand(xs: seq<nat>, x: nat)
    ensures Differences(xs, x) == SumSquares(xs) + |xs| * (x * x) - 2 * (x * Sum(xs))
  {
    if xs != [] {
      DifferencesExpand(xs[..|xs| - 1], x);
      DifferenceStep(|xs| - 1, Sum(xs[..|xs| - 1]), SumSquares(xs[..|xs| - 1]), x, xs[|xs| - 1]);
    }
  }

  lemma {:induction false} DifferencesZero(xs: seq<nat>, x: nat)
    ensures Differences(xs, x) == 0 <==> forall i :: 0 <= i < |xs| ==> xs[i] == x
  {
    if xs != [] {
      DifferencesZero(xs[..|xs| - 1], x);
      SquareNonNegative(xs[|xs| - 1] - x);
      assert forall i :: 0 <= i < |xs| - 1 ==> xs[..|xs| - 1][i] == xs[i];
    }
  }

  /** By how much `n` times the sum of squares exceeds the squared sum. */
  ghost function Gap(xs: seq<nat>): int {
    |xs| * SumSquares(xs) - Sum(xs) * Sum(xs)
  }

  lemma GapIdentity(n: int, s: int, q: int, x: int)
    ensures (n + 1) * (q + x * x) - (s + x) * (s + x) == (n * q - s * s) + (q + n * (x * x) - 2 * (x * s))
  {
  }

  lemma GapStep(xs: seq<nat>)
    requires xs != []
    ensures Gap(xs) == Gap(xs[..|xs| - 1]) + Differences(xs[..|xs| - 1], xs[|xs| - 1])
  {
    var init, x := xs[..|xs| - 1], xs[|xs| - 1];
    DifferencesExpand(init, x);
    GapIdentity(|init|, Sum(init), SumSquares(init), x);
  }

  /** Cauchy-Schwarz for these sums, with its case of equality. */
  lemma {:induction false} CauchySchwarz(xs: seq<nat>)
    ensures Gap(xs) >= 0
    ensures Gap(xs) == 0 <==> AllEqual(xs)
  {
    if xs != [] {
      var init, x := xs[..|xs| - 1], xs[|xs| - 1];
      hide Gap;
      CauchySchwarz(init);
      GapStep(xs);
      DifferencesZero(init, x);
      LastEqual(xs);
    } else {
      assert Gap(xs) == 0;
    }
  }

  lemma LastEqual(xs: seq<nat>)
    requires xs != []
    ensures var init, x := xs[..|xs| - 1], xs[|xs| - 1];
            AllEqual(xs) <==> AllEqual(init) && forall i :: 0 <= i < |init| ==> init[i] == x
  {
  }

  /** The squared sum is at least the sum of squares, by the cross terms. */
  lemma {:induction false} CrossTerms(xs: seq<nat>)
    ensures Sum(xs) * Sum(xs) >= SumSquares(xs)
    ensures Sum(xs) * Sum(xs) == SumSquares(xs) <==> OneSender(xs)
    ensures Sum(xs) == 0 <==> forall i :: 0 <= i < |xs| ==> xs[i] == 0
  {
    if xs != [] {
      var init, x := xs[..|xs| - 1], xs[|xs| - 1];
      CrossTerms(init);
      CrossStep(Sum(init), x);
      OneSenderLast(xs);
    }
  }

  lemma CrossStep(s: nat, x: nat)
    ensures (s + x) * (s + x) == s * s + x * x + 2 * (s * x)
    ensures s * x >= 0
    ensures s * x == 0 <==> s == 0 || x == 0
  {
  }

  lemma OneSenderLast(xs: seq<nat>)
    requires xs != []
    ensures var init, x := xs[..|xs| - 1], xs[|xs| - 1];
            && (OneSender(xs) <==> OneSender(init) && (x == 0 || forall i :: 0 <= i < |init| ==> init[i] == 0))
            && ((forall i :: 0 <= i < |xs| ==> xs[i] == 0) <==> x == 0 && forall i :: 0 <= i < |init| ==> init[i] == 0)
  {
  }

  // ----- the index the program prints -----

  /** What the division yields on 64-bit arithmetic. */
  ghost function Index(xs: seq<nat>): Quotient {
    Divide(Wrap(Sum(xs) * Sum(xs)), Wrap(|xs| * SumSquares(xs)))
  }

  /** What it yields on unbounded integers. */
  ghost function Exact(xs: seq<nat>): Quotient {
    Divide(Sum(xs) * Sum(xs), |xs| * SumSquares(xs))
  }

  /** Neither of the two products wraps; by Cauchy-Schwarz the second decides. */
  ghost predicate Fits(xs: seq<nat>) {
    |xs| * SumSquares(xs) < U64
  }

  lemma FitsIff(xs: seq<nat>)
    ensures Fits(xs) <==> Sum(xs) * Sum(xs) < U64 && |xs| * SumSquares(xs) < U64
  {
    CauchySchwarz(xs);
  }

  lemma Ratio(a: nat, b: nat, n: nat)
    requires n > 0 && 0 < b && a <= b && b <= n * a
    ensures var v := a as real / b as real;
            && 1.0 / n as real <= v <= 1.0
            && (v == 1.0 <==> a == b)
            && (v == 1.0 / n as real <==> n * a == b)
  {
    var ra, rb, rn := a as real, b as real, n as real;
    var u := 1.0 / rn;
    CompareQuotient(ra, rb, 1.0);
    CompareQuotient(ra, rb, u);
    assert 1.0 * rb == rb;
    assert (n * a) as real == rn * ra;
    CompareScaled(ra, rb, rn);
  }

  lemma CompareQuotient(a: real, b: real, u: real)
    requires b > 0.0
    ensures (a / b == u <==> a == u * b) && (a / b <= u <==> a <= u * b) && (u <= a / b <==> u * b <= a)
  {
  }

  lemma CompareScaled(a: real, b: real, n: real)
    requires n > 0.0
    ensures (a == (1.0 / n) * b <==> n * a == b) && ((1.0 / n) * b <= a <==> b <= n * a)
  {
  }

  /** Exact arithmetic gives a fairness index: between 1/n and 1, 1 exactly when all flows got
      the same, 1/n exactly when one flow got everything. */
  lemma ExactRange(xs: seq<nat>)
    requires Sum(xs) > 0
    ensures Exact(xs).Finite?
    ensures var v := Exact(xs).value;
            && 1.0 / |xs| as real <= v <= 1.0
            && (v == 1.0 <==> AllEqual(xs))
            && (v == 1.0 / |xs| as real <==> OneSender(xs))
  {
    CauchySchwarz(xs);
    CrossTerms(xs);
    hide Sum, SumSquares, AllEqual, OneSender;
    var a, b, n := Sum(xs) * Sum(xs), |xs| * SumSquares(xs), |xs|;
    Positive(Sum(xs), Sum(xs));
    Scale(n, SumSquares(xs), a);
    assert Gap(xs) == b - a;
    Ratio(a, b, n);
  }

  // ----- when the printed value is right -----

  /** Dividing the wrapped products gives what dividing the products does: the wrapped divisor
      is not zero, and the parts cut off are in the same proportion as the parts kept. */
  predicate KeepsRatio(a: nat, b: nat) {
    Wrap(b) != 0 && Wrap(a) * (b / U64) == Wrap(b) * (a / U64)
  }

  ghost predicate PrintedRight(xs: seq<nat>) {
    KeepsRatio(Sum(xs) * Sum(xs), |xs| * SumSquares(xs))
  }

  lemma QuotientsEqual(x: nat, y: nat, u: nat, v: nat)
    requires y > 0 && v > 0
    ensures x as real / y as real == u as real / v as real <==> x * v == u * y
  {
    var rx, ry, ru, rv := x as real, y as real, u as real, v as real;
    var q := ru / rv;
    assert q * rv == ru;
    CompareQuotient(rx, ry, q);
    assert (q * ry) * rv == ru * ry;
    assert rx == q * ry <==> rx * rv == (q * ry) * rv;
    assert (x * v) as real == rx * rv && (u * y) as real == ru * ry;
  }

  lemma CancelWrap(a: nat, b: nat)
    ensures Wrap(a) * b == a * Wrap(b) <==> Wrap(a) * (b / U64) == Wrap(b) * (a / U64)
  {
    var wa, wb, qa, qb := Wrap(a), Wrap(b), a / U64, b / U64;
    assert a == qa * U64 + wa && b == qb * U64 + wb;
    assert wa * (qb * U64 + wb) == (wa * qb) * U64 + wa * wb;
    assert (qa * U64 + wa) * wb == (wb * qa) * U64 + wa * wb;
  }

  lemma KeepsRatioIff(a: nat, b: nat)
    requires b > 0
    ensures Divide(Wrap(a), Wrap(b)) == Divide(a, b) <==> KeepsRatio(a, b)
  {
    if Wrap(b) != 0 {
      QuotientsEqual(Wrap(a), Wrap(b), a, b);
      CancelWrap(a, b);
      hide Wrap;
    }
  }

  /** The printed index is the exact one if and only if the products keep their ratio. */
  lemma IndexRightIff(xs: seq<nat>)
    requires Sum(xs) > 0
    ensures Index(xs) == Exact(xs) <==> PrintedRight(xs)
  {
    CauchySchwarz(xs);
    Positive(Sum(xs), Sum(xs));
    hide Wrap, Divide, Sum, SumSquares, KeepsRatio;
    assert Gap(xs) == |xs| * SumSquares(xs) - Sum(xs) * Sum(xs);
    KeepsRatioIff(Sum(xs) * Sum(xs), |xs| * SumSquares(xs));
  }

  /** Products that fit keep their ratio; if only one wraps, it is the second, and the printed
      value is always wrong. */
  lemma WrapCases(xs: seq<nat>)
    requires Sum(xs) > 0
    ensures Fits(xs) ==> PrintedRight(xs)
    ensures Sum(xs) * Sum(xs) < U64 <= |xs| * SumSquares(xs) ==> !PrintedRight(xs)
    ensures Sum(xs) * Sum(xs) >= U64 ==> |xs| * SumSquares(xs) >= U64
  {
    CauchySchwarz(xs);
    Positive(Sum(xs), Sum(xs));
    hide Sum, SumSquares, AllEqual;
    var a, b := Sum(xs) * Sum(xs), |xs| * SumSquares(xs);
    assert Gap(xs) == b - a;
    if a < U64 <= b {
      Positive(Wrap(a), b / U64);
      assert Wrap(b) * (a / U64) == 0;
    }
  }

  /** So the printed value is in range, with both extreme cases, whenever the products keep
      their ratio, and in particular while they fit. */
  lemma IndexRange(xs: seq<nat>)
    requires Sum(xs) > 0 && PrintedRight(xs)
    ensures Index(xs).Finite?
    ensures var v := Index(xs).value;
            && 1.0 / |xs| as real <= v <= 1.0
            && (v == 1.0 <==> AllEqual(xs))
            && (v == 1.0 / |xs| as real <==> OneSender(xs))
  {
    IndexRightIff(xs);
    ExactRange(xs);
    hide *;
  }

  /** Equal flows: the index is still 1 after both products wrap, unless they wrap to zero. */
  lemma EqualFlows(xs: seq<nat>, c: nat)
    requires xs != [] && c > 0 && forall i :: 0 <= i < |xs| ==> xs[i] == c
    ensures Exact(xs) == Finite(1.0)
    ensures Index(xs) == if Wrap((|xs| * c) * (|xs| * c)) != 0 then Finite(1.0) else NotANumber
  {
    var n := |xs|;
    ConstantSums(xs, c);
    Positive(n, c);
    Positive(n * c, n * c);
    SquareOfProduct(n, c);
    hide Wrap, Divide, Sum, SumSquares;
    DivideSelf((n * c) * (n * c));
    DivideSelf(Wrap((n * c) * (n * c)));
  }

  lemma SquareOfProduct(n: nat, c: nat)
    ensures n * (n * (c * c)) == (n * c) * (n * c)
  {
  }

  lemma DivideSelf(p: nat)
    ensures Divide(p, p) == if p != 0 then Finite(1.0) else NotANumber
  {
  }

  lemma Positive(a: nat, b: nat)
    requires a > 0 && b > 0
    ensures a * b > 0
  {
  }

  lemma Scale(n: nat, a: nat, b: nat)
    requires n > 0 && a <= b
    ensures n * a <= n * b && (n * a == n * b <==> a == b)
  {
  }

  ghost predicate Small(xs: seq<nat>) {
    forall i :: 0 <= i < |xs| ==> |xs| * xs[i] < U32
  }

  lemma {:induction false} SquaresBelow(xs: seq<nat>, n: nat, bound: nat)
    requires forall i :: 0 <= i < |xs| ==> n * xs[i] <= bound
    ensures n * n * SumSquares(xs) <= |xs| * (bound * bound)
  {
    if xs != [] {
      var init, x := xs[..|xs| - 1], xs[|xs| - 1];
      assert forall i :: 0 <= i < |init| ==> init[i] == xs[i];
      SquaresBelow(init, n, bound);
      BelowStep(n, x, bound);
      assert n * n * (SumSquares(init) + x * x) == n * n * SumSquares(init) + n * n * (x * x);
      assert |xs| * (bound * bound) == |init| * (bound * bound) + bound * bound;
    }
  }

  lemma BelowStep(n: nat, x: nat, bound: nat)
    requires n * x <= bound
    ensures n * n * (x * x) <= bound * bound
  {
  }

  lemma Monotone(a: nat, b: nat, c: nat)
    requires b <= c
    ensures a * b <= a * c
  {
  }

  /** If every counter is below 2^32 / n, nothing wraps. */
  lemma SmallFits(xs: seq<nat>)
    requires Small(xs)
    ensures Fits(xs)
  {
    if xs != [] {
      var n, q, m := |xs|, SumSquares(xs), U32 - 1;
      SquaresBelow(xs, n, m);
      assert n * n * q == n * (n * q);
      if n * q > m * m {
        Monotone(n, m * m + 1, n * q);
        assert false;
      }
    }
  }

  /** Ten flows that got 2^32 bytes each are perfectly fair, but both products wrap to zero and
      the program divides zero by zero. */
  lemma WrapLosesFairness(xs: seq<nat>)
    requires |xs| == 10 && forall i :: 0 <= i < 10 ==> xs[i] == 4294967296
    ensures Exact(xs) == Finite(1.0) && Index(xs) == NotANumber && !PrintedRight(xs)
  {
    EqualFlows(xs, U32);
    ConstantSums(xs, U32);
    assert 10 * (10 * (U32 * U32)) == 100 * U64;
    assert (10 * U32) * (10 * U32) == 100 * U64;
  }

  lemma {:induction false} ConstantSums(xs: seq<nat>, c: nat)
    requires forall i :: 0 <= i < |xs| ==> xs[i] == c
    ensures Sum(xs) == |xs| * c && SumSquares(xs) == |xs| * (c * c)
  {
    if xs != [] {
      ConstantSums(xs[..|xs| - 1], c);
      assert |xs| * c == (|xs| - 1) * c + c;
      assert |xs| * (c * c) == (|xs| - 1) * (c * c) + c * c;
    }
  }

  // ----- modular arithmetic -----

  lemma WrapAdd(a: nat, b: nat)
    ensures Wrap(Wrap(a) + b) == Wrap(a + b) && Wrap(a + Wrap(b)) == Wrap(a + b)
  {
    var k, m := a / U64, b / U64;
    assert a == k * U64 + Wrap(a) && b == m * U64 + Wrap(b);
    WrapShift(Wrap(a) + b, k);
    WrapShift(a + Wrap(b), m);
  }

  lemma {:induction false} WrapShift(a: nat, k: nat)
    ensures Wrap(k * U64 + a) == Wrap(a)
  {
    if k > 0 {
      WrapShift(a, k - 1);
      assert k * U64 + a == (k - 1) * U64 + a + U64;
    }
  }

  lemma WrapMul(a: nat, b: nat)
    ensures Wrap(a * Wrap(b)) == Wrap(a * b)
  {
    var m := b / U64;
    assert b == m * U64 + Wrap(b);
    assert a * b == (a * m) * U64 + a * Wrap(b);
    WrapShift(a * Wrap(b), a * m);
  }

  // ----- the counters -----

  ghost predicate IsU64(xs: seq<nat>) {
    forall i :: 0 <= i < |xs| ==> xs[i] < U64
  }

  /** One flow group's part of `PrintFairness`. */
  method Fairness(rxBytes: array<nat>) returns (fairness: Quotient)
    requires IsU64(rxBytes[..])
    ensures fairness == Index(rxBytes[..])
  {
    hide Wrap, Sum, SumSquares;
    var n, sum, sumSquares := rxBytes.Length, 0, 0;
    AccumulateStart(rxBytes[..]);
    ghost var xs := rxBytes[..];
    for i := 0 to n
      invariant sum == Wrap(Sum(xs[..i])) && sumSquares == Wrap(SumSquares(xs[..i]))
    {
      AccumulateStep(xs, i);
      sum := Wrap(sum + rxBytes[i]);
      sumSquares := Wrap(sumSquares + Wrap(rxBytes[i] * rxBytes[i]));
    }
    assert xs[..n] == xs;
    WrapMul(n, SumSquares(xs));
    WrapSquare(Sum(xs));
    fairness := Divide(Wrap(sum * sum), Wrap(n * sumSquares));
  }

  lemma AccumulateStart(xs: seq<nat>)
    ensures Wrap(Sum(xs[..0])) == Wrap(SumSquares(xs[..0])) == 0
  {
  }

  lemma AccumulateStep(xs: seq<nat>, i: nat)
    requires i < |xs|
    ensures Wrap(Wrap(Sum(xs[..i])) + xs[i]) == Wrap(Sum(xs[..i + 1]))
    ensures Wrap(Wrap(SumSquares(xs[..i])) + Wrap(xs[i] * xs[i])) == Wrap(SumSquares(xs[..i + 1]))
  {
    hide Wrap;
    assert xs[..i + 1][..i] == xs[..i];
    WrapAdd(Sum(xs[..i]), xs[i]);
    WrapAdd(SumSquares(xs[..i]), xs[i] * xs[i]);
    WrapAdd(Wrap(SumSquares(xs[..i])), xs[i] * xs[i]);
  }

  lemma WrapSquare(a: nat)
    ensures Wrap(Wrap(a) * Wrap(a)) == Wrap(a * a)
  {
    WrapMul(Wrap(a), a);
    WrapMul(a, a);
    assert Wrap(a) * a == a * Wrap(a);
  }

  datatype Group = S1R1 | S2R2 | S3R1

  /** A packet of `size` bytes reaches flow `index` of a group. */
  datatype Arrival = Arrival(group: Group, index: nat, size: nat)

  function Flows(group: Group): nat {
    match group
    case S1R1 => 10
    case S2R2 => 20
    case S3R1 => 10
  }

  ghost predicate ValidArrivals(arrivals: seq<Arrival>) {
    forall i :: 0 <= i < |arrivals| ==> arrivals[i].index < Flows(arrivals[i].group)
  }

  /** What each arrival brings one flow: its size if it is for that flow, otherwise nothing. */
  ghost function Shares(arrivals: seq<Arrival>, group: Group, index: nat): (r: seq<nat>)
    ensures |r| == |arrivals|
    ensures forall i :: 0 <= i < |r| ==>
              r[i] == if arrivals[i].group == group && arrivals[i].index == index then arrivals[i].size else 0
  {
    seq(|arrivals|, i requires 0 <= i < |arrivals| =>
      if arrivals[i].group == group && arrivals[i].index == index then arrivals[i].size else 0)
  }

  /** All bytes one flow received. */
  ghost function Received(arrivals: seq<Arrival>, group: Group, index: nat): nat {
    Sum(Shares(arrivals, group, index))
  }

  lemma ReceivedSnoc(arrivals: seq<Arrival>, a: Arrival, group: Group, index: nat)
    ensures Received(arrivals + [a], group, index)
            == Received(arrivals, group, index) + if a.group == group && a.index == index then a.size else 0
  {
    var before, after := Shares(arrivals, group, index), Shares(arrivals + [a], group, index);
    assert after[..|after| - 1] == before;
  }

  /** A flow that no arrival is for has received nothing; a flow that one arrival is for has
      received its size. */
  lemma {:induction false} ReceivedNothing(arrivals: seq<Arrival>, group: Group, index: nat)
    requires forall i :: 0 <= i < |arrivals| ==> arrivals[i].group != group || arrivals[i].index != index
    ensures Received(arrivals, group, index) == 0
    ensures forall size :: Received(arrivals + [Arrival(group, index, size)], group, index) == size
  {
    if arrivals != [] {
      var init, last := arrivals[..|arrivals| - 1], arrivals[|arrivals| - 1];
      ReceivedNothing(init, group, index);
      ReceivedSnoc(init, last, group, index);
      assert arrivals == init + [last];
    }
    forall size
      ensures Received(arrivals + [Arrival(group, index, size)], group, index) == size
    {
      ReceivedSnoc(arrivals, Arrival(group, index, size), group, index);
    }
  }

  /** What a group's 64-bit counters can tell of it. */
  ghost function Counts(arrivals: seq<Arrival>, group: Group): (r: seq<nat>)
    ensures |r| == Flows(group) && forall i :: 0 <= i < |r| ==> r[i] == Wrap(Received(arrivals, group, i))
  {
    seq(Flows(group), i requires 0 <= i < Flows(group) => Wrap(Received(arrivals, group, i)))
  }

  /** The counters after an arrival: if it is for their group, its flow's has its size added, in
      64 bits. */
  ghost function Grown(counters: seq<nat>, a: Arrival, hit: bool): seq<nat>
    requires hit ==> a.index < |counters|
  {
    if hit then counters[a.index := (counters[a.index] + a.size) % 0x1_0000_0000_0000_0000] else counters
  }

  lemma CountsStep(arrivals: seq<Arrival>, a: Arrival, group: Group)
    requires a.index < Flows(a.group)
    ensures Counts(arrivals + [a], group)
            == Grown(Counts(arrivals, group), a, a.group == group)
  {
    forall i | 0 <= i < Flows(group)
      ensures Counts(arrivals + [a], group)[i]
              == if a.group == group && i == a.index then Wrap(Counts(arrivals, group)[i] + a.size)
                 else Counts(arrivals, group)[i]
    {
      ReceivedSnoc(arrivals, a, group, i);
      WrapAdd(Received(arrivals, group, i), a.size);
      hide Wrap, Received;
    }
  }

  /** The three flow groups of the program. */
  class Counters {
    const rxS1R1Bytes: array<nat>
    const rxS2R2Bytes: array<nat>
    const rxS3R1Bytes: array<nat>

    ghost predicate Valid()
      reads this
    {
      && rxS1R1Bytes.Length == 10 && rxS2R2Bytes.Length == 20 && rxS3R1Bytes.Length == 10
      && rxS1R1Bytes != rxS3R1Bytes
    }

    /** Each flow's counter holds its bytes, modulo 2^64. */
    ghost predicate Counted(arrivals: seq<Arrival>)
      reads this, rxS1R1Bytes, rxS2R2Bytes, rxS3R1Bytes
    {
      && rxS1R1Bytes[..] == Counts(arrivals, S1R1)
      && rxS2R2Bytes[..] == Counts(arrivals, S2R2)
      && rxS3R1Bytes[..] == Counts(arrivals, S3R1)
    }

    constructor ()
      ensures Valid() && fresh(rxS1R1Bytes) && fresh(rxS2R2Bytes) && fresh(rxS3R1Bytes)
    {
      rxS1R1Bytes := new nat[10](_ => 0);
      rxS2R2Bytes := new nat[20](_ => 0);
      rxS3R1Bytes := new nat[10](_ => 0);
    }

    method TraceS1R1Sink(index: nat, size: nat)
      requires Valid() && index < rxS1R1Bytes.Length
      modifies rxS1R1Bytes
      ensures rxS1R1Bytes[..] == old(rxS1R1Bytes[..])[index := (old(rxS1R1Bytes[index]) + size) % 0x1_0000_0000_0000_0000]
    {
      rxS1R1Bytes[index] := Wrap(rxS1R1Bytes[index] + size);
    }

    method TraceS2R2Sink(index: nat, size: nat)
      requires Valid() && index < rxS2R2Bytes.Length
      modifies rxS2R2Bytes
      ensures rxS2R2Bytes[..] == old(rxS2R2Bytes[..])[index := (old(rxS2R2Bytes[index]) + size) % 0x1_0000_0000_0000_0000]
    {
      rxS2R2Bytes[index] := Wrap(rxS2R2Bytes[index] + size);
    }

    method TraceS3R1Sink(index: nat, size: nat)
      requires Valid() && index < rxS3R1Bytes.Length
      modifies rxS3R1Bytes
      ensures rxS3R1Bytes[..] == old(rxS3R1Bytes[..])[index := (old(rxS3R1Bytes[index]) + size) % 0x1_0000_0000_0000_0000]
    {
      rxS3R1Bytes[index] := Wrap(rxS3R1Bytes[index] + size);
    }

    /** The sink that an arrival reaches, by group: no other flow's counter changes. */
    method TraceSink(a: Arrival, ghost before: seq<Arrival>)
      requires Valid() && Counted(before) && a.index < Flows(a.group)
      modifies rxS1R1Bytes, rxS2R2Bytes, rxS3R1Bytes
      ensures Counted(before + [a])
      ensures rxS1R1Bytes[..] == Grown(old(rxS1R1Bytes[..]), a, a.group == S1R1)
      ensures rxS2R2Bytes[..] == Grown(old(rxS2R2Bytes[..]), a, a.group == S2R2)
      ensures rxS3R1Bytes[..] == Grown(old(rxS3R1Bytes[..]), a, a.group == S3R1)
    {
      CountsStep(before, a, S1R1);
      CountsStep(before, a, S2R2);
      CountsStep(before, a, S3R1);
      hide Counts;
      match a.group {
        case S1R1 => TraceS1R1Sink(a.index, a.size);
        case S2R2 => TraceS2R2Sink(a.index, a.size);
        case S3R1 => TraceS3R1Sink(a.index, a.size);
      }
    }

    method InitializeCounters()
      requires Valid()
      modifies rxS1R1Bytes, rxS2R2Bytes, rxS3R1Bytes
      ensures forall i :: 0 <= i < 10 ==> rxS1R1Bytes[i] == 0
      ensures forall i :: 0 <= i < 20 ==> rxS2R2Bytes[i] == 0
      ensures forall i :: 0 <= i < 10 ==> rxS3R1Bytes[i] == 0
      ensures Counted([])
    {
      ZeroAll(rxS1R1Bytes);
      ZeroAll(rxS2R2Bytes);
      ZeroAll(rxS3R1Bytes);
    }

    method ZeroAll(counters: array<nat>)
      modifies counters
      ensures forall i :: 0 <= i < counters.Length ==> counters[i] == 0
    {
      for i := 0 to counters.Length
        invariant forall j :: 0 <= j < i ==> counters[j] == 0
      {
        counters[i] := 0;
      }
    }

    method PrintFairness() returns (s1r1: Quotient, s2r2: Quotient, s3r1: Quotient)
      requires Valid() && IsU64(rxS1R1Bytes[..]) && IsU64(rxS2R2Bytes[..]) && IsU64(rxS3R1Bytes[..])
      ensures s1r1 == Index(rxS1R1Bytes[..]) && s2r2 == Index(rxS2R2Bytes[..]) && s3r1 == Index(rxS3R1Bytes[..])
    {
      s1r1 := Fairness(rxS1R1Bytes);
      s2r2 := Fairness(rxS2R2Bytes);
      s3r1 := Fairness(rxS3R1Bytes);
    }

    /** A measurement window: counters are reset, packets arrive in any order, and the three
        indexes are printed. */
    method MeasurementWindow(arrivals: seq<Arrival>) returns (s1r1: Quotient, s2r2: Quotient, s3r1: Quotient)
      requires Valid() && ValidArrivals(arrivals)
      modifies rxS1R1Bytes, rxS2R2Bytes, rxS3R1Bytes
      ensures Counted(arrivals)
      ensures forall i :: 0 <= i < 10 ==> rxS1R1Bytes[i] == Sum(Shares(arrivals, S1R1, i)) % 0x1_0000_0000_0000_0000
      ensures forall i :: 0 <= i < 20 ==> rxS2R2Bytes[i] == Sum(Shares(arrivals, S2R2, i)) % 0x1_0000_0000_0000_0000
      ensures forall i :: 0 <= i < 10 ==> rxS3R1Bytes[i] == Sum(Shares(arrivals, S3R1, i)) % 0x1_0000_0000_0000_0000
      ensures s1r1 == Index(Counts(arrivals, S1R1))
      ensures s2r2 == Index(Counts(arrivals, S2R2))
      ensures s3r1 == Index(Counts(arrivals, S3R1))
    {
      InitializeCounters();
      for i := 0 to |arrivals|
        invariant Counted(arrivals[..i])
      {
        TraceSink(arrivals[i], arrivals[..i]);
        assert arrivals[..i + 1] == arrivals[..i] + [arrivals[i]];
      }
      assert arrivals[..|arrivals|] == arrivals;
      s1r1, s2r2, s3r1 := PrintFairness();
    }
  }

  /** If no flow received more than its share of 2^32 bytes, the counters are exact, nothing
      wraps, and the printed index of a group that received anything is its fairness index. */
  lemma WindowIsExact(arrivals: seq<Arrival>, group: Group)
    requires forall i :: 0 <= i < Flows(group) ==> Flows(group) * Received(arrivals, group, i) < 4294967296
    ensures forall i :: 0 <= i < Flows(group) ==> Counts(arrivals, group)[i] == Received(arrivals, group, i)
    ensures Fits(Counts(arrivals, group))
    ensures Sum(Counts(arrivals, group)) > 0 ==> Index(Counts(arrivals, group)) == Exact(Counts(arrivals, group))
  {
    var xs := Counts(arrivals, group);
    forall i | 0 <= i < |xs|
      ensures xs[i] == Received(arrivals, group, i)
    {
      assert Received(arrivals, group, i) <= Flows(group) * Received(arrivals, group, i);
    }
    SmallFits(xs);
    if Sum(xs) > 0 {
      WrapCases(xs);
      IndexRightIff(xs);
    }
  }

  /** A group that received nothing has zero divided by zero printed. */
  lemma QuietGroup(arrivals: seq<Arrival>, group: Group)
    requires forall i :: 0 <= i < |arrivals| ==> arrivals[i].group != group
    ensures Index(Counts(arrivals, group)) == NotANumber
  {
    var xs := Counts(arrivals, group);
    forall i: nat | i < |xs|
      ensures xs[i] == 0
    {
      ReceivedNothing(arrivals, group, i);
    }
    ConstantSums(xs, 0);
  }
}
