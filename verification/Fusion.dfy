/**
  Fusing three sensors by z-score, twice: filter_outliers of src/denoiser/main.c in C and
  filter_outliers of src/server/app/coap_server.py in Python.
 */
module Fusion {
  import opened Wrappers
  import opened Statistics

  const NUM_SENSORS: nat := 3
  const Z_THRESHOLD := 1.3

  /** The squared threshold. */
  const Z2 := 1.69

  /** A Python float; numpy divides by zero to nan. */
  datatype Float = NaN | Num(value: real)

  /** A C conversion from floating point to integer: towards zero. */
  function Truncated(r: real): (n: int)
    ensures r >= 0.0 ==> 0 <= n && n as real <= r < n as real + 1.0
    ensures r < 0.0 ==> n <= 0 && n as real - 1.0 < r <= n as real
  {
    if r >= 0.0 then r.Floor else -(-r).Floor
  }

  // ---------- The exact integer form ----------

  function ISq(x: int): int {
    x * x
  }

  /** Whether the first of three readings is rejected, in integers. */
  predicate Rejects(x: int, y: int, z: int) {
    31 * ISq(2 * x - y - z) > 507 * ISq(y - z)
  }

  /** The mean of the readings that are not rejected, before any truncation. */
  function Fused(x1: int, x2: int, x3: int): real {
    if Rejects(x1, x2, x3) then (x2 + x3) as real / 2.0
    else if Rejects(x2, x1, x3) then (x1 + x3) as real / 2.0
    else if Rejects(x3, x1, x2) then (x1 + x2) as real / 2.0
    else (x1 + x2 + x3) as real / 3.0
  }

  predicate AllEqual(x1: int, x2: int, x3: int) {
    x1 == x2 == x3
  }

  // ---------- From the z-score to the integers ----------

  lemma AddThree(x1: int, x2: int, x3: int, f: int -> real)
    ensures Add([x1, x2, x3], f) == f(x1) + f(x2) + f(x3)
  {
    assert [x1, x2, x3] == [] + [x1] + [x2] + [x3];
    AddSnoc([], x1, f);
    AddSnoc([] + [x1], x2, f);
    AddSnoc([] + [x1] + [x2], x3, f);
  }

  lemma SquareCast(n: int, r: real)
    requires n as real == r
    ensures ISq(n) as real == Sq(r)
  {
  }

  lemma RejectsInReals(x: int, y: int, z: int)
    ensures Rejects(x, y, z) <==>
            31.0 * Sq(2.0 * x as real - y as real - z as real) > 507.0 * Sq(y as real - z as real)
  {
    SquareCast(2 * x - y - z, 2.0 * x as real - y as real - z as real);
    SquareCast(y - z, y as real - z as real);
  }

  /** Three squared distances from the mean, by the distance of one reading and of the other two. */
  lemma SpreadOfThree(a: real, b: real, c: real)
    ensures 2.0 * (3.0 * (Sq(a) + Sq(b) + Sq(c)) - Sq(a + b + c)) == Sq(2.0 * a - b - c) + 3.0 * Sq(b - c)
  {
  }

  lemma ZScoreStep(a: real, b: real, c: real, t: real, q: real)
    requires t == a + b + c && q == Sq(a) + Sq(b) + Sq(c)
    ensures !NearMean(3.0, t, q, Z2, a) <==> 31.0 * Sq(2.0 * a - b - c) > 507.0 * Sq(b - c)
  {
    SpreadOfThree(a, b, c);
    hide Sq;
    assert 3.0 * a - t == 2.0 * a - b - c;
  }

  /** Exactly which readings pass the z-score test. */
  lemma RejectedExactly(x1: int, x2: int, x3: int)
    ensures var s := [x1, x2, x3];
            && (!Within(s, Z2, x1) <==> Rejects(x1, x2, x3))
            && (!Within(s, Z2, x2) <==> Rejects(x2, x1, x3))
            && (!Within(s, Z2, x3) <==> Rejects(x3, x1, x2))
  {
    var s := [x1, x2, x3];
    var a, b, c, t, q := x1 as real, x2 as real, x3 as real, Sum(s), Add(s, Square());
    AddThree(x1, x2, x3, Value());
    AddThree(x1, x2, x3, Square());
    hide Sq, Add, Within, NearMean, Rejects;
    WithinCleared(s, Z2, x1);
    WithinCleared(s, Z2, x2);
    WithinCleared(s, Z2, x3);
    ZScoreStep(a, b, c, t, q);
    ZScoreStep(b, a, c, t, q);
    ZScoreStep(c, a, b, t, q);
    RejectsInReals(x1, x2, x3);
    RejectsInReals(x2, x1, x3);
    RejectsInReals(x3, x1, x2);
  }

  lemma SelectThree(x1: int, x2: int, x3: int, p: int -> bool)
    ensures Select([x1, x2, x3], p) ==
            (if p(x1) then [x1] else []) + (if p(x2) then [x2] else []) + (if p(x3) then [x3] else [])
  {
    assert [x1, x2, x3][..2] == [x1, x2] && [x1, x2][..1] == [x1] && [x1][..0] == [];
    assert Select([x1], p) == if p(x1) then [x1] else [];
    assert Select([x1, x2], p) == Select([x1], p) + if p(x2) then [x2] else [];
    assert Select([x1, x2, x3], p) == Select([x1, x2], p) + if p(x3) then [x3] else [];
  }

  lemma IntSquareOrder(p: int, q: int)
    requires -q <= p <= q || q <= p <= -q
    ensures 0 <= ISq(p) <= ISq(q)
  {
    SquareCast(p, p as real);
    SquareCast(q, q as real);
    SquareCast(-q, -(q as real));
    hide ISq, Sq;
    ScaledSquare(1.0, q as real);
    if q >= 0 { SquareWithin(p as real, q as real); } else { SquareWithin(p as real, -(q as real)); }
  }

  lemma MedianStep(x: int, y: int, z: int)
    requires y <= x <= z || z <= x <= y
    ensures !Rejects(x, y, z)
  {
    IntSquareOrder(2 * x - y - z, y - z);
    hide ISq;
  }

  /** At most one of three readings is rejected, and never the median. */
  lemma AtMostOneRejected(x1: int, x2: int, x3: int)
    ensures Rejects(x1, x2, x3) ==> !Rejects(x2, x1, x3) && !Rejects(x3, x1, x2)
    ensures Rejects(x2, x1, x3) ==> !Rejects(x3, x1, x2)
    ensures x2 <= x1 <= x3 || x3 <= x1 <= x2 ==> !Rejects(x1, x2, x3)
  {
    var s := [x1, x2, x3];
    Chebyshev(s, Z2);
    RejectedExactly(x1, x2, x3);
    SelectThree(x1, x2, x3, Outlier(s, Z2));
    if x2 <= x1 <= x3 || x3 <= x1 <= x2 { MedianStep(x1, x2, x3); }
  }

  lemma MeanOfTwo(x: int, y: int)
    ensures Mean([x] + [y]) == (x + y) as real / 2.0
    ensures [] + [x] + [y] == [x] + [] + [y] == [x] + [y] + [] == [x] + [y]
  {
    AddSnoc([], x, Value());
    AddSnoc([] + [x], y, Value());
    assert [] + [x] + [y] == [x] + [y];
  }

  lemma MeanOfThree(x: int, y: int, z: int)
    ensures Mean([x] + [y] + [z]) == (x + y + z) as real / 3.0
  {
    AddThree(x, y, z, Value());
    assert [x] + [y] + [z] == [x, y, z];
  }

  /** The z-score filter as the programs compute it. */
  lemma FusedIsMeanOfInliers(x1: int, x2: int, x3: int)
    ensures var s := [x1, x2, x3];
            && Select(s, Inlier(s, Z2)) != []
            && Mean(Select(s, Inlier(s, Z2))) == Fused(x1, x2, x3)
            && |Select(s, Inlier(s, Z2))| in {2, 3}
  {
    var s := [x1, x2, x3];
    RejectedExactly(x1, x2, x3);
    AtMostOneRejected(x1, x2, x3);
    SelectThree(x1, x2, x3, Inlier(s, Z2));
    hide Rejects, Within;
    MeanOfTwo(x1, x2);
    MeanOfTwo(x1, x3);
    MeanOfTwo(x2, x3);
    MeanOfThree(x1, x2, x3);
  }

  // ---------- What fusion guarantees ----------

  /** The fused value does not depend on which sensor is which. */
  lemma PermutationInvariant(x1: int, x2: int, x3: int, y1: int, y2: int, y3: int)
    requires multiset{x1, x2, x3} == multiset{y1, y2, y3}
    ensures Fused(x1, x2, x3) == Fused(y1, y2, y3)
    ensures AllEqual(x1, x2, x3) == AllEqual(y1, y2, y3)
  {
    var s, t := [x1, x2, x3], [y1, y2, y3];
    assert multiset(s) == multiset{x1, x2, x3} && multiset(t) == multiset{y1, y2, y3};
    PermutationMoments(s, t);
    PermutationSelect(s, t, Inlier(s, Z2), Inlier(t, Z2));
    FusedIsMeanOfInliers(x1, x2, x3);
    FusedIsMeanOfInliers(y1, y2, y3);
    PermutationMoments(Select(s, Inlier(s, Z2)), Select(t, Inlier(t, Z2)));
    hide Within, Rejects, Mean, Variance;
    assert AllEqual(x1, x2, x3) ==> y1 in multiset(s) && y2 in multiset(s) && y3 in multiset(s);
    assert AllEqual(y1, y2, y3) ==> x1 in multiset(t) && x2 in multiset(t) && x3 in multiset(t);
  }

  /** The fused value lies between the readings. */
  lemma FusedInRange(x1: int, x2: int, x3: int, lo: int, hi: int)
    requires Between([x1, x2, x3], lo, hi)
    ensures lo as real <= Fused(x1, x2, x3) <= hi as real
    ensures lo <= Truncated(Fused(x1, x2, x3)) <= hi
  {
    var s := [x1, x2, x3];
    assert x1 in s && x2 in s && x3 in s;
    hide Rejects;
  }

  lemma IntScaledSquare(a: int, p: int, r: int)
    requires r == a * p
    ensures ISq(r) == ISq(a) * ISq(p)
  {
  }

  lemma ScaledGap(n: int, p: int, q: int)
    requires n > 0
    ensures 31 * (n * p) > 507 * (n * q) <==> 31 * p > 507 * q
  {
    var gap := 31 * p - 507 * q;
    assert 31 * (n * p) - 507 * (n * q) == n * gap;
    SignOfProduct(n as real, gap as real);
    assert (n * gap) as real == n as real * gap as real;
  }

  /** A reading, or a fused value, after the change of scale and origin. */
  predicate Moved(a: int, b: int, v: real, v': real) {
    v' == a as real * v + b as real
  }

  lemma MovedSum(a: int, b: int, n: int, sum: int, sum': int)
    requires n > 0 && sum' == a * sum + n * b
    ensures Moved(a, b, sum as real / n as real, sum' as real / n as real)
  {
    var m, m', k := sum as real / n as real, sum' as real / n as real, n as real;
    Quotient(sum as real, k);
    Quotient(sum' as real, k);
    assert (a * sum) as real == a as real * sum as real;
    assert (n * b) as real == k * b as real;
    assert k * (a as real * m + b as real) == a as real * (m * k) + k * b as real;
    EqualCancel(k, m', a as real * m + b as real);
  }

  lemma MovedGaps(a: int, b: int, x: int, y: int, z: int, x': int, y': int, z': int)
    requires x' == a * x + b && y' == a * y + b && z' == a * z + b
    ensures 2 * x' - y' - z' == a * (2 * x - y - z)
    ensures y' - z' == a * (y - z)
  {
  }

  lemma RejectsScaled(a: int, x: int, y: int, z: int, x': int, y': int, z': int)
    requires a != 0 && 2 * x' - y' - z' == a * (2 * x - y - z) && y' - z' == a * (y - z)
    ensures Rejects(x', y', z') == Rejects(x, y, z)
  {
    SquareCast(a, a as real);
    SquarePositive(a as real);
    hide ISq, Sq;
    IntScaledSquare(a, 2 * x - y - z, 2 * x' - y' - z');
    IntScaledSquare(a, y - z, y' - z');
    ScaledGap(ISq(a), ISq(2 * x - y - z), ISq(y - z));
  }

  lemma MovedSums(a: int, b: int, x1: int, x2: int, x3: int, y1: int, y2: int, y3: int)
    requires y1 == a * x1 + b && y2 == a * x2 + b && y3 == a * x3 + b
    ensures Moved(a, b, (x2 + x3) as real / 2.0, (y2 + y3) as real / 2.0)
    ensures Moved(a, b, (x1 + x3) as real / 2.0, (y1 + y3) as real / 2.0)
    ensures Moved(a, b, (x1 + x2) as real / 2.0, (y1 + y2) as real / 2.0)
    ensures Moved(a, b, (x1 + x2 + x3) as real / 3.0, (y1 + y2 + y3) as real / 3.0)
  {
    hide Moved;
    MovedSum(a, b, 2, x2 + x3, y2 + y3);
    MovedSum(a, b, 2, x1 + x3, y1 + y3);
    MovedSum(a, b, 2, x1 + x2, y1 + y2);
    MovedSum(a, b, 3, x1 + x2 + x3, y1 + y2 + y3);
  }

  lemma FusedMoved(a: int, b: int, x1: int, x2: int, x3: int, y1: int, y2: int, y3: int)
    requires a != 0 && y1 == a * x1 + b && y2 == a * x2 + b && y3 == a * x3 + b
    ensures Moved(a, b, Fused(x1, x2, x3), Fused(y1, y2, y3))
  {
    hide Rejects, Moved;
    MovedGaps(a, b, x1, x2, x3, y1, y2, y3);
    MovedGaps(a, b, x2, x1, x3, y2, y1, y3);
    MovedGaps(a, b, x3, x1, x2, y3, y1, y2);
    RejectsScaled(a, x1, x2, x3, y1, y2, y3);
    RejectsScaled(a, x2, x1, x3, y2, y1, y3);
    RejectsScaled(a, x3, x1, x2, y3, y1, y2);
    MovedSums(a, b, x1, x2, x3, y1, y2, y3);
  }

  /** Fusion commutes with a change of unit and of zero point. */
  lemma AffineEquivariant(a: int, b: int, x1: int, x2: int, x3: int)
    requires a != 0
    ensures Fused(a * x1 + b, a * x2 + b, a * x3 + b) == a as real * Fused(x1, x2, x3) + b as real
  {
    hide Fused;
    FusedMoved(a, b, x1, x2, x3, a * x1 + b, a * x2 + b, a * x3 + b);
  }

  lemma SquareBound(x: real, y: real)
    requires Sq(x) <= Sq(y)
    ensures Abs(x) <= Abs(y)
  {
    ScaledSquare(1.0, y);
    RootOrder(x, Abs(y));
  }

  lemma NoneRejected(a: real, b: real, c: real)
    requires 31.0 * Sq(2.0 * a - b - c) <= 507.0 * Sq(b - c)
    ensures Abs(2.0 * a - b - c) <= 5.0 * Abs(b - c)
  {
    ScaledSquare(5.0, b - c);
    SquareBound(2.0 * a - b - c, 5.0 * (b - c));
  }

  lemma InfluenceQuadratic(e: real, q: real)
    requires 31.0 * Sq(2.0 * q - e) > 507.0 * Sq(e)
    ensures 9.0 * Sq(e - q) <= 25.0 * Sq(q)
  {
    var w := 314.0 * e + 224.0 * q;
    assert 314.0 * (507.0 * Sq(e) - 31.0 * Sq(2.0 * q - e)) ==
           314.0 * 18.0 * (9.0 * Sq(e - q) - 25.0 * Sq(q)) + Sq(w) + 1320.0 * Sq(q);
  }

  lemma RejectedOther(a: real, b: real, c: real)
    requires 31.0 * Sq(2.0 * b - a - c) > 507.0 * Sq(a - c)
    ensures 3.0 * Abs(a - b) <= 5.0 * Abs(b - c)
  {
    var e, q := a - c, b - c;
    assert 2.0 * b - a - c == 2.0 * q - e && a - b == e - q;
    InfluenceQuadratic(e, q);
    ScaledSquare(3.0, e - q);
    ScaledSquare(5.0, q);
    SquareBound(3.0 * (e - q), 5.0 * q);
  }

  /**
    One faulty sensor: whatever x1 reads, the fused value stays within 5/6 of the distance of the
    other two readings from their midpoint, whichever reading is rejected.
   */
  lemma BoundedInfluence(x1: int, x2: int, x3: int)
    ensures Abs(Fused(x1, x2, x3) - (x2 + x3) as real / 2.0) <= (5.0 / 6.0) * Abs((x2 - x3) as real)
  {
    RejectsInReals(x1, x2, x3);
    RejectsInReals(x2, x1, x3);
    RejectsInReals(x3, x1, x2);
    var a, b, c := x1 as real, x2 as real, x3 as real;
    hide Rejects, Sq;
    if Rejects(x1, x2, x3) {
      assert Fused(x1, x2, x3) == (b + c) / 2.0;
    } else if Rejects(x2, x1, x3) {
      assert Fused(x1, x2, x3) == (a + c) / 2.0;
      RejectedOther(a, b, c);
    } else if Rejects(x3, x1, x2) {
      assert Fused(x1, x2, x3) == (a + b) / 2.0;
      ScaledSquare(1.0, a - b);
      RejectedOther(a, c, b);
    } else {
      assert Fused(x1, x2, x3) == (a + b + c) / 3.0;
      NoneRejected(a, b, c);
    }
  }

  /** Two sensors that agree are always believed, whatever the third reads, in both programs. */
  lemma AgreeingSensorsWin(x1: int, v: int)
    ensures Fused(x1, v, v) == v as real && Truncated(Fused(x1, v, v)) == v
    ensures Fused(v, x1, v) == v as real && Fused(v, v, x1) == v as real
  {
    BoundedInfluence(x1, v, v);
    PermutationInvariant(x1, v, v, v, x1, v);
    PermutationInvariant(x1, v, v, v, v, x1);
  }

  // ---------- The C program ----------

  /** What the C loop keeps: not above the threshold, so everything when there is no spread. */
  function CKeeps(s: seq<int>): int -> bool
    requires s != []
  {
    x => Variance(s) == 0.0 || Within(s, Z2, x)
  }

  /** What the C program returns; nothing if it kept no reading to divide by. */
  function CResult(s: seq<int>): Option<int>
    requires s != []
  {
    var kept := Select(s, CKeeps(s));
    if kept == [] then None else Some(Truncated(Mean(kept)))
  }

  /** |d / sd| > 1.3, or a comparison with NaN, which is false. */
  predicate AboveThreshold(d: real, sd: real) {
    sd != 0.0 && Abs(d / sd) > Z_THRESHOLD
  }

  lemma AbsSquare(z: real)
    ensures Abs(z) > Z_THRESHOLD <==> Sq(z) > Z2
  {
    ScaledSquare(1.0, z);
    if Abs(z) > 1.3 {
      SquareOrder(Abs(z), 1.3);
    } else if Abs(z) < 1.3 {
      SquareOrder(1.3, Abs(z));
    }
  }

  lemma ThresholdStep(sd: real, z2: real, v: real, d2: real)
    requires sd > 0.0 && v == Sq(sd) && d2 == sd * (sd * z2)
    ensures z2 > Z2 <==> d2 > Z2 * v
  {
    SignOfProduct(sd, z2 - Z2);
    SignOfProduct(sd, sd * (z2 - Z2));
    assert sd * (sd * (z2 - Z2)) == d2 - Z2 * v;
  }

  lemma ZTest(d: real, sd: real, v: real)
    requires sd >= 0.0 && Sq(sd) == v
    ensures sd != 0.0 ==> (AboveThreshold(d, sd) <==> Sq(d) > Z2 * v)
  {
    if sd != 0.0 {
      var z := d / sd;
      Quotient(d, sd);
      ScaledSquare(sd, z);
      assert Sq(d) == sd * (sd * Sq(z)) by { assert z * sd == sd * z; }
      AbsSquare(z);
      ThresholdStep(sd, Sq(z), v, Sq(d));
    }
  }

  lemma {:induction false} MemberDeviation(s: seq<int>, x: int, g: int -> real)
    requires x in s && forall y :: g(y) >= 0.0
    ensures g(x) <= Add(s, g)
  {
    var front, last := s[..|s| - 1], s[|s| - 1];
    assert s == front + [last];
    AddNonNegative(front, g);
    if x != last { MemberDeviation(front, x, g); }
  }

  /** Without spread every reading is the mean, so nothing is above any threshold. */
  lemma NoSpread(s: seq<int>, x: int)
    requires s != [] && x in s && Variance(s) == 0.0
    ensures Within(s, Z2, x)
  {
    VarianceTimes(s);
    MemberDeviation(s, x, SqDistance(Mean(s)));
  }

  lemma SquareZero(x: real)
    ensures Sq(x) == 0.0 <==> x == 0.0
  {
    if x != 0.0 { SquarePositive(x); }
  }

  /** The literal test of the C loop. */
  lemma CTest(s: seq<int>, sd: real, x: int)
    requires s != [] && sd >= 0.0 && Sq(sd) == Variance(s)
    ensures AboveThreshold(x as real - Mean(s), sd) <==> !CKeeps(s)(x)
  {
    ZTest(x as real - Mean(s), sd, Variance(s));
    SquareZero(sd);
  }

  /** The C result in closed form: defined for every triple. */
  lemma CExact(x1: int, x2: int, x3: int)
    ensures CResult([x1, x2, x3]) == Some(Truncated(Fused(x1, x2, x3)))
  {
    var s := [x1, x2, x3];
    forall x | x in s
      ensures CKeeps(s)(x) == Inlier(s, Z2)(x)
    {
      if Variance(s) == 0.0 { NoSpread(s, x); }
    }
    hide Within, Variance, Mean, Fused, Truncated;
    SelectSame(s, CKeeps(s), Inlier(s, Z2));
    FusedIsMeanOfInliers(x1, x2, x3);
  }

  /** The third loop: how many readings pass, and their sum. */
  method KeepNear(readings: array<int16>, mean: real, stdDev: real) returns (count: nat, total: real)
    requires readings.Length == NUM_SENSORS && stdDev >= 0.0
    requires mean == Mean(readings[..]) && Sq(stdDev) == Variance(readings[..])
    ensures var kept := Select(readings[..], CKeeps(readings[..]));
            count == |kept| && total == Sum(kept)
  {
    hide Sq, Mean, Variance, AboveThreshold, Within;
    ghost var s: seq<int> := readings[..];
    count, total := NUM_SENSORS, 0.0;
    for i := 0 to NUM_SENSORS
      invariant total == Sum(Select(s[..i], CKeeps(s)))
      invariant count == NUM_SENSORS - i + |Select(s[..i], CKeeps(s))|
    {
      assert s[..i + 1][..i] == s[..i];
      CTest(s, stdDev, s[i]);
      if AboveThreshold(readings[i] as real - mean, stdDev) {
        count := count - 1;
      } else {
        AddSnoc(Select(s[..i], CKeeps(s)), s[i], Value());
        total := total + readings[i] as real;
      }
    }
    assert s[..NUM_SENSORS] == s;
  }

  lemma MeanQuotient(s: seq<int>, total: real, n: nat)
    requires s != [] && total == Sum(s) && n == |s|
    ensures total / n as real == Mean(s)
  {
  }

  /** The whole C function: its divisor is never 0 and its result fits int16. */
  method FilterOutliersC(root: real -> real, readings: array<int16>) returns (fused: int16)
    requires IsSquareRoot(root) && readings.Length == NUM_SENSORS
    ensures CResult(readings[..]) == Some(fused as int)
  {
    hide Rejects, Within, Truncated, Sq, Ratio, IsSquareRoot, Fused;
    ghost var s: seq<int> := readings[..];
    assert s == [readings[0], readings[1], readings[2]];
    var mean := 0.0;
    for i := 0 to NUM_SENSORS
      invariant mean == Sum(s[..i])
    {
      assert s[..i + 1][..i] == s[..i];
      mean := mean + readings[i] as real;
    }
    assert s[..NUM_SENSORS] == s;
    mean := mean / NUM_SENSORS as real;

    var stdDev := 0.0;
    for i := 0 to NUM_SENSORS
      invariant stdDev == SqDev(s[..i], mean)
    {
      assert s[..i + 1][..i] == s[..i];
      stdDev := stdDev + Sq(readings[i] as real - mean);
    }
    VarianceTimes(s);
    assert mean == Mean(s) && stdDev / NUM_SENSORS as real == Variance(s);
    RootOf(root, Variance(s));
    stdDev := root(stdDev / NUM_SENSORS as real);

    var count, total := KeepNear(readings, mean, stdDev);
    CExact(s[0], s[1], s[2]);
    FusedInRange(s[0], s[1], s[2], -32768, 32767);
    hide Mean, Variance;
    MeanQuotient(Select(s, CKeeps(s)), total, count);
    var newMean := total / count as real;
    fused := Truncated(newMean);
  }

  // ---------- The Python program ----------

  /** What the Python filter keeps: within the threshold, so nothing when there is no spread. */
  function PythonKeeps(s: seq<int>): int -> bool
    requires s != []
  {
    x => Variance(s) != 0.0 && Within(s, Z2, x)
  }

  /** np.mean */
  function NpMean(s: seq<int>): Float {
    if s == [] then NaN else Num(Mean(s))
  }

  /** What the Python program returns: the mean of what it keeps, nan when that is nothing. */
  function PythonResult(s: seq<int>): Float
    requires s != []
  {
    NpMean(Select(s, PythonKeeps(s)))
  }

  /** |d / sd| <= 1.3, or a comparison with nan, which is false. */
  predicate WithinThreshold(d: real, sd: real) {
    sd != 0.0 && Abs(d / sd) <= Z_THRESHOLD
  }

  lemma MemberIsMean(s: seq<int>, x: int)
    requires s != [] && x in s && SqDev(s, Mean(s)) == 0.0
    ensures x as real == Mean(s)
  {
    MemberDeviation(s, x, SqDistance(Mean(s)));
    if x as real != Mean(s) { SquarePositive(x as real - Mean(s)); }
  }

  lemma SpreadIffNotEqual(x1: int, x2: int, x3: int)
    ensures Variance([x1, x2, x3]) == 0.0 <==> AllEqual(x1, x2, x3)
  {
    var s := [x1, x2, x3];
    VarianceTimes(s);
    if AllEqual(x1, x2, x3) {
      MeanBetween(s, x1, x1);
      AddThree(x1, x2, x3, SqDistance(Mean(s)));
    } else if Variance(s) == 0.0 {
      assert SqDev(s, Mean(s)) == 0.0;
      MemberIsMean(s, x1);
      MemberIsMean(s, x2);
      MemberIsMean(s, x3);
    }
  }

  lemma PythonTest(s: seq<int>, sd: real, x: int)
    requires s != [] && sd >= 0.0 && Sq(sd) == Variance(s)
    ensures WithinThreshold(x as real - Mean(s), sd) <==> PythonKeeps(s)(x)
  {
    ZTest(x as real - Mean(s), sd, Variance(s));
    SquareZero(sd);
  }

  method FilterOutliersPython(root: real -> real, readings: seq<int>) returns (fused: Float)
    requires IsSquareRoot(root) && |readings| == NUM_SENSORS
    ensures fused == PythonResult(readings)
  {
    hide Sq, Ratio, IsSquareRoot, Within, Mean, Variance, WithinThreshold;
    var mean := Mean(readings);
    VarianceTimes(readings);
    RootOf(root, Variance(readings));
    var stdDev := root(Variance(readings));
    PythonTest(readings, stdDev, readings[0]);
    PythonTest(readings, stdDev, readings[1]);
    PythonTest(readings, stdDev, readings[2]);

    var correctValues: seq<int> := [];
    if WithinThreshold(readings[0] as real - mean, stdDev) {
      correctValues := correctValues + [readings[0]];
    }
    if WithinThreshold(readings[1] as real - mean, stdDev) {
      correctValues := correctValues + [readings[1]];
    }
    if WithinThreshold(readings[2] as real - mean, stdDev) {
      correctValues := correctValues + [readings[2]];
    }
    assert readings == [readings[0], readings[1], readings[2]];
    SelectThree(readings[0], readings[1], readings[2], PythonKeeps(readings));
    assert correctValues == Select(readings, PythonKeeps(readings));
    fused := NpMean(correctValues);
  }

  /** The Python result in closed form: nan exactly when the three readings agree. */
  lemma PythonExact(x1: int, x2: int, x3: int)
    ensures PythonResult([x1, x2, x3]) == if AllEqual(x1, x2, x3) then NaN else Num(Fused(x1, x2, x3))
  {
    var s := [x1, x2, x3];
    SpreadIffNotEqual(x1, x2, x3);
    FusedIsMeanOfInliers(x1, x2, x3);
    hide Within, Variance, Mean, Fused;
    if AllEqual(x1, x2, x3) {
      SelectNothing(s, PythonKeeps(s));
    } else {
      SelectSame(s, PythonKeeps(s), Inlier(s, Z2));
    }
  }

  /**
    On triples that are not all equal the C program returns the Python result truncated towards
    zero, which fits int16; on an all-equal triple C returns the common value and Python nan.
   */
  lemma ProgramsAgree(x1: int16, x2: int16, x3: int16)
    ensures var c, python := CResult([x1, x2, x3]), PythonResult([x1, x2, x3]);
            && c.Some? && -32768 <= c.value < 32768
            && (!AllEqual(x1, x2, x3) ==> python.Num? && c.value == Truncated(python.value))
            && (AllEqual(x1, x2, x3) ==> python == NaN && c.value == x1)
  {
    CExact(x1, x2, x3);
    PythonExact(x1, x2, x3);
    FusedInRange(x1, x2, x3, -32768, 32767);
    if AllEqual(x1, x2, x3) { FusedInRange(x1, x2, x3, x1, x1); }
  }
}
