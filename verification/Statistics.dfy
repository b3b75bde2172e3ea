/**
  Sums, means and squared deviations of integer samples, over exact reals, and the
  inequalities that decide which samples an outlier test may reject.
 */
module Statistics {
  // ---------- Definitions ----------

  function Sq(x: real): (y: real)
    ensures y >= 0.0
  {
    x * x
  }

  /** The sum of f over the samples, accumulated left to right. */
  function Add(s: seq<int>, f: int -> real): real {
    if s == [] then 0.0 else Add(s[..|s| - 1], f) + f(s[|s| - 1])
  }

  function Value(): int -> real {
    x => x as real
  }

  function Square(): int -> real {
    x => Sq(x as real)
  }

  /** The squared distance of a sample from c. */
  function SqDistance(c: real): int -> real {
    x => Sq(x as real - c)
  }

  function Sum(s: seq<int>): real {
    Add(s, Value())
  }

  /** The sum of squared distances of the samples from c. */
  function SqDev(s: seq<int>, c: real): real {
    Add(s, SqDistance(c))
  }

  function Mean(s: seq<int>): real
    requires s != []
  {
    Sum(s) / |s| as real
  }

  function Variance(s: seq<int>): real
    requires s != []
  {
    SqDev(s, Mean(s)) / |s| as real
  }

  /** The samples that satisfy p, in order. */
  function Select(s: seq<int>, p: int -> bool): seq<int> {
    if s == [] then []
    else if p(s[|s| - 1]) then Select(s[..|s| - 1], p) + [s[|s| - 1]]
    else Select(s[..|s| - 1], p)
  }

  function Not(p: int -> bool): int -> bool {
    x => !p(x)
  }

  function And(p: int -> bool, q: int -> bool): int -> bool {
    x => p(x) && q(x)
  }

  /** The outlier test with squared threshold f: x is at most sqrt(f) standard deviations from the mean. */
  predicate Within(s: seq<int>, f: real, x: int)
    requires s != []
  {
    Sq(x as real - Mean(s)) <= f * Variance(s)
  }

  function Inlier(s: seq<int>, f: real): int -> bool
    requires s != []
  {
    x => Within(s, f, x)
  }

  function Outlier(s: seq<int>, f: real): int -> bool
    requires s != []
  {
    Not(Inlier(s, f))
  }

  predicate Between(s: seq<int>, lo: int, hi: int) {
    forall x :: x in s ==> lo <= x <= hi
  }

  /** A non-negative square root, as the C and Python libraries provide it. */
  ghost predicate IsSquareRoot(root: real -> real) {
    forall v: real :: v >= 0.0 ==> root(v) >= 0.0 && root(v) * root(v) == v
  }

  /** m is the quotient t / n, without dividing. */
  predicate Ratio(m: real, n: real, t: real) {
    m * n == t
  }

  // ---------- Real arithmetic ----------

  function Abs(x: real): (y: real)
    ensures y >= 0.0
  {
    if x < 0.0 then -x else x
  }

  lemma SignOfProduct(n: real, w: real)
    requires n > 0.0
    ensures n * w >= 0.0 <==> w >= 0.0
    ensures n * w == 0.0 <==> w == 0.0
  {
  }

  lemma NonNegativeProduct(x: real, y: real)
    requires x >= 0.0 && y >= 0.0
    ensures x * y >= 0.0
  {
  }

  lemma ProductOfDifference(n: real, x: real, y: real)
    ensures n * (y - x) == y * n - x * n
  {
  }

  lemma ProductOrder(n: real, x: real, y: real, p: real, q: real)
    requires n > 0.0 && p == x * n && q == y * n
    ensures p < q <==> x < y
  {
    var w := y - x;
    ProductOfDifference(n, x, y);
    SignOfProduct(n, w);
    assert n * w == q - p;
  }

  lemma LessCancel(n: real, x: real, y: real)
    requires n > 0.0 && n * x <= n * y
    ensures x <= y
  {
    assert n * (y - x) >= 0.0;
  }

  lemma EqualCancel(n: real, x: real, y: real)
    requires n > 0.0 && n * x == n * y
    ensures x == y
  {
    assert n * (x - y) == 0.0;
  }

  lemma PositiveCancel(a: real, b: real, v: real)
    requires v >= 0.0 && a * v > b * v
    ensures a > b
  {
    calc {
      (a - b) * v;
      a * v - b * v;
    }
  }

  lemma Quotient(a: real, n: real)
    requires n > 0.0
    ensures (a / n) * n == a
    ensures a >= 0.0 ==> a / n >= 0.0
  {
  }

  lemma ScaledSquare(n: real, d: real)
    ensures Sq(n * d) == n * (n * Sq(d))
    ensures Sq(-d) == Sq(d)
  {
  }

  lemma SquareOrder(a: real, b: real)
    requires 0.0 <= b < a
    ensures Sq(b) < Sq(a)
  {
    assert Sq(a) - Sq(b) == (a - b) * (a + b);
    SignOfProduct(a - b, a + b);
  }

  lemma SquareWithin(a: real, b: real)
    requires -b <= a <= b
    ensures Sq(a) <= Sq(b)
  {
    assert Sq(b) - Sq(a) == (b - a) * (b + a);
    NonNegativeProduct(b - a, b + a);
  }

  lemma SquarePositive(d: real)
    requires d != 0.0
    ensures Sq(d) > 0.0
  {
    hide Sq;
    ScaledSquare(1.0, d);
    if d > 0.0 { SquareOrder(d, 0.0); } else { SquareOrder(-d, 0.0); }
  }

  lemma RootOrder(a: real, b: real)
    requires b >= 0.0 && Sq(a) <= Sq(b)
    ensures -b <= a <= b
  {
    if a > b { SquareOrder(a, b); }
    if a < -b { SquareOrder(-a, b); }
  }

  lemma RootOf(root: real -> real, v: real)
    requires IsSquareRoot(root) && v >= 0.0
    ensures root(v) >= 0.0 && Sq(root(v)) == v
  {
  }

  // ---------- Sums over samples ----------

  lemma AddSnoc(s: seq<int>, x: int, f: int -> real)
    ensures Add(s + [x], f) == Add(s, f) + f(x)
  {
    assert (s + [x])[..|s|] == s;
  }

  lemma {:induction false} AddAppend(s: seq<int>, t: seq<int>, f: int -> real)
    ensures Add(s + t, f) == Add(s, f) + Add(t, f)
  {
    if t == [] {
      assert s + t == s;
    } else {
      var front, x := t[..|t| - 1], t[|t| - 1];
      AddAppend(s, front, f);
      assert s + t == (s + front) + [x];
      AddSnoc(s + front, x, f);
    }
  }

  lemma {:induction false} SelectMembers(s: seq<int>, p: int -> bool)
    ensures forall x :: x in Select(s, p) <==> x in s && p(x)
  {
    if s != [] {
      assert s == s[..|s| - 1] + [s[|s| - 1]];
      SelectMembers(s[..|s| - 1], p);
    }
  }

  lemma {:induction false} SelectNothing(s: seq<int>, p: int -> bool)
    requires forall x :: x in s ==> !p(x)
    ensures Select(s, p) == []
  {
    if s != [] {
      var front, x := s[..|s| - 1], s[|s| - 1];
      assert x in s && forall y :: y in front ==> y in s;
      SelectNothing(front, p);
    }
  }

  lemma {:induction false} AddSplit(s: seq<int>, p: int -> bool, f: int -> real)
    ensures |Select(s, p)| + |Select(s, Not(p))| == |s|
    ensures Add(Select(s, p), f) + Add(Select(s, Not(p)), f) == Add(s, f)
  {
    if s != [] {
      var front, x := s[..|s| - 1], s[|s| - 1];
      AddSplit(front, p, f);
      AddSnoc(Select(front, p), x, f);
      AddSnoc(Select(front, Not(p)), x, f);
    }
  }

  /** n copies of b, added up. */
  function Times(n: nat, b: real): real {
    if n == 0 then 0.0 else Times(n - 1, b) + b
  }

  lemma {:induction false} TimesIsProduct(n: nat, b: real)
    ensures Times(n, b) == n as real * b
  {
    if n != 0 {
      TimesIsProduct(n - 1, b);
      assert n as real * b == (n - 1) as real * b + b;
    }
  }

  lemma {:induction false} AddAtLeast(s: seq<int>, f: int -> real, lo: real)
    requires forall x :: x in s ==> lo <= f(x)
    ensures Times(|s|, lo) <= Add(s, f)
  {
    if s != [] {
      var front, x := s[..|s| - 1], s[|s| - 1];
      assert x in s && forall y :: y in front ==> y in s;
      AddAtLeast(front, f, lo);
    }
  }

  lemma {:induction false} AddAtMost(s: seq<int>, f: int -> real, hi: real)
    requires forall x :: x in s ==> f(x) <= hi
    ensures Add(s, f) <= Times(|s|, hi)
  {
    if s != [] {
      var front, x := s[..|s| - 1], s[|s| - 1];
      assert x in s && forall y :: y in front ==> y in s;
      AddAtMost(front, f, hi);
    }
  }

  lemma {:induction false} AddNonNegative(s: seq<int>, g: int -> real)
    requires forall x :: g(x) >= 0.0
    ensures Add(s, g) >= 0.0
  {
    if s != [] { AddNonNegative(s[..|s| - 1], g); }
  }

  lemma SqDevNonNegative(s: seq<int>, c: real)
    ensures SqDev(s, c) >= 0.0
  {
    AddNonNegative(s, SqDistance(c));
  }

  // ---------- Algebra of squared deviations ----------

  /** The squared deviation from c of n numbers with sum t and sum of squares q. */
  function Expanded(q: real, t: real, n: real, c: real): real {
    q - 2.0 * c * t + n * (c * c)
  }

  lemma ExpandStep(q: real, t: real, n: real, x: real, c: real)
    ensures Expanded(q + Sq(x), t + x, n + 1.0, c) == Expanded(q, t, n, c) + Sq(x - c)
  {
  }

  lemma {:induction false} SqDevExpand(s: seq<int>, c: real)
    ensures SqDev(s, c) == Expanded(Add(s, Square()), Sum(s), |s| as real, c)
  {
    if s != [] {
      var front, x := s[..|s| - 1], s[|s| - 1];
      SqDevExpand(front, c);
      ExpandStep(Add(front, Square()), Sum(front), |front| as real, x as real, c);
      assert |s| as real == |front| as real + 1.0;
    }
  }

  lemma ExpandShift(q: real, t: real, n: real, m: real, c: real)
    requires Ratio(m, n, t)
    ensures Expanded(q, t, n, c) == Expanded(q, t, n, m) + n * Sq(m - c)
  {
    calc {
      Expanded(q, t, n, c) - Expanded(q, t, n, m);
      2.0 * (m - c) * t + n * (c * c) - n * (m * m);
      { assert 2.0 * (m - c) * t == 2.0 * (m - c) * (m * n); }
      2.0 * (m - c) * (m * n) + n * (c * c) - n * (m * m);
      n * ((m - c) * (m - c));
    }
  }

  lemma MeanTimes(s: seq<int>)
    requires s != []
    ensures Ratio(Mean(s), |s| as real, Sum(s))
  {
    Quotient(Sum(s), |s| as real);
  }

  lemma VarianceTimes(s: seq<int>)
    requires s != []
    ensures Ratio(Variance(s), |s| as real, SqDev(s, Mean(s)))
    ensures Variance(s) >= 0.0
  {
    SqDevNonNegative(s, Mean(s));
    Quotient(SqDev(s, Mean(s)), |s| as real);
  }

  /** d measures the spread of n samples from a point, d' from their mean, shift away. */
  predicate ShiftedBy(d: real, d': real, n: real, shift: real) {
    d == d' + n * Sq(shift)
  }

  lemma ShiftedFrom(s: seq<int>, m: real, c: real)
    requires Ratio(m, |s| as real, Sum(s))
    ensures ShiftedBy(SqDev(s, c), SqDev(s, m), |s| as real, m - c)
  {
    SqDevExpand(s, c);
    SqDevExpand(s, m);
    ExpandShift(Add(s, Square()), Sum(s), |s| as real, m, c);
  }

  /** Measuring from c instead of the mean costs exactly n times the squared shift. */
  lemma ShiftedDeviation(s: seq<int>, c: real)
    requires s != []
    ensures ShiftedBy(SqDev(s, c), SqDev(s, Mean(s)), |s| as real, Mean(s) - c)
  {
    MeanTimes(s);
    ShiftedFrom(s, Mean(s), c);
  }

  /** n numbers with sum t and squared deviation d from c. */
  predicate CauchyBound(n: real, t: real, c: real, d: real) {
    Sq(t - n * c) <= n * d
  }

  lemma CauchyStep(n: real, m: real, t: real, c: real, v: real, d: real)
    requires n >= 0.0 && v >= 0.0 && Ratio(m, n, t) && d == v + n * Sq(m - c)
    ensures CauchyBound(n, t, c, d)
  {
    assert t - n * c == n * (m - c);
    assert Sq(n * (m - c)) == n * (n * Sq(m - c));
    assert n * d == n * v + n * (n * Sq(m - c));
  }

  /** The Cauchy-Schwarz inequality against the constant vector. */
  lemma CauchySchwarz(s: seq<int>, c: real)
    ensures CauchyBound(|s| as real, Sum(s), c, SqDev(s, c))
  {
    if s != [] {
      ShiftedDeviation(s, c);
      MeanTimes(s);
      SqDevNonNegative(s, Mean(s));
      CauchyStep(|s| as real, Mean(s), Sum(s), c, SqDev(s, Mean(s)), SqDev(s, c));
    }
  }

  // ---------- The outlier test without a division ----------

  /** The outlier test on n samples with sum t and sum of squares q, multiplied by n * n. */
  predicate NearMean(n: real, t: real, q: real, f: real, x: real) {
    Sq(n * x - t) <= f * (n * q - Sq(t))
  }

  /** s is n * n * q. */
  predicate TimesSquare(n: real, q: real, s: real) {
    s == n * (n * q)
  }

  lemma ClearedCentre(n: real, t: real, m: real, x: real)
    requires Ratio(m, n, t)
    ensures TimesSquare(n, Sq(x - m), Sq(n * x - t))
  {
    assert n * x - t == n * (x - m);
    ScaledSquare(n, x - m);
  }

  lemma ClearedSpread(n: real, t: real, q: real, m: real, v: real, d: real)
    requires Ratio(m, n, t) && Ratio(v, n, d) && d == Expanded(q, t, n, m)
    ensures TimesSquare(n, v, n * q - Sq(t))
  {
    assert n * (m * t) == t * t;
    assert n * (n * (m * m)) == t * t;
    assert n * d == n * q - 2.0 * (n * (m * t)) + n * (n * (m * m));
  }

  lemma ClearedTest(n: real, e: real, v: real, f: real, e': real, v': real)
    requires n > 0.0 && TimesSquare(n, e, e') && TimesSquare(n, v, v')
    ensures e <= f * v <==> e' <= f * v'
  {
    var w := f * v - e;
    SignOfProduct(n, w);
    SignOfProduct(n, n * w);
    assert n * w == f * (n * v) - n * e;
    assert n * (n * w) == f * (n * (n * v)) - n * (n * e);
  }

  lemma ClearedStep(n: real, t: real, q: real, m: real, v: real, d: real, f: real, x: real)
    requires n > 0.0 && Ratio(m, n, t) && Ratio(v, n, d) && d == Expanded(q, t, n, m)
    ensures Sq(x - m) <= f * v <==> NearMean(n, t, q, f, x)
  {
    hide Sq, Ratio, Expanded, TimesSquare;
    ClearedCentre(n, t, m, x);
    ClearedSpread(n, t, q, m, v, d);
    ClearedTest(n, Sq(x - m), v, f, Sq(n * x - t), n * q - Sq(t));
  }

  lemma WithinCleared(s: seq<int>, f: real, x: int)
    requires s != []
    ensures Within(s, f, x) <==> NearMean(|s| as real, Sum(s), Add(s, Square()), f, x as real)
  {
    hide Sq, Add, Mean, Variance, Ratio, Expanded, NearMean;
    MeanTimes(s);
    VarianceTimes(s);
    SqDevExpand(s, Mean(s));
    ClearedStep(|s| as real, Sum(s), Add(s, Square()), Mean(s), Variance(s), SqDev(s, Mean(s)), f, x as real);
  }

  // ---------- Bounds ----------

  lemma {:induction false} PartialSum(s: seq<int>, g: int -> real, p: int -> bool)
    requires forall x :: g(x) >= 0.0
    ensures Add(Select(s, p), g) <= Add(s, g)
  {
    if s != [] {
      var front, x := s[..|s| - 1], s[|s| - 1];
      PartialSum(front, g, p);
      assert g(x) >= 0.0;
      if p(x) { AddSnoc(Select(front, p), x, g); }
    }
  }

  lemma {:induction false} FarSum(s: seq<int>, g: int -> real, b: real, far: int -> bool)
    requires forall x :: far(x) ==> g(x) > b
    ensures Times(|Select(s, far)|, b) <= Add(Select(s, far), g)
    ensures Select(s, far) != [] ==> Times(|Select(s, far)|, b) < Add(Select(s, far), g)
  {
    if s != [] {
      var front, x := s[..|s| - 1], s[|s| - 1];
      FarSum(front, g, b, far);
      if far(x) {
        assert g(x) > b;
        AddSnoc(Select(front, far), x, g);
      }
    }
  }

  lemma ChebyshevStep(n: real, k: real, f: real, v: real, b: real, d: real)
    requires v >= 0.0 && b == f * v && Ratio(v, n, d) && k * b < d
    ensures f * k < n
  {
    assert k * b == (f * k) * v;
    PositiveCancel(n, f * k, v);
  }

  lemma FarSamplesAreFew(s: seq<int>, m: real, v: real, f: real, b: real, far: int -> bool)
    requires s != [] && v >= 0.0 && Ratio(v, |s| as real, SqDev(s, m)) && b == f * v
    requires forall x :: far(x) ==> SqDistance(m)(x) > b
    ensures f * |Select(s, far)| as real < |s| as real
  {
    hide Sq, Ratio, Add, Select, Times;
    var k := |Select(s, far)|;
    if k == 0 {
      assert f * 0.0 == 0.0;
    } else {
      FarSum(s, SqDistance(m), b, far);
      PartialSum(s, SqDistance(m), far);
      TimesIsProduct(k, b);
      ChebyshevStep(|s| as real, k as real, f, v, b, SqDev(s, m));
    }
  }

  /** Chebyshev's inequality: fewer than n / f of the n samples fail a test with squared threshold f. */
  lemma Chebyshev(s: seq<int>, f: real)
    requires s != []
    ensures f * |Select(s, Outlier(s, f))| as real < |s| as real
  {
    VarianceTimes(s);
    FarSamplesAreFew(s, Mean(s), Variance(s), f, f * Variance(s), Outlier(s, f));
  }

  lemma MeanStep(n: real, t: real, m: real, lo: real, hi: real)
    requires n > 0.0 && Ratio(m, n, t) && n * lo <= t <= n * hi
    ensures lo <= m <= hi
  {
    assert (m - lo) * n >= 0.0;
    assert (hi - m) * n >= 0.0;
  }

  lemma MeanBetween(s: seq<int>, lo: int, hi: int)
    requires s != [] && Between(s, lo, hi)
    ensures lo as real <= Mean(s) <= hi as real
  {
    AddAtLeast(s, Value(), lo as real);
    AddAtMost(s, Value(), hi as real);
    TimesIsProduct(|s|, lo as real);
    TimesIsProduct(|s|, hi as real);
    MeanTimes(s);
    MeanStep(|s| as real, Sum(s), Mean(s), lo as real, hi as real);
  }

  // ---------- Keeping a part of the sample ----------

  /** A shift d of the mean when a samples stay, k leave and v is the variance of all. */
  predicate ShiftBound(d: real, a: real, k: real, v: real) {
    Sq(d) * a <= k * v
  }

  lemma ShiftScale(n: real, a: real, k: real, e: real, da: real, db: real, v: real)
    requires a > 0.0 && k >= 0.0 && n == a + k
    requires e <= da && a * e <= k * db && v * n == da + db
    ensures e <= k * v
  {
    assert k * e <= k * da;
    assert n * e == a * e + k * e;
    assert n * (k * v) == k * (v * n) == k * da + k * db;
    LessCancel(n, e, k * v);
  }

  lemma ShiftStep(n: real, a: real, k: real, e: real, da: real, db: real, v: real)
    requires a > 0.0 && k >= 0.0 && n == a + k
    requires a * e <= a * da && a * e <= k * db && Ratio(v, n, da + db)
    ensures e <= k * v
  {
    LessCancel(a, e, da);
    ShiftScale(n, a, k, e, da, db, v);
  }

  lemma GapStep(a: real, d: real, y: real, k: real, db: real)
    requires (y == a * d || y == -(a * d)) && Sq(y) <= k * db
    ensures a * (Sq(d) * a) <= k * db
  {
    assert Sq(y) == a * (Sq(d) * a);
  }

  lemma PartGap(a: real, m: real, m': real, ta: real, da: real)
    requires Ratio(m', a, ta) && CauchyBound(a, ta, m, da)
    ensures a * (Sq(m' - m) * a) <= a * da
  {
    assert ta - a * m == a * (m' - m);
    GapStep(a, m' - m, ta - a * m, a, da);
  }

  lemma RestGap(n: real, a: real, k: real, m: real, m': real, ta: real, tb: real, db: real)
    requires n == a + k && Ratio(m', a, ta) && Ratio(m, n, ta + tb) && CauchyBound(k, tb, m, db)
    ensures a * (Sq(m' - m) * a) <= k * db
  {
    assert m * n == m * a + m * k;
    assert tb - k * m == -(a * (m' - m)) by { assert ta - a * m == a * (m' - m); }
    GapStep(a, m' - m, tb - k * m, k, db);
  }

  lemma MeanShiftStep(n: real, a: real, k: real, m: real, m': real,
                      ta: real, tb: real, da: real, db: real, v: real)
    requires a > 0.0 && k >= 0.0 && n == a + k
    requires Ratio(m', a, ta) && Ratio(m, n, ta + tb) && Ratio(v, n, da + db)
    requires CauchyBound(a, ta, m, da) && CauchyBound(k, tb, m, db)
    ensures ShiftBound(m' - m, a, k, v)
  {
    hide Sq, Ratio, CauchyBound;
    PartGap(a, m, m', ta, da);
    RestGap(n, a, k, m, m', ta, tb, db);
    ShiftStep(n, a, k, Sq(m' - m) * a, da, db, v);
  }

  /** Dropping k of n samples moves the mean by at most sqrt(k / (n - k)) standard deviations. */
  lemma SubsetMeanShift(s: seq<int>, p: int -> bool)
    requires Select(s, p) != []
    ensures s != []
    ensures var part, rest := Select(s, p), Select(s, Not(p));
            && |part| + |rest| == |s|
            && ShiftBound(Mean(part) - Mean(s), |part| as real, |rest| as real, Variance(s))
  {
    assert s != [];
    hide Sq, Add, Mean, Variance, Select, Ratio, CauchyBound, ShiftBound;
    var part, rest, m, v := Select(s, p), Select(s, Not(p)), Mean(s), Variance(s);
    AddSplit(s, p, Value());
    AddSplit(s, p, SqDistance(m));
    MeanTimes(s);
    VarianceTimes(s);
    MeanTimes(part);
    CauchySchwarz(part, m);
    CauchySchwarz(rest, m);
    MeanShiftStep(|s| as real, |part| as real, |rest| as real, m, Mean(part), Sum(part), Sum(rest),
                  SqDev(part, m), SqDev(rest, m), v);
  }

  lemma TrimSign(a: real, v: real, v': real, x: real, y: real)
    requires a > 0.0 && v * a - v' * a == x + y && x >= 0.0 && y >= 0.0
    ensures v' <= v && (x > 0.0 ==> v' < v)
  {
    ProductOrder(a, v, v', v * a, v' * a);
    ProductOrder(a, v', v, v' * a, v * a);
  }

  lemma TrimStep(n: real, a: real, rest: nat, f: real, v: real, b: real, v': real, shift: real,
                 d': real, da: real, db: real, d: real)
    requires a > 0.0 && n == a + rest as real && f >= 1.0 && v >= 0.0
    requires Ratio(f, v, b) && Ratio(v, n, d) && Ratio(v', a, d') && da + db == d && ShiftedBy(da, d', a, shift)
    requires Times(rest, b) <= db
    ensures v' <= v
    ensures Times(rest, b) < db ==> v' < v
  {
    hide Sq, Times;
    var k := rest as real;
    TimesIsProduct(rest, b);
    NonNegativeProduct(a, Sq(shift));
    NonNegativeProduct(f - 1.0, v);
    NonNegativeProduct(k, b - v);
    assert k * v <= k * b;
    assert v * n == v * a + k * v;
    TrimSign(a, v, v', db - k * v, a * Sq(shift));
  }

  lemma TrimmedBy(s: seq<int>, near: int -> bool, f: real, b: real)
    requires s != [] && f >= 1.0 && Ratio(f, Variance(s), b)
    requires forall x :: Not(near)(x) ==> SqDistance(Mean(s))(x) > b
    requires Select(s, near) != []
    ensures Variance(Select(s, near)) <= Variance(s)
    ensures Select(s, Not(near)) != [] ==> Variance(Select(s, near)) < Variance(s)
  {
    hide Sq, Add, Mean, Variance, Select, Ratio, ShiftedBy, Times;
    var part, rest, m, v := Select(s, near), Select(s, Not(near)), Mean(s), Variance(s);
    AddSplit(s, near, SqDistance(m));
    FarSum(s, SqDistance(m), b, Not(near));
    VarianceTimes(s);
    VarianceTimes(part);
    ShiftedDeviation(part, m);
    TrimStep(|s| as real, |part| as real, |rest|, f, v, b, Variance(part), Mean(part) - m,
             SqDev(part, Mean(part)), SqDev(part, m), SqDev(rest, m), SqDev(s, m));
  }

  /** Rejecting samples more than one deviation away never increases the variance. */
  lemma TrimmedVariance(s: seq<int>, f: real)
    requires s != [] && f >= 1.0
    requires Select(s, Inlier(s, f)) != []
    ensures Variance(Select(s, Inlier(s, f))) <= Variance(s)
    ensures Select(s, Outlier(s, f)) != [] ==> Variance(Select(s, Inlier(s, f))) < Variance(s)
  {
    TrimmedBy(s, Inlier(s, f), f, f * Variance(s));
  }

  lemma {:induction false} SelectCover(s: seq<int>, p: int -> bool, q: int -> bool)
    ensures |Select(s, p)| <= |Select(s, And(p, q))| + |Select(s, Not(q))|
  {
    if s != [] { SelectCover(s[..|s| - 1], p, q); }
  }

  // ---------- Order does not matter ----------

  lemma AddInsert(left: seq<int>, x: int, right: seq<int>, f: int -> real)
    ensures Add(left + [x] + right, f) == Add(left + right, f) + f(x)
  {
    hide Add;
    AddAppend(left + [x], right, f);
    AddAppend(left, right, f);
    AddSnoc(left, x, f);
  }

  lemma WithoutOne(t: seq<int>, k: nat)
    requires k < |t|
    ensures multiset(t[..k] + t[k + 1..]) == multiset(t) - multiset{t[k]}
  {
    assert t == t[..k] + [t[k]] + t[k + 1..];
  }

  lemma AddWithoutOne(t: seq<int>, k: nat, f: int -> real)
    requires k < |t|
    ensures Add(t, f) == Add(t[..k] + t[k + 1..], f) + f(t[k])
  {
    hide Add;
    AddInsert(t[..k], t[k], t[k + 1..], f);
    assert t == t[..k] + [t[k]] + t[k + 1..];
  }

  lemma {:induction false} PermutationAdd(s: seq<int>, t: seq<int>, f: int -> real)
    requires multiset(s) == multiset(t)
    ensures |s| == |t| && Add(s, f) == Add(t, f)
    decreases |s|
  {
    hide Add;
    assert |s| == |multiset(s)| == |multiset(t)| == |t|;
    if s == [] {
      assert t == s;
    } else {
      assert s[0] in multiset(t);
      var k :| 0 <= k < |t| && t[k] == s[0];
      WithoutOne(s, 0);
      WithoutOne(t, k);
      AddWithoutOne(s, 0, f);
      AddWithoutOne(t, k, f);
      PermutationAdd(s[..0] + s[1..], t[..k] + t[k + 1..], f);
    }
  }

  lemma PermutationMoments(s: seq<int>, t: seq<int>)
    requires s != [] && multiset(s) == multiset(t)
    ensures t != [] && Mean(s) == Mean(t) && Variance(s) == Variance(t)
  {
    PermutationAdd(s, t, Value());
    PermutationAdd(s, t, SqDistance(Mean(s)));
  }

  lemma {:induction false} SelectCount(s: seq<int>, p: int -> bool, x: int)
    ensures multiset(Select(s, p))[x] == if p(x) then multiset(s)[x] else 0
  {
    if s != [] {
      var front, y := s[..|s| - 1], s[|s| - 1];
      assert s == front + [y];
      SelectCount(front, p, x);
      assert multiset(s) == multiset(front) + multiset{y};
    }
  }

  lemma PermutationSelect(s: seq<int>, t: seq<int>, p: int -> bool, q: int -> bool)
    requires multiset(s) == multiset(t)
    requires forall x :: p(x) == q(x)
    ensures multiset(Select(s, p)) == multiset(Select(t, q))
  {
    forall x: int
      ensures multiset(Select(s, p))[x] == multiset(Select(t, q))[x]
    {
      SelectCount(s, p, x);
      SelectCount(t, q, x);
    }
  }

  lemma {:induction false} SelectSame(s: seq<int>, p: int -> bool, q: int -> bool)
    requires forall x :: x in s ==> p(x) == q(x)
    ensures Select(s, p) == Select(s, q)
  {
    if s != [] {
      var front, x := s[..|s| - 1], s[|s| - 1];
      assert x in s && p(x) == q(x);
      assert forall y :: y in front ==> y in s;
      SelectSame(front, p, q);
    }
  }
}
