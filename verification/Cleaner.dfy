/**
  The window cleaner of src/compute_engine/main.c, as functions of the window contents:
  which slots one round overwrites with the sentinel 0, which average it sends, and how far
  cleaning can move that average.
 */
module Cleaner {
  import opened Wrappers
  import opened Statistics

  const WINDOW_SIZE: nat := 65
  const DEVIATION_FACTOR := 2.0

  /** The squared threshold of the test |x - mean| <= DEVIATION_FACTOR * stddev. */
  const SQ_FACTOR := 4.0

  // ---------- One round ----------

  function NonZero(): int -> bool {
    x => x != 0
  }

  /** Every sample that fails p is replaced by 0. */
  function Masked(s: seq<int>, p: int -> bool): (r: seq<int>)
    ensures |r| == |s|
    ensures forall i :: 0 <= i < |s| ==> r[i] == if p(s[i]) then s[i] else 0
  {
    seq(|s|, i requires 0 <= i < |s| => if p(s[i]) then s[i] else 0)
  }

  function Cleaned(w: seq<int>): seq<int>
    requires w != []
  {
    Masked(w, Inlier(w, SQ_FACTOR))
  }

  /** The mean of the non-zero slots; the C code divides 0 by 0 when there is none. */
  function Average(c: seq<int>): Option<real> {
    var present := Select(c, NonZero());
    if present == [] then None else Some(Mean(present))
  }

  /** round(): to the nearest integer, halves away from zero. */
  function Rounded(r: real): (n: int)
    ensures -0.5 <= n as real - r <= 0.5
    ensures n as real - r == 0.5 ==> r > 0.0
    ensures n as real - r == -0.5 ==> r < 0.0
  {
    if r >= 0.0 then (r + 0.5).Floor else -(0.5 - r).Floor
  }

  function Survivors(w: seq<int>): seq<int>
    requires w != []
  {
    Select(Cleaned(w), NonZero())
  }

  /** The value one round sends for the window w, before cleaning. */
  function Outgoing(w: seq<int>): Option<int>
    requires w != []
  {
    match Average(Cleaned(w))
    case None => None
    case Some(a) => Some(Rounded(a))
  }

  // ---------- What cleaning keeps ----------

  lemma {:induction false} SelectMasked(s: seq<int>, p: int -> bool)
    ensures Select(Masked(s, p), NonZero()) == Select(s, And(p, NonZero()))
  {
    if s != [] {
      var front := s[..|s| - 1];
      SelectMasked(front, p);
      assert Masked(s, p)[..|s| - 1] == Masked(front, p);
    }
  }

  lemma SurvivorsOf(w: seq<int>)
    requires w != []
    ensures Survivors(w) == Select(w, And(Inlier(w, SQ_FACTOR), NonZero()))
  {
    SelectMasked(w, Inlier(w, SQ_FACTOR));
  }

  lemma SurvivorsFrom(w: seq<int>)
    requires w != []
    ensures forall x :: x in Survivors(w) <==> x in w && Within(w, SQ_FACTOR, x) && x != 0
  {
    SurvivorsOf(w);
    SelectMembers(w, And(Inlier(w, SQ_FACTOR), NonZero()));
  }

  /** One round rejects fewer than a quarter of the slots, and at most 16 of 65. */
  lemma RejectsFewerThanAQuarter(w: seq<int>)
    requires w != []
    ensures 4 * |Select(w, Outlier(w, SQ_FACTOR))| < |w|
    ensures |w| == WINDOW_SIZE ==> |Select(w, Outlier(w, SQ_FACTOR))| <= 16
  {
    Chebyshev(w, SQ_FACTOR);
  }

  lemma SameAnd(s: seq<int>, p: int -> bool, q: int -> bool)
    ensures Select(s, And(p, q)) == Select(s, And(q, p))
  {
    SelectSame(s, And(p, q), And(q, p));
  }

  /** A quarter of non-zero slots, 17 of 65, is enough for the average to be defined. */
  lemma QuarterKeepsAverage(w: seq<int>)
    requires w != [] && 4 * |Select(w, NonZero())| >= |w|
    ensures Average(Cleaned(w)).Some? && Outgoing(w).Some?
  {
    RejectsFewerThanAQuarter(w);
    SurvivorsOf(w);
    SelectCover(w, NonZero(), Inlier(w, SQ_FACTOR));
    SameAnd(w, NonZero(), Inlier(w, SQ_FACTOR));
  }

  /** The sum of the samples as an integer. */
  function Total(s: seq<int>): int {
    if s == [] then 0 else Total(s[..|s| - 1]) + s[|s| - 1]
  }

  lemma {:induction false} TotalIsSum(s: seq<int>)
    ensures Total(s) as real == Sum(s)
  {
    if s != [] { TotalIsSum(s[..|s| - 1]); }
  }

  /** v is the integer nearest to t / n, halves away from zero. */
  predicate Nearest(n: int, t: int, v: int) {
    var gap := 2 * (n * v - t);
    -n <= gap <= n && (gap == n ==> t > 0) && (gap == -n ==> t < 0)
  }

  lemma NextMultiple(n: int, v: int, v': int)
    requires n > 0 && v < v'
    ensures n * v + n <= n * v'
  {
    var d := v' - v - 1;
    assert n * v' - n * v - n == n * d;
    assert n * d >= 0;
  }

  lemma NearestApart(n: int, t: int, v: int, v': int)
    requires n > 0 && Nearest(n, t, v) && v < v'
    ensures !Nearest(n, t, v')
  {
    NextMultiple(n, v, v');
  }

  /** There is only one. */
  lemma NearestIsUnique(n: int, t: int, v: int, v': int)
    requires n > 0 && Nearest(n, t, v) && Nearest(n, t, v')
    ensures v == v'
  {
    if v < v' {
      NearestApart(n, t, v, v');
    } else if v' < v {
      NearestApart(n, t, v', v);
    }
  }

  lemma NearestStep(n: int, v: int, t: int, m: real)
    requires n > 0 && Ratio(m, n as real, t as real) && v == Rounded(m)
    ensures Nearest(n, t, v)
  {
    var k, d := n as real, v as real - m;
    assert (n * v) as real == k * v as real;
    assert k * v as real - t as real == k * d by { assert k * d == k * v as real - m * k; }
    NonNegativeProduct(k, 0.5 - d);
    NonNegativeProduct(k, d + 0.5);
    assert k * (0.5 - d) == 0.5 * k - k * d && k * (d + 0.5) == k * d + 0.5 * k;
    SignOfProduct(k, 0.5 - d);
    SignOfProduct(k, d + 0.5);
    SignOfProduct(k, m);
    SignOfProduct(k, -m);
  }

  /**
    What is sent is the integer nearest to the mean of the surviving slots, halves away from zero, and
    nothing exactly when no slot survives.
   */
  lemma SentIsNearestToMean(w: seq<int>)
    requires w != []
    ensures var n, t := |Survivors(w)|, Total(Survivors(w));
            && (Outgoing(w).Some? <==> n > 0)
            && (n > 0 ==> Nearest(n, t, Outgoing(w).value))
  {
    var s := Survivors(w);
    if s != [] {
      TotalIsSum(s);
      MeanTimes(s);
      hide Mean, Rounded, Ratio, Total, Cleaned, Select, Nearest;
      NearestStep(|s|, Rounded(Mean(s)), Total(s), Mean(s));
    }
  }

  /** The value sent lies between any bounds on the surviving non-zero slots. */
  lemma OutgoingInRange(w: seq<int>, lo: int, hi: int)
    requires w != [] && Between(Survivors(w), lo, hi)
    ensures Outgoing(w).Some? ==> lo <= Outgoing(w).value <= hi
  {
    if Survivors(w) != [] {
      MeanBetween(Survivors(w), lo, hi);
    }
  }

  /** ... hence within the readings in the window, and within int16. */
  lemma OutgoingIsInt16(w: seq<int16>)
    requires w != []
    ensures Outgoing(w).Some? ==> -32768 <= Outgoing(w).value < 32768
  {
    SurvivorsFrom(w);
    OutgoingInRange(w, -32768, 32767);
  }

  lemma MaskedSnoc(s: seq<int>, p: int -> bool)
    requires s != []
    ensures var front, y := s[..|s| - 1], s[|s| - 1];
            && multiset(s) == multiset(front) + multiset{y}
            && multiset(Masked(s, p)) == multiset(Masked(front, p)) + multiset{if p(y) then y else 0}
  {
    var front, y := s[..|s| - 1], s[|s| - 1];
    assert s == front + [y];
    assert Masked(s, p) == Masked(front, p) + [if p(y) then y else 0];
  }

  lemma {:induction false} MaskedCount(s: seq<int>, p: int -> bool, x: int)
    requires x != 0
    ensures multiset(Masked(s, p))[x] == if p(x) then multiset(s)[x] else 0
  {
    if s != [] {
      MaskedSnoc(s, p);
      MaskedCount(s[..|s| - 1], p, x);
    }
  }

  lemma {:induction false} MaskedZeros(s: seq<int>, p: int -> bool)
    ensures multiset(Masked(s, p))[0] == multiset(s)[0] + |Select(s, And(Not(p), NonZero()))|
  {
    if s != [] {
      MaskedSnoc(s, p);
      MaskedZeros(s[..|s| - 1], p);
    }
  }

  lemma PermutationMasked(s: seq<int>, t: seq<int>, p: int -> bool, q: int -> bool)
    requires multiset(s) == multiset(t)
    requires forall x :: p(x) == q(x)
    ensures multiset(Masked(s, p)) == multiset(Masked(t, q))
  {
    var a, b := Select(s, And(Not(p), NonZero())), Select(t, And(Not(q), NonZero()));
    PermutationSelect(s, t, And(Not(p), NonZero()), And(Not(q), NonZero()));
    assert |a| == |multiset(a)| == |multiset(b)| == |b|;
    forall x: int
      ensures multiset(Masked(s, p))[x] == multiset(Masked(t, q))[x]
    {
      if x == 0 {
        MaskedZeros(s, p);
        MaskedZeros(t, q);
      } else {
        MaskedCount(s, p, x);
        MaskedCount(t, q, x);
      }
    }
  }

  /** Neither the cursor nor the order of the slots matters to what is sent. */
  lemma OrderDoesNotMatter(w: seq<int>, w': seq<int>)
    requires w != [] && multiset(w) == multiset(w')
    ensures w' != []
    ensures multiset(Cleaned(w)) == multiset(Cleaned(w'))
    ensures Outgoing(w) == Outgoing(w')
  {
    PermutationMoments(w, w');
    assert forall x :: Within(w, SQ_FACTOR, x) == Within(w', SQ_FACTOR, x);
    PermutationMasked(w, w', Inlier(w, SQ_FACTOR), Inlier(w', SQ_FACTOR));
    var c, c' := Cleaned(w), Cleaned(w');
    PermutationSelect(c, c', NonZero(), NonZero());
    var s, s' := Select(c, NonZero()), Select(c', NonZero());
    assert |s| == |multiset(s)| == |multiset(s')| == |s'|;
    if s != [] { PermutationMoments(s, s'); }
  }

  // ---------- How far cleaning moves the statistics ----------

  /** With k slots at 0 after cleaning, (m' - m)^2 * (n - k) <= k * variance. */
  lemma MeanShift(w: seq<int>)
    requires w != [] && Survivors(w) != []
    ensures var k := |w| - |Survivors(w)|;
            ShiftBound(Mean(Survivors(w)) - Mean(w), |Survivors(w)| as real, k as real, Variance(w))
  {
    SurvivorsOf(w);
    SubsetMeanShift(w, And(Inlier(w, SQ_FACTOR), NonZero()));
  }

  lemma NothingWasZero(w: seq<int>)
    requires w != [] && 0 !in w
    ensures Survivors(w) == Select(w, Inlier(w, SQ_FACTOR))
    ensures |w| - |Survivors(w)| == |Select(w, Outlier(w, SQ_FACTOR))|
    ensures Survivors(w) != []
  {
    SurvivorsOf(w);
    SelectSame(w, And(Inlier(w, SQ_FACTOR), NonZero()), Inlier(w, SQ_FACTOR));
    AddSplit(w, Inlier(w, SQ_FACTOR), Value());
    RejectsFewerThanAQuarter(w);
  }

  lemma FourSeventhsSquares(d2: real, a: real, k: real, v: real)
    requires d2 >= 0.0 && v >= 0.0 && d2 * a <= k * v && a >= 49.0 && k <= 16.0
    ensures 49.0 * d2 <= 16.0 * v
  {
    NonNegativeProduct(d2, a - 49.0);
    NonNegativeProduct(16.0 - k, v);
  }

  lemma FourSeventhsStep(d: real, a: nat, k: nat, v: real, sigma: real)
    requires ShiftBound(d, a as real, k as real, v) && a + k == 65 && k <= 16
    requires sigma >= 0.0 && Sq(sigma) == v
    ensures -(4.0 / 7.0) * sigma <= d <= (4.0 / 7.0) * sigma
  {
    var y := (4.0 / 7.0) * sigma;
    ScaledSquare(4.0 / 7.0, sigma);
    hide Sq;
    FourSeventhsSquares(Sq(d), a as real, k as real, v);
    RootOrder(d, y);
  }

  /** A window without zeros: cleaning moves the average by at most 4/7 of a standard deviation. */
  lemma MeanShiftFourSevenths(w: seq<int>, stddev: real)
    requires |w| == WINDOW_SIZE && 0 !in w
    requires stddev >= 0.0 && Sq(stddev) == Variance(w)
    ensures Survivors(w) != []
    ensures var shift := Mean(Survivors(w)) - Mean(w);
            -(4.0 / 7.0) * stddev <= shift <= (4.0 / 7.0) * stddev
  {
    NothingWasZero(w);
    RejectsFewerThanAQuarter(w);
    MeanShift(w);
    hide ShiftBound, Sq;
    FourSeventhsStep(Mean(Survivors(w)) - Mean(w), |Survivors(w)|, |w| - |Survivors(w)|, Variance(w), stddev);
  }

  /** A window without zeros: the survivors spread no more than before, and less if any was rejected. */
  lemma VarianceContracts(w: seq<int>)
    requires w != [] && 0 !in w
    ensures Survivors(w) != []
    ensures Variance(Survivors(w)) <= Variance(w)
    ensures |Survivors(w)| < |w| ==> Variance(Survivors(w)) < Variance(w)
  {
    NothingWasZero(w);
    TrimmedVariance(w, SQ_FACTOR);
  }

  lemma ShiftCombine(d: real, d1: real, d2: real, k: real, m: real)
    requires d == d1 + d2 && ShiftedBy(d2, 0.0, k, m)
    ensures ShiftedBy(d, d1, k, m)
  {
  }

  lemma ZeroDeviation(c: seq<int>, k: nat, m: real)
    requires |Select(c, Not(NonZero()))| == k
    ensures ShiftedBy(SqDev(Select(c, Not(NonZero())), m), 0.0, k as real, m)
  {
    hide Sq, Add, Times;
    var zeros := Select(c, Not(NonZero()));
    SelectMembers(c, Not(NonZero()));
    assert forall x :: x in zeros ==> SqDistance(m)(x) == Sq(m) by {
      ScaledSquare(0.0, m);
      assert 0.0 - m == -m;
    }
    AddAtLeast(zeros, SqDistance(m), Sq(m));
    AddAtMost(zeros, SqDistance(m), Sq(m));
    TimesIsProduct(k, Sq(m));
  }

  /**
    The deviation that is recomputed after cleaning also counts the zeroed slots:
    n * stddev'^2 is the spread of the survivors plus m'^2 for every slot at 0.
   */
  lemma SecondDeviation(w: seq<int>)
    requires w != [] && Survivors(w) != []
    ensures var m' := Mean(Survivors(w));
            ShiftedBy(SqDev(Cleaned(w), m'), SqDev(Survivors(w), m'), (|w| - |Survivors(w)|) as real, m')
  {
    var c, m' := Cleaned(w), Mean(Survivors(w));
    var zeros := Select(c, Not(NonZero()));
    AddSplit(c, NonZero(), SqDistance(m'));
    ZeroDeviation(c, |w| - |Survivors(w)|, m');
    hide ShiftedBy;
    ShiftCombine(SqDev(c, m'), SqDev(Survivors(w), m'), SqDev(zeros, m'), (|w| - |Survivors(w)|) as real, m');
  }
}
