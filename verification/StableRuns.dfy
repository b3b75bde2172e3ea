/**
  Windows that never die: when the initial temperature and all readings stay in a band
  [lo, hi] with 2 * hi <= 3 * lo, at least 43 of the 65 slots stay non-zero for ever and every
  value sent lies in the band. Also: the bound of 16 rejected slots is reached.
 */
module StableRuns {
  import opened Wrappers
  import opened Statistics
  import opened Cleaner
  import opened WindowRuns

  predicate ZeroOrIn(s: seq<int>, lo: int, hi: int) {
    forall x :: x in s ==> x == 0 || lo <= x <= hi
  }

  predicate IsBand(lo: int, hi: int) {
    0 < lo <= hi && 2 * hi <= 3 * lo
  }

  function Present(s: seq<int>): nat {
    |Select(s, NonZero())|
  }

  // ---------- One round ----------

  /** Zero slots add nothing to the sum nor to the sum of squares. */
  lemma ZerosAddNothing(w: seq<int>, f: int -> real)
    requires f(0) == 0.0
    ensures Add(w, f) == Add(Select(w, NonZero()), f)
  {
    AddSplit(w, NonZero(), f);
    SelectMembers(w, Not(NonZero()));
    AddConstant(Select(w, Not(NonZero())), f, 0.0);
    TimesIsProduct(|Select(w, Not(NonZero()))|, 0.0);
  }

  /** c values between lo and hi have sum t. */
  predicate SumInBand(c: real, t: real, lo: real, hi: real) {
    c * lo <= t <= c * hi
  }

  lemma SumOfBand(s: seq<int>, lo: int, hi: int)
    requires forall x :: x in s ==> lo <= x <= hi
    ensures SumInBand(|s| as real, Sum(s), lo as real, hi as real)
  {
    AddAtLeast(s, Value(), lo as real);
    AddAtMost(s, Value(), hi as real);
    TimesIsProduct(|s|, lo as real);
    TimesIsProduct(|s|, hi as real);
  }

  predicate AtMostProduct(s: real, c: real, q: real) {
    s <= c * q
  }

  lemma CauchyAtZero(n: real, t: real, d: real, q: real)
    requires CauchyBound(n, t, 0.0, d) && d == Expanded(q, t, n, 0.0)
    ensures AtMostProduct(Sq(t), n, q)
  {
    assert t - n * 0.0 == t;
  }

  lemma SquareOfSum(s: seq<int>)
    ensures AtMostProduct(Sq(Sum(s)), |s| as real, Add(s, Square()))
  {
    CauchySchwarz(s, 0.0);
    SqDevExpand(s, 0.0);
    hide Sq, Add, Expanded;
    CauchyAtZero(|s| as real, Sum(s), SqDev(s, 0.0), Add(s, Square()));
  }

  lemma LinearGap(cx: real, cl: real, ch: real, t: real)
    requires cl <= cx <= ch && 2.0 * ch <= 3.0 * cl && cl > 0.0 && cl <= t <= ch
    ensures t > 0.0 && 2.0 * t <= 3.0 * cx && 2.0 * cx <= 3.0 * t
  {
  }

  lemma CentredGap(cx: real, ct: real, t: real, y: real, b: real)
    requires t > 0.0 && 2.0 * t <= 3.0 * cx && 2.0 * cx <= 3.0 * t && ct <= 58.0 * t
    requires y == 65.0 * cx - ct && b == 97.5 * t - ct
    ensures -b <= y <= b
  {
  }

  /** y and b are c and k times the distance of a band value from the mean, and the sum. */
  lemma BandGap(c: real, t: real, lo: real, hi: real, x: real, y: real, b: real)
    requires 33.0 <= c <= 58.0 && 0.0 < lo && 2.0 * hi <= 3.0 * lo && lo <= x <= hi && SumInBand(c, t, lo, hi)
    requires y == c * (65.0 * x - t) && b == (97.5 - c) * t
    ensures Sq(y) <= Sq(b)
  {
    NonNegativeProduct(c, hi - x);
    NonNegativeProduct(c, x - lo);
    NonNegativeProduct(c, 3.0 * lo - 2.0 * hi);
    SignOfProduct(c, lo);
    LinearGap(c * x, c * lo, c * hi, t);
    NonNegativeProduct(58.0 - c, t);
    hide Sq, SumInBand;
    CentredGap(c * x, c * t, t, y, b);
    SquareWithin(y, b);
  }

  lemma SquareOfProduct(n: real, d: real, y: real)
    requires y == n * d
    ensures TimesSquare(n, Sq(d), Sq(y))
  {
    ScaledSquare(n, d);
  }

  predicate BelowQuadratic(c: real, p: real, s: real) {
    s <= 4.0 * ((65.0 - c) * (c * p))
  }

  lemma BandQuadratic(c: real, k: real, p: real, s: real)
    requires 33.0 <= c <= 58.0 && k == 97.5 - c && p >= 0.0 && TimesSquare(k, p, s)
    ensures BelowQuadratic(c, p, s)
  {
    var gap := (c - 32.5) * (58.5 - c);
    SignOfProduct(c - 32.5, 58.5 - c);
    NonNegativeProduct(gap, p);
    assert 5.0 * (gap * p) == 4.0 * ((65.0 - c) * (c * p)) - (97.5 - c) * ((97.5 - c) * p);
  }

  /** cp and cg stand for c p and c g. */
  lemma BandFinish(c: real, p: real, q: real, g: real, s: real, cp: real, cg: real)
    requires c > 0.0 && AtMostProduct(p, c, q) && cp == c * p && cg == c * g
    requires s == c * cg && s <= 4.0 * (c * (65.0 * p - cp))
    ensures g <= 4.0 * (65.0 * q - p)
  {
    LessCancel(c, cg, 4.0 * (65.0 * p - cp));
    assert c * (65.0 * q - p) == 65.0 * (c * q) - cp;
    LessCancel(c, g, 4.0 * (65.0 * q - p));
  }

  lemma BandScale(c: real, p: real, q: real, g: real, s: real, s': real)
    requires c > 0.0 && AtMostProduct(p, c, q) && TimesSquare(c, g, s) && s <= s' && BelowQuadratic(c, p, s')
    ensures g <= 4.0 * (65.0 * q - p)
  {
    hide AtMostProduct;
    assert (65.0 - c) * (c * p) == c * (65.0 * p - c * p);
    BandFinish(c, p, q, g, s, c * p, c * g);
  }

  lemma BandTest(c: real, t: real, q: real, lo: real, hi: real, x: real)
    requires 33.0 <= c <= 58.0 && 0.0 < lo && 2.0 * hi <= 3.0 * lo && lo <= x <= hi
    requires SumInBand(c, t, lo, hi) && AtMostProduct(Sq(t), c, q)
    ensures NearMean(65.0, t, q, SQ_FACTOR, x)
  {
    hide Sq, SumInBand, AtMostProduct, TimesSquare, BelowQuadratic;
    var g, k := 65.0 * x - t, 97.5 - c;
    var y, b := c * g, k * t;
    BandGap(c, t, lo, hi, x, y, b);
    SquareOfProduct(c, g, y);
    SquareOfProduct(k, t, b);
    BandQuadratic(c, k, Sq(t), Sq(b));
    BandScale(c, Sq(t), q, Sq(g), Sq(y), Sq(b));
  }

  /** With 33 to 58 slots in the band and the others 0, no slot in the band is rejected. */
  lemma BandIsKept(w: seq<int>, lo: int, hi: int, x: int)
    requires |w| == WINDOW_SIZE && IsBand(lo, hi) && ZeroOrIn(w, lo, hi) && lo <= x <= hi
    requires 33 <= Present(w) <= 58
    ensures Within(w, SQ_FACTOR, x)
  {
    var nz := Select(w, NonZero());
    SelectMembers(w, NonZero());
    ZerosAddNothing(w, Value());
    ZerosAddNothing(w, Square());
    SumOfBand(nz, lo, hi);
    SquareOfSum(nz);
    hide Sq, Add, Within, NearMean, SumInBand, AtMostProduct;
    BandTest(|nz| as real, Sum(w), Add(w, Square()), lo as real, hi as real, x as real);
    WithinCleared(w, SQ_FACTOR, x);
  }

  /** One round inside the band keeps 43 non-zero slots and sends a value in the band. */
  lemma BandRound(w: seq<int>, lo: int, hi: int)
    requires |w| == WINDOW_SIZE && IsBand(lo, hi) && ZeroOrIn(w, lo, hi) && Present(w) >= 43
    ensures ZeroOrIn(Cleaned(w), lo, hi) && Present(Cleaned(w)) >= 43
    ensures Outgoing(w).Some? && lo <= Outgoing(w).value <= hi
  {
    SurvivorsFrom(w);
    SurvivorsOf(w);
    if Present(w) <= 58 {
      forall x | x in w
        ensures And(Inlier(w, SQ_FACTOR), NonZero())(x) == NonZero()(x)
      {
        if x != 0 { BandIsKept(w, lo, hi, x); }
      }
      SelectSame(w, And(Inlier(w, SQ_FACTOR), NonZero()), NonZero());
    } else {
      RejectsFewerThanAQuarter(w);
      SelectCover(w, NonZero(), Inlier(w, SQ_FACTOR));
      SameAnd(w, NonZero(), Inlier(w, SQ_FACTOR));
    }
    hide Within;
    OutgoingInRange(w, lo, hi);
    forall x | x in Cleaned(w)
      ensures x == 0 || lo <= x <= hi
    {
      var i :| 0 <= i < |w| && Cleaned(w)[i] == x;
      assert w[i] in w;
    }
  }

  // ---------- Whole runs ----------

  ghost predicate Stable(w: Window, lo: int, hi: int)
    requires w.Valid()
  {
    ZeroOrIn(w.slots, lo, hi) && Present(w.slots) >= 43
  }

  lemma StableStep(w: Window, lo: int, hi: int, reading: int)
    requires w.Valid() && IsBand(lo, hi) && Stable(w, lo, hi) && lo <= reading <= hi
    ensures Stable(w.Next(reading), lo, hi)
    ensures w.Sent(reading).Some? && lo <= w.Sent(reading).value <= hi
  {
    var written := w.Written(reading);
    SelectUpdate(w.slots, w.cursor, reading, NonZero());
    forall x | x in written
      ensures x == 0 || lo <= x <= hi
    {
      var i :| 0 <= i < |written| && written[i] == x;
      if i != w.cursor { assert w.slots[i] in w.slots; }
    }
    BandRound(written, lo, hi);
  }

  /** Every message of every run inside the band is defined and inside the band. */
  lemma {:induction false} BandRunsNeverDie(lo: int, hi: int, initial: int, readings: seq<int>, reading: int)
    requires IsBand(lo, hi) && lo <= initial <= hi && lo <= reading <= hi && Between(readings, lo, hi)
    ensures Stable(After(Initially(initial), readings), lo, hi)
    ensures var sent := After(Initially(initial), readings).Sent(reading);
            sent.Some? && lo <= sent.value <= hi
    decreases |readings|
  {
    if readings == [] {
      var slots := Initially(initial).slots;
      LoneCountAll(slots, initial);
      SelectSame(slots, NonZero(), Is(initial));
    } else {
      var front, last := readings[..|readings| - 1], readings[|readings| - 1];
      assert last in readings && forall x :: x in front ==> x in readings;
      BandRunsNeverDie(lo, hi, initial, front, last);
      StableStep(After(Initially(initial), front), lo, hi, last);
    }
    StableStep(After(Initially(initial), readings), lo, hi, reading);
  }

  // ---------- The Chebyshev bound is reached ----------

  /** 8 slots of v, 8 of -v and 49 of 0. */
  function Spikes(v: int): (w: seq<int>)
    ensures |w| == WINDOW_SIZE
  {
    Repeat(v, 8) + Repeat(-v, 8) + Repeat(0, 49)
  }

  lemma AddSpikes(v: int, f: int -> real)
    ensures Add(Spikes(v), f) == Times(8, f(v)) + Times(8, f(-v)) + Times(49, f(0))
  {
    AddConstant(Repeat(v, 8), f, f(v));
    AddConstant(Repeat(-v, 8), f, f(-v));
    AddConstant(Repeat(0, 49), f, f(0));
    AddAppend(Repeat(v, 8) + Repeat(-v, 8), Repeat(0, 49), f);
    AddAppend(Repeat(v, 8), Repeat(-v, 8), f);
  }

  function Indicator(): int -> real {
    x => if x != 0 then 1.0 else 0.0
  }

  lemma {:induction false} PresentIsSum(s: seq<int>)
    ensures Present(s) as real == Add(s, Indicator())
  {
    if s != [] { PresentIsSum(s[..|s| - 1]); }
  }

  lemma SpikesPresent(v: int)
    requires v != 0
    ensures Present(Spikes(v)) == 16
  {
    var w := Spikes(v);
    AddSpikes(v, Indicator());
    PresentIsSum(w);
    TimesIsProduct(8, 1.0);
    TimesIsProduct(49, 0.0);
  }

  lemma SpikesMoments(v: int)
    ensures Sum(Spikes(v)) == 0.0 && Add(Spikes(v), Square()) == 16.0 * Sq(v as real)
  {
    ScaledSquare(1.0, v as real);
    assert Square()(0) == 0.0 && Square()(-v) == Square()(v) == Sq(v as real);
    hide Add, Spikes, Times, Sq;
    AddSpikes(v, Value());
    AddSpikes(v, Square());
    TimesIsProduct(8, v as real);
    TimesIsProduct(8, (-v) as real);
    TimesIsProduct(49, 0.0);
    TimesIsProduct(8, Sq(v as real));
  }

  lemma SpikeTest(v: real, x: real)
    requires v != 0.0 && (x == v || x == -v || x == 0.0)
    ensures NearMean(65.0, 0.0, 16.0 * Sq(v), SQ_FACTOR, x) <==> x == 0.0
  {
    SquarePositive(v);
    ScaledSquare(65.0, x);
    ScaledSquare(1.0, v);
  }

  lemma SpikesRejected(v: int)
    requires v != 0
    ensures forall x :: x in Spikes(v) ==> (Within(Spikes(v), SQ_FACTOR, x) <==> x == 0)
  {
    var w := Spikes(v);
    SpikesMoments(v);
    forall x | x in w
      ensures Within(w, SQ_FACTOR, x) <==> x == 0
    {
      assert x == v || x == -v || x == 0;
      hide Within, Add, Spikes, Sq, NearMean;
      WithinCleared(w, SQ_FACTOR, x);
      SpikeTest(v as real, x as real);
    }
  }

  /** 16 non-zero slots are not enough: here one round rejects all 16 and the average is undefined. */
  lemma SixteenMayAllBeRejected(v: int)
    requires v != 0
    ensures Present(Spikes(v)) == 16
    ensures |Select(Spikes(v), Outlier(Spikes(v), SQ_FACTOR))| == 16
    ensures Outgoing(Spikes(v)) == None
  {
    var w := Spikes(v);
    SpikesRejected(v);
    assert forall x :: x in w ==> Outlier(w, SQ_FACTOR)(x) == NonZero()(x);
    hide Within;
    SelectSame(w, Outlier(w, SQ_FACTOR), NonZero());
    SpikesPresent(v);
    assert forall i :: 0 <= i < |w| ==> Cleaned(w)[i] == 0 by {
      assert forall i :: 0 <= i < |w| ==> w[i] in w;
    }
    NothingSent(w);
  }
}
