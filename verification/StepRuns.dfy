/**
  A step: a node starts at t and from then on reads v. The exact condition under which the window
  ends with no reading left, so that the node never sends again, and otherwise fills with v.
 */
module StepRuns {
  import opened Wrappers
  import opened Statistics
  import opened Cleaner
  import opened WindowRuns

  /** In a window with a slots of u, c of w and the others 0, u is discarded. */
  predicate MixRejects(a: nat, c: nat, u: int, w: int) {
    (a - 13) * (a - 65) * (u * u) + 2 * (c * (a - 13)) * (u * w) + c * (c - 52) * (w * w) > 0
  }

  /** One slot of v is discarded however many slots of t are left. */
  predicate AlwaysRejects(t: int, v: int) {
    forall c: nat :: 1 <= c < WINDOW_SIZE ==> MixRejects(1, c, v, t)
  }

  /** The largest number of slots of t, up to n, next to which one slot of v is kept; 0 if there is none. */
  function LargestKept(t: int, v: int, n: nat): (m: nat)
    ensures m <= n
    ensures m > 0 ==> !MixRejects(1, m, v, t)
    ensures forall c: nat :: m < c <= n ==> MixRejects(1, c, v, t)
  {
    if n == 0 then 0 else if MixRejects(1, n, v, t) then LargestKept(t, v, n - 1) else n
  }

  /** Of m + 1 slots of t, a have turned into v, and the others are discarded. */
  predicate LosesRest(t: int, v: int, m: nat, a: nat)
    requires a <= m
  {
    MixRejects(m + 1 - a, a, t, v)
  }

  /** ... while v has at most 11 slots. */
  predicate LosesTooEarly(t: int, v: int, m: nat) {
    exists a: nat :: 1 <= a <= 11 && a <= m && LosesRest(t, v, m, a)
  }

  /** The steps from t to v that empty the window; 0 is the sentinel. */
  predicate StepEnds(t: int, v: int) {
    v == 0 || AlwaysRejects(t, v) || LosesTooEarly(t, v, LargestKept(t, v, WINDOW_SIZE - 1))
  }

  // ---------- One round ----------

  /** z slots of 0, a of v, and t in the others. */
  function Turning(t: int, v: int, z: nat, a: nat): (s: seq<int>)
    requires z + a <= WINDOW_SIZE
    ensures |s| == WINDOW_SIZE
    ensures forall i :: 0 <= i < WINDOW_SIZE ==> s[i] == if i < z then 0 else if i < z + a then v else t
  {
    Repeat(0, z) + Repeat(v, a) + Repeat(t, WINDOW_SIZE - z - a)
  }

  lemma AddTurning(t: int, v: int, z: nat, a: nat, c: nat, f: int -> real)
    requires z + a + c == WINDOW_SIZE && f(0) == 0.0
    ensures Add(Turning(t, v, z, a), f) == Times(a, f(v)) + Times(c, f(t))
  {
    AddConstant(Repeat(0, z), f, 0.0);
    TimesIsProduct(z, 0.0);
    AddConstant(Repeat(v, a), f, f(v));
    AddConstant(Repeat(t, c), f, f(t));
    AddAppend(Repeat(0, z) + Repeat(v, a), Repeat(t, c), f);
    AddAppend(Repeat(0, z), Repeat(v, a), f);
  }

  /** The sum s and the sum of squares q of a slots of u and c of w. */
  predicate MixMoments(a: real, c: real, u: real, w: real, s: real, q: real) {
    Mixture(a, c, u, w, s) && Mixture(a, c, Sq(u), Sq(w), q)
  }

  lemma MomentsCommute(a: real, c: real, u: real, w: real, s: real, q: real)
    requires MixMoments(a, c, u, w, s, q)
    ensures MixMoments(c, a, w, u, s, q)
  {
    hide Sq;
  }

  lemma TurningMoments(t: int, v: int, z: nat, a: nat, c: nat)
    requires z + a + c == WINDOW_SIZE
    ensures var w := Turning(t, v, z, a);
            MixMoments(a as real, c as real, v as real, t as real, Sum(w), Add(w, Square()))
  {
    assert Value()(0) == 0.0 && Value()(t) == t as real && Value()(v) == v as real;
    assert Square()(0) == 0.0 && Square()(t) == Sq(t as real) && Square()(v) == Sq(v as real);
    hide Add, Times, Turning, Sq, Mixture, Square, Value;
    AddTurning(t, v, z, a, c, Value());
    AddTurning(t, v, z, a, c, Square());
    MixtureOf(a, c, v as real, t as real);
    MixtureOf(a, c, Sq(v as real), Sq(t as real));
  }

  function Weighted(i: real, j: real, k: real, x: real, y: real, z: real): real {
    i * x + j * y + k * z
  }

  /** The left side of the test, from u^2, u w and w^2. */
  function Form(a: real, c: real, x: real, y: real, z: real): real {
    Weighted((a - 13.0) * (a - 65.0), 2.0 * (c * (a - 13.0)), c * (c - 52.0), x, y, z)
  }

  function MixExcess(a: real, c: real, u: real, w: real): real {
    Form(a, c, Sq(u), u * w, Sq(w))
  }

  lemma ProductCast(x: int, y: int)
    ensures (x * y) as real == x as real * y as real
  {
  }

  lemma WeightedCast(i: int, j: int, k: int, x: int, y: int, z: int)
    ensures i * x + j * y + k * z > 0 <==>
            Weighted(i as real, j as real, k as real, x as real, y as real, z as real) > 0.0
  {
    ProductCast(i, x);
    ProductCast(j, y);
    ProductCast(k, z);
  }

  lemma CoefficientCast(a: nat, c: nat, ra: real, rc: real)
    requires ra == a as real && rc == c as real
    ensures ((a - 13) * (a - 65)) as real == (ra - 13.0) * (ra - 65.0)
    ensures (2 * (c * (a - 13))) as real == 2.0 * (rc * (ra - 13.0))
    ensures (c * (c - 52)) as real == rc * (rc - 52.0)
  {
    ProductCast(a - 13, a - 65);
    ProductCast(c, a - 13);
    ProductCast(c, c - 52);
  }

  lemma SquareCasts(u: int, w: int)
    ensures (u * u) as real == Sq(u as real) && (u * w) as real == u as real * w as real
  {
    ProductCast(u, u);
    ProductCast(u, w);
  }

  lemma RejectsWeighted(a: nat, c: nat, u: int, w: int, i: int, j: int, k: int)
    requires i == (a - 13) * (a - 65) && j == 2 * (c * (a - 13)) && k == c * (c - 52)
    ensures MixRejects(a, c, u, w) <==>
            Weighted(i as real, j as real, k as real, (u * u) as real, (u * w) as real, (w * w) as real) > 0.0
  {
    WeightedCast(i, j, k, u * u, u * w, w * w);
    hide Weighted;
  }

  lemma ExcessWeighted(a: nat, c: nat, i: int, j: int, k: int, x: real, y: real, z: real)
    requires i == (a - 13) * (a - 65) && j == 2 * (c * (a - 13)) && k == c * (c - 52)
    ensures Weighted(i as real, j as real, k as real, x, y, z) == Form(a as real, c as real, x, y, z)
  {
    CoefficientCast(a, c, a as real, c as real);
    hide Weighted;
  }

  lemma RejectsVia(a: nat, c: nat, u: int, w: int, i: int, j: int, k: int, x: real, y: real, z: real)
    requires i == (a - 13) * (a - 65) && j == 2 * (c * (a - 13)) && k == c * (c - 52)
    requires x == Sq(u as real) && y == u as real * w as real && z == Sq(w as real)
    ensures MixRejects(a, c, u, w) <==> Form(a as real, c as real, x, y, z) > 0.0
  {
    hide Weighted, Sq, Form, MixRejects;
    SquareCasts(u, w);
    SquareCasts(w, w);
    RejectsWeighted(a, c, u, w, i, j, k);
    ExcessWeighted(a, c, i, j, k, x, y, z);
  }

  lemma ExcessIs(a: real, c: real, u: real, w: real, y: real)
    requires y == u * w
    ensures MixExcess(a, c, u, w) == Form(a, c, Sq(u), y, Sq(w))
  {
  }

  lemma RejectsInReals(a: nat, c: nat, u: int, w: int)
    ensures MixRejects(a, c, u, w) <==> MixExcess(a as real, c as real, u as real, w as real) > 0.0
  {
    hide *;
    var y := u as real * w as real;
    ExcessIs(a as real, c as real, u as real, w as real, y);
    RejectsVia(a, c, u, w, (a - 13) * (a - 65), 2 * (c * (a - 13)), c * (c - 52), Sq(u as real), y, Sq(w as real));
  }

  /** The products that the test is made of. */
  datatype Terms = Terms(ax: real, aax: real, cy: real, acy: real, cz: real, ccz: real)

  predicate AreTerms(p: Terms, a: real, c: real, x: real, y: real, z: real) {
    && p.ax == a * x && p.aax == a * (a * x)
    && p.cy == c * y && p.acy == a * (c * y)
    && p.cz == c * z && p.ccz == c * (c * z)
  }

  function TermsOf(a: real, c: real, x: real, y: real, z: real): (p: Terms)
    ensures AreTerms(p, a, c, x, y, z)
  {
    Terms(a * x, a * (a * x), c * y, a * (c * y), c * z, c * (c * z))
  }

  lemma FormTerms(p: Terms, a: real, c: real, x: real, y: real, z: real)
    requires AreTerms(p, a, c, x, y, z)
    ensures Form(a, c, x, y, z) == 845.0 * x - 78.0 * p.ax + p.aax - 26.0 * p.cy + 2.0 * p.acy + p.ccz - 52.0 * p.cz
  {
    assert (a - 13.0) * (a - 65.0) * x == p.aax - 78.0 * p.ax + 845.0 * x;
    assert 2.0 * (c * (a - 13.0)) * y == 2.0 * p.acy - 26.0 * p.cy;
    assert c * (c - 52.0) * z == p.ccz - 52.0 * p.cz;
  }

  lemma SquareOfSum(i: real, j: real, u: real, w: real, r: real)
    requires r == i * u + j * w
    ensures Sq(r) == i * (i * Sq(u)) + 2.0 * (i * (j * (u * w))) + j * (j * Sq(w))
  {
  }

  lemma CentreTerms(p: Terms, a: real, c: real, x: real, y: real, z: real)
    requires AreTerms(p, a, c, x, y, z)
    ensures (65.0 - a) * ((65.0 - a) * x) == 4225.0 * x - 130.0 * p.ax + p.aax
    ensures (65.0 - a) * (-c * y) == p.acy - 65.0 * p.cy
    ensures -c * (-c * z) == p.ccz
  {
  }

  lemma MixCentre(p: Terms, a: real, c: real, u: real, w: real, s: real)
    requires AreTerms(p, a, c, Sq(u), u * w, Sq(w)) && Mixture(a, c, u, w, s)
    ensures Sq(65.0 * u - s) == 4225.0 * Sq(u) - 130.0 * p.ax + p.aax - 130.0 * p.cy + 2.0 * p.acy + p.ccz
  {
    assert 65.0 * u - s == (65.0 - a) * u + -c * w;
    hide Sq, AreTerms;
    SquareOfSum(65.0 - a, -c, u, w, 65.0 * u - s);
    CentreTerms(p, a, c, Sq(u), u * w, Sq(w));
  }

  lemma MixSpread(p: Terms, a: real, c: real, u: real, w: real, s: real, q: real)
    requires AreTerms(p, a, c, Sq(u), u * w, Sq(w)) && MixMoments(a, c, u, w, s, q)
    ensures 65.0 * q - Sq(s) == 65.0 * p.ax + 65.0 * p.cz - p.aax - 2.0 * p.acy - p.ccz
  {
    hide Sq;
    SquareOfSum(a, c, u, w, s);
  }

  lemma MomentsMix(a: real, c: real, u: real, w: real, s: real, q: real)
    requires MixMoments(a, c, u, w, s, q)
    ensures Mixture(a, c, u, w, s)
  {
  }

  lemma MixTest(a: real, c: real, u: real, w: real, s: real, q: real)
    requires MixMoments(a, c, u, w, s, q)
    ensures NearMean(65.0, s, q, SQ_FACTOR, u) <==> MixExcess(a, c, u, w) <= 0.0
  {
    hide Sq, Form, MixMoments, Mixture, AreTerms, TermsOf;
    var p := TermsOf(a, c, Sq(u), u * w, Sq(w));
    assert Mixture(a, c, u, w, s) by { MomentsMix(a, c, u, w, s, q); }
    MixCentre(p, a, c, u, w, s);
    MixSpread(p, a, c, u, w, s, q);
    FormTerms(p, a, c, Sq(u), u * w, Sq(w));
  }

  lemma {:induction false} CountAppend(s: seq<int>, r: seq<int>, u: int)
    ensures Count(s + r, u) == Count(s, u) + Count(r, u)
    decreases |r|
  {
    if r == [] {
      assert s + r == s;
    } else {
      assert (s + r)[..|s + r| - 1] == s + r[..|r| - 1];
      CountAppend(s, r[..|r| - 1], u);
    }
  }

  lemma NoneOf(s: seq<int>, v: int)
    requires v !in s
    ensures Count(s, v) == 0
  {
    SelectNothing(s, Is(v));
  }

  lemma CountTurning(t: int, v: int, z: nat, a: nat)
    requires z + a <= WINDOW_SIZE
    ensures Count(Turning(t, v, z, a), v) >= a
    ensures Count(Turning(t, v, z, a), t) >= WINDOW_SIZE - z - a
    ensures t == 0 && v != 0 ==> Count(Turning(t, v, z, a), v) == a
  {
    var zeros, news, olds := Repeat(0, z), Repeat(v, a), Repeat(t, WINDOW_SIZE - z - a);
    LoneCountAll(news, v);
    LoneCountAll(olds, t);
    hide Count;
    CountAppend(zeros + news, olds, v);
    CountAppend(zeros, news, v);
    CountAppend(zeros + news, olds, t);
    if t == 0 && v != 0 {
      NoneOf(zeros, v);
      NoneOf(olds, v);
    }
  }

  /** Exactly which values of a turning window pass the test; 13 slots are always enough. */
  lemma TurningTests(t: int, v: int, z: nat, a: nat, c: nat)
    requires z + a + c == WINDOW_SIZE
    ensures var w := Turning(t, v, z, a);
            && (Within(w, SQ_FACTOR, v) <==> !MixRejects(a, c, v, t))
            && (Within(w, SQ_FACTOR, t) <==> !MixRejects(c, a, t, v))
            && (a >= 13 ==> Within(w, SQ_FACTOR, v))
            && (c >= 13 ==> Within(w, SQ_FACTOR, t))
  {
    hide Within, Add, NearMean, MixExcess, MixRejects, MixMoments, Turning, Count, Sq;
    var w := Turning(t, v, z, a);
    var s, q, ra, rc, rv, rt := Sum(w), Add(w, Square()), a as real, c as real, v as real, t as real;
    TurningMoments(t, v, z, a, c);
    MomentsCommute(ra, rc, rv, rt, s, q);
    MixTest(ra, rc, rv, rt, s, q);
    MixTest(rc, ra, rt, rv, s, q);
    RejectsInReals(a, c, v, t);
    RejectsInReals(c, a, t, v);
    WithinCleared(w, SQ_FACTOR, v);
    WithinCleared(w, SQ_FACTOR, t);
    CountTurning(t, v, z, a);
    if a >= 13 { FifthIsKept(w, v); }
    if c >= 13 { FifthIsKept(w, t); }
  }

  /** One round keeps or discards all slots of a value together. */
  lemma TurningRound(t: int, v: int, z: nat, a: nat, c: nat)
    requires z + a + c == WINDOW_SIZE
    ensures Cleaned(Turning(t, v, z, a)) ==
            Turning(if MixRejects(c, a, t, v) then 0 else t, if MixRejects(a, c, v, t) then 0 else v, z, a)
  {
    TurningTests(t, v, z, a, c);
    hide Within, MixRejects;
    var w := Turning(t, v, z, a);
    assert forall i :: 0 <= i < WINDOW_SIZE ==>
      Cleaned(w)[i] == if Inlier(w, SQ_FACTOR)(w[i]) then w[i] else 0;
  }

  // ---------- While v is discarded ----------

  /** The window after k discarded readings: what is left of t, or nothing at all. */
  ghost predicate Discarding(w: Window, t: int, k: nat)
    requires w.Valid() && k <= WINDOW_SIZE
  {
    w.cursor == k % WINDOW_SIZE && (w.slots == Turning(t, 0, k, 0) || (k > 52 && AllZero(w.slots)))
  }

  /** A discarded reading leaves one slot of t less, or nothing. */
  lemma DiscardedSlot(t: int, v: int, k: nat, c: nat)
    requires k + 1 + c == WINDOW_SIZE && MixRejects(1, c, v, t)
    ensures var next := Cleaned(Turning(t, v, k, 1));
            next == Turning(t, 0, k + 1, 0) || (c < 13 && AllZero(next))
  {
    TurningRound(t, v, k, 1, c);
    TurningTests(t, v, k, 1, c);
    hide MixRejects, Cleaned, Within;
    assert Turning(t, 0, k, 1) == Turning(t, 0, k + 1, 0);
  }

  lemma StoredNext(t: int, v: int, k: nat)
    requires k < WINDOW_SIZE
    ensures Turning(t, 0, k, 0)[k := v] == Turning(t, v, k, 1)
  {
  }

  lemma DiscardingStep(w: Window, t: int, v: int, k: nat)
    requires w.Valid() && k < WINDOW_SIZE && Discarding(w, t, k) && MixRejects(1, WINDOW_SIZE - 1 - k, v, t)
    ensures Discarding(w.Next(v), t, k + 1)
  {
    hide MixRejects, Cleaned, Turning, AllZero;
    if w.slots == Turning(t, 0, k, 0) {
      StoredNext(t, v, k);
      DiscardedSlot(t, v, k, WINDOW_SIZE - 1 - k);
    } else {
      StillDead(w, v);
    }
  }

  /** While every reading is discarded, the window loses one slot of t per reading, or everything. */
  lemma {:induction false} DiscardedRun(t: int, v: int, k: nat)
    requires k <= WINDOW_SIZE
    requires forall c: nat :: WINDOW_SIZE - k <= c < WINDOW_SIZE ==> MixRejects(1, c, v, t)
    ensures Discarding(After(Initially(t), Repeat(v, k)), t, k)
  {
    if k == 0 {
      assert Repeat(v, 0) == [];
      assert Initially(t).slots == Turning(t, 0, 0, 0);
    } else {
      hide MixRejects, After, Discarding;
      AfterRepeat(Initially(t), v, k);
      DiscardedRun(t, v, k - 1);
      DiscardingStep(After(Initially(t), Repeat(v, k - 1)), t, v, k - 1);
    }
  }

  lemma NotZero(t: int, v: int)
    requires MixRejects(1, 1, v, t)
    ensures v != 0 && MixRejects(1, 0, v, t)
  {
    assert t * t >= 0;
    if v != 0 {
      assert v * v > 0;
    }
  }

  // ---------- The first reading that is kept ----------

  /** The left side of the test for one slot of v next to c of t, from v^2, t v and t^2. */
  function ExcessOf(c: real, x: real, y: real, z: real): real {
    768.0 * x - 24.0 * (c * y) + c * (c - 52.0) * z
  }

  lemma OneSlotForm(c: real, u: real, w: real)
    ensures MixExcess(1.0, c, u, w) == ExcessOf(c, Sq(u), u * w, Sq(w))
  {
  }

  lemma BelowTwelve(c: real, s: real, d: real)
    requires 1.0 <= c <= 12.0 && s >= 0.0 && d == c * (c - 52.0) * s
    ensures d >= -480.0 * s
  {
    var gap := (12.0 - c) * (40.0 - c);
    NonNegativeProduct(12.0 - c, 40.0 - c);
    NonNegativeProduct(gap, s);
    assert d == gap * s - 480.0 * s;
  }

  lemma SteepProduct(c: real, x: real, y: real, z: real, e: real, b: real, d: real)
    requires e == ExcessOf(c, x, y, z) && x * z == y * y
    requires b == c * (y * z) && d == c * (c - 52.0) * (z * z)
    ensures z * e == 768.0 * (y * y) - 24.0 * b + d
  {
    var b', d' := c * y, c * (c - 52.0) * z;
    assert z * e == 768.0 * (x * z) - 24.0 * (b' * z) + d' * z by { assert e == 768.0 * x - 24.0 * b' + d'; }
    assert b' * z == b;
    assert d' * z == d;
  }

  /** b and d stand for c y z and c (c - 52) z^2. */
  lemma SteepSum(c: real, yy: real, yz: real, zz: real, b: real, d: real)
    requires 1.0 <= c <= 12.0 && 576.0 * yy > 729.0 * zz && zz > 0.0 && yz <= 0.0
    requires b == c * yz && d == c * (c - 52.0) * zz
    ensures 768.0 * yy - 24.0 * b + d > 0.0
  {
    assert d >= -480.0 * zz by { BelowTwelve(c, zz, d); }
    assert b <= 0.0 by { NonNegativeProduct(c, -yz); }
  }

  lemma SteepSquares(y: real, z: real)
    requires z > 0.0 && -24.0 * y > 27.0 * z
    ensures 576.0 * (y * y) > 729.0 * (z * z) && z * z > 0.0 && y * z <= 0.0
  {
    SquareOrder(-24.0 * y, 27.0 * z);
    SignOfProduct(z, z);
    NonNegativeProduct(-y, z);
  }

  lemma SteepExcess(c: real, x: real, y: real, z: real)
    requires 1.0 <= c <= 12.0 && z > 0.0 && x * z == y * y && -24.0 * y > 27.0 * z
    ensures ExcessOf(c, x, y, z) > 0.0
  {
    hide ExcessOf;
    var e := ExcessOf(c, x, y, z);
    var b, d := c * (y * z), c * (c - 52.0) * (z * z);
    SteepProduct(c, x, y, z, e, b, d);
    SteepSquares(y, z);
    SteepSum(c, y * y, y * z, z * z, b, d);
    SignOfProduct(z, e);
  }

  lemma ExcessStep(c: real, x: real, y: real, z: real)
    ensures ExcessOf(c + 1.0, x, y, z) == ExcessOf(c, x, y, z) - 24.0 * y + (2.0 * c - 51.0) * z
  {
  }

  lemma ExcessWithOneMore(c: real, t: real, v: real)
    requires 1.0 <= c && MixExcess(1.0, c, v, t) <= 0.0 && (c <= 12.0 || (c <= 25.0 && v * t >= 0.0))
    ensures MixExcess(1.0, c + 1.0, v, t) <= 0.0
  {
    var x, y, z := Sq(v), v * t, Sq(t);
    assert x * z == y * y;
    assert t == 0.0 ==> y == 0.0;
    OneSlotForm(c, v, t);
    OneSlotForm(c + 1.0, v, t);
    ExcessStep(c, x, y, z);
    if t != 0.0 { SquarePositive(t); }
    hide Sq, ExcessOf, MixExcess;
    if c <= 12.0 && -24.0 * y > 27.0 * z && z > 0.0 {
      SteepExcess(c, x, y, z);
    } else if c <= 12.0 {
      NonNegativeProduct(24.0 - 2.0 * c, z);
    } else {
      NonNegativeProduct(51.0 - 2.0 * c, z);
    }
  }

  /**
    With less than 13 slots of t left, v is kept only if it would be kept with one slot more; for
    values of the same sign that holds up to 25.
   */
  lemma KeptWithOneMore(c: nat, t: int, v: int)
    requires 1 <= c && !MixRejects(1, c, v, t) && (c <= 12 || (c <= 25 && v * t >= 0))
    ensures !MixRejects(1, c + 1, v, t)
  {
    ProductCast(v, t);
    hide MixRejects, MixExcess;
    RejectsInReals(1, c, v, t);
    RejectsInReals(1, c + 1, v, t);
    ExcessWithOneMore(c as real, t as real, v as real);
  }

  /** So the first reading that is kept finds 13 slots of t, and 26 if v has the sign of t. */
  lemma LargestIsLarge(t: int, v: int)
    requires !AlwaysRejects(t, v)
    ensures var m := LargestKept(t, v, WINDOW_SIZE - 1);
            m >= 13 && (v * t >= 0 ==> m >= 26)
  {
    hide MixRejects;
    var m := LargestKept(t, v, WINDOW_SIZE - 1);
    assert m == 0 ==> AlwaysRejects(t, v);
    if m < 13 || (v * t >= 0 && m < 26) {
      KeptWithOneMore(m, t, v);
    }
  }

  // ---------- While v replaces t ----------

  /** The test is convex in the number of slots of v below 13. */
  lemma FormIsConvex(b: real, d: real, x: real, y: real, z: real, f0: real, f: real, f12: real)
    requires f0 == Form(13.0, b, x, y, z) && f12 == Form(1.0, b + 12.0, x, y, z)
    requires f == Form(13.0 - d, b + d, x, y, z)
    ensures 12.0 * f == d * f12 + (12.0 - d) * f0 - 12.0 * (d * (12.0 - d) * (x - 2.0 * y + z))
  {
  }

  lemma ConvexSign(d: real, g: real, f0: real, f: real, f12: real)
    requires 0.0 <= d <= 12.0 && g >= 0.0 && f0 <= 0.0 && f12 <= 0.0
    requires 12.0 * f == d * f12 + (12.0 - d) * f0 - 12.0 * (d * (12.0 - d) * g)
    ensures f <= 0.0
  {
    NonNegativeProduct(d, -f12);
    NonNegativeProduct(12.0 - d, -f0);
    NonNegativeProduct(d, 12.0 - d);
    NonNegativeProduct(d * (12.0 - d), g);
  }

  lemma ThirteenForm(b: real, x: real, y: real, z: real)
    requires 0.0 <= b <= 52.0 && z >= 0.0
    ensures Form(13.0, b, x, y, z) <= 0.0
  {
    NonNegativeProduct(b, 52.0 - b);
    NonNegativeProduct(b * (52.0 - b), z);
    assert Form(13.0, b, x, y, z) == -(b * (52.0 - b) * z);
  }

  lemma SquareOfGap(u: real, w: real)
    ensures Sq(u) - 2.0 * (u * w) + Sq(w) >= 0.0
  {
    assert Sq(u - w) == Sq(u) - 2.0 * (u * w) + Sq(w);
  }

  lemma ExcessStays(a: real, c: real, u: real, w: real)
    requires 1.0 <= a <= 13.0 <= a + c <= 65.0 && MixExcess(1.0, a + c - 1.0, u, w) <= 0.0
    ensures MixExcess(a, c, u, w) <= 0.0
  {
    hide Sq, Form;
    var x, y, z, b, d := Sq(u), u * w, Sq(w), a + c - 13.0, 13.0 - a;
    SquareOfGap(u, w);
    ThirteenForm(b, x, y, z);
    FormIsConvex(b, d, x, y, z, Form(13.0, b, x, y, z), Form(a, c, x, y, z), Form(1.0, a + c - 1.0, x, y, z));
    ConvexSign(d, x - 2.0 * y + z, Form(13.0, b, x, y, z), Form(a, c, x, y, z), Form(1.0, a + c - 1.0, x, y, z));
  }

  /** Once one slot of v is kept, v stays kept as slots of t turn into v. */
  lemma StaysKept(a: nat, c: nat, t: int, v: int)
    requires 1 <= a && 13 < a + c <= WINDOW_SIZE && !MixRejects(1, a + c - 1, v, t)
    ensures !MixRejects(a, c, v, t)
  {
    hide MixRejects, MixExcess;
    if a >= 13 {
      TurningTests(t, v, WINDOW_SIZE - a - c, a, c);
    } else {
      RejectsInReals(1, a + c - 1, v, t);
      RejectsInReals(a, c, v, t);
      ExcessStays(a as real, c as real, v as real, t as real);
    }
  }

  /** v is kept next to m slots of t, and next to no more. */
  predicate FirstKept(t: int, v: int, m: nat) {
    && 13 <= m < WINDOW_SIZE && !MixRejects(1, m, v, t)
    && forall c: nat :: m < c < WINDOW_SIZE ==> MixRejects(1, c, v, t)
  }

  predicate HoldsUpTo(t: int, v: int, m: nat, n: nat) {
    forall a: nat :: 1 <= a <= n && a <= m ==> !LosesRest(t, v, m, a)
  }

  /** The next reading of v: all of v stays, and all that is left of t stays or goes. */
  lemma TurningStep(w: Window, t: int, v: int, m: nat, a: nat)
    requires FirstKept(t, v, m) && 1 <= a <= m + 1
    requires w.Valid() && w == Window(Turning(t, v, WINDOW_SIZE - 1 - m, a - 1), WINDOW_SIZE - 2 - m + a)
    ensures w.Next(v).cursor == (WINDOW_SIZE - 1 - m + a) % WINDOW_SIZE
    ensures a <= m && LosesRest(t, v, m, a) ==> w.Next(v).slots == Turning(0, v, WINDOW_SIZE - 1 - m, a)
    ensures a > m || !LosesRest(t, v, m, a) ==> w.Next(v).slots == Turning(t, v, WINDOW_SIZE - 1 - m, a)
  {
    var z, c := WINDOW_SIZE - 1 - m, m + 1 - a;
    assert w.Written(v) == Turning(t, v, z, a);
    StaysKept(a, c, t, v);
    TurningRound(t, v, z, a, c);
    hide MixRejects, Cleaned;
    if a > m { assert Turning(0, v, z, a) == Turning(t, v, z, a); }
  }

  lemma {:induction false} TurningRun(t: int, v: int, m: nat, a: nat)
    requires FirstKept(t, v, m) && a <= m + 1 && HoldsUpTo(t, v, m, a)
    ensures After(Initially(t), Repeat(v, WINDOW_SIZE - 1 - m + a)) ==
            Window(Turning(t, v, WINDOW_SIZE - 1 - m, a), (WINDOW_SIZE - 1 - m + a) % WINDOW_SIZE)
  {
    var z := WINDOW_SIZE - 1 - m;
    if a == 0 {
      hide MixRejects, After;
      DiscardedRun(t, v, z);
      assert Turning(t, 0, z, 0) == Turning(t, v, z, 0);
    } else {
      hide MixRejects, After, Turning, FirstKept, LosesRest;
      TurningRun(t, v, m, a - 1);
      AfterRepeat(Initially(t), v, z + a);
      TurningStep(After(Initially(t), Repeat(v, z + a - 1)), t, v, m, a);
    }
  }

  /** The first time that the rest of t is discarded, a slots of v are all that remains. */
  lemma RestIsLost(t: int, v: int, m: nat, a: nat)
    requires FirstKept(t, v, m) && 1 <= a <= m && LosesRest(t, v, m, a) && HoldsUpTo(t, v, m, a - 1)
    ensures After(Initially(t), Repeat(v, WINDOW_SIZE - 1 - m + a)) ==
            Window(Turning(0, v, WINDOW_SIZE - 1 - m, a), WINDOW_SIZE - 1 - m + a)
  {
    hide MixRejects, After, Turning, FirstKept, LosesRest;
    TurningRun(t, v, m, a - 1);
    AfterRepeat(Initially(t), v, WINDOW_SIZE - 1 - m + a);
    TurningStep(After(Initially(t), Repeat(v, WINDOW_SIZE - 2 - m + a)), t, v, m, a);
  }

  /** The first number of slots of v, if there is one up to n, at which the rest of t is lost. */
  lemma FirstLoss(t: int, v: int, m: nat, n: nat) returns (a: nat)
    requires n <= m && !HoldsUpTo(t, v, m, n)
    ensures 1 <= a <= n && LosesRest(t, v, m, a) && HoldsUpTo(t, v, m, a - 1)
  {
    hide LosesRest;
    if HoldsUpTo(t, v, m, n - 1) { a := n; } else { a := FirstLoss(t, v, m, n - 1); }
  }

  // ---------- How a step ends ----------

  lemma {:induction false} AfterAppend(w: Window, first: seq<int>, rest: seq<int>)
    requires w.Valid()
    ensures After(w, first + rest) == After(After(w, first), rest)
    decreases |rest|
  {
    if rest == [] {
      assert first + rest == first;
    } else {
      var front, last := rest[..|rest| - 1], rest[|rest| - 1];
      assert first + rest == (first + front) + [last];
      assert (first + front + [last])[..|first + front|] == first + front;
      AfterAppend(w, first, front);
    }
  }

  lemma RepeatAppend(w: Window, v: int, i: nat, j: nat)
    requires w.Valid()
    ensures After(w, Repeat(v, i + j)) == After(After(w, Repeat(v, i)), Repeat(v, j))
  {
    AfterAppend(w, Repeat(v, i), Repeat(v, j));
    assert Repeat(v, i) + Repeat(v, j) == Repeat(v, i + j);
  }

  /** A window of a slots of v and the others 0, with the cursor after the slots of v. */
  lemma RemnantCount(v: int, z: nat, a: nat)
    requires v != 0 && z + a < WINDOW_SIZE
    ensures var w := Window(Turning(0, v, z, a), z + a);
            OnlyEither(w.slots, v, 0) && Count(w.Written(v), v) == a + 1
  {
    CountTurning(0, v, z, a + 1);
    hide Count;
    assert Turning(0, v, z, a)[z + a := v] == Turning(0, v, z, a + 1);
  }

  lemma FirstKeptIs(t: int, v: int)
    requires !AlwaysRejects(t, v)
    ensures FirstKept(t, v, LargestKept(t, v, WINDOW_SIZE - 1))
  {
    LargestIsLarge(t, v);
    hide MixRejects;
  }

  lemma EmptyAfter(w: Window, v: int, j: nat)
    requires w.Valid() && v != 0 && j < WINDOW_SIZE
    requires OnlyEither(After(w, Repeat(v, j)).slots, v, 0)
    requires Count(After(w, Repeat(v, j)).Written(v), v) < 13
    ensures AllZero(After(w, Repeat(v, WINDOW_SIZE)).slots)
  {
    hide After, Count, OnlyEither, AllZero;
    DiesWithout(After(w, Repeat(v, j)), v, Repeat(v, WINDOW_SIZE - 1 - j), v);
    AfterRepeat(w, v, j + 1);
    RepeatAppend(w, v, j + 1, WINDOW_SIZE - 1 - j);
  }

  lemma EndsTooEarly(t: int, v: int, m: nat)
    requires v != 0 && FirstKept(t, v, m) && LosesTooEarly(t, v, m)
    ensures AllZero(After(Initially(t), Repeat(v, WINDOW_SIZE)).slots)
  {
    assert 13 <= m < WINDOW_SIZE;
    hide MixRejects, After, Turning, FirstKept, LosesRest, Count, OnlyEither, AllZero, Initially;
    assert !HoldsUpTo(t, v, m, 11);
    var a := FirstLoss(t, v, m, 11);
    var j := WINDOW_SIZE - 1 - m + a;
    RestIsLost(t, v, m, a);
    RemnantCount(v, WINDOW_SIZE - 1 - m, a);
    EmptyAfter(Initially(t), v, j);
  }

  lemma ZeroStep(t: int)
    ensures AllZero(After(Initially(t), Repeat(0, WINDOW_SIZE)).slots)
  {
    var readings := Repeat(0, WINDOW_SIZE);
    WindowHistory(t, readings);
    hide After, LastWritten, InSlot;
    forall i | 0 <= i < WINDOW_SIZE
      ensures After(Initially(t), readings).slots[i] == 0
    {
      LastWrittenIsRecent(t, readings, i);
    }
  }

  /** A step that ends the node leaves nothing after 65 readings, and nothing is sent whatever follows. */
  lemma StepEndsForGood(t: int, v: int, readings: seq<int>, reading: int)
    requires StepEnds(t, v)
    ensures AllZero(After(Initially(t), Repeat(v, WINDOW_SIZE)).slots)
    ensures After(Initially(t), Repeat(v, WINDOW_SIZE) + readings).Sent(reading) == None
  {
    if v == 0 {
      ZeroStep(t);
    } else if AlwaysRejects(t, v) {
      assert MixRejects(1, 1, v, t);
      NotZero(t, v);
      hide MixRejects, After;
      DiscardedRun(t, v, WINDOW_SIZE);
      assert AllZero(Turning(t, 0, WINDOW_SIZE, 0));
    } else {
      FirstKeptIs(t, v);
      EndsTooEarly(t, v, LargestKept(t, v, WINDOW_SIZE - 1));
    }
    hide After, AllZero;
    AfterAppend(Initially(t), Repeat(v, WINDOW_SIZE), readings);
    DeadForever(After(Initially(t), Repeat(v, WINDOW_SIZE)), readings, reading);
  }

  lemma FullCount(t: int, v: int, m: nat)
    requires v != 0 && 13 <= m < WINDOW_SIZE
    ensures Recovering(Window(Turning(t, v, WINDOW_SIZE - 1 - m, m + 1), 0), v)
  {
    var s := Turning(t, v, WINDOW_SIZE - 1 - m, m + 1);
    CountTurning(t, v, WINDOW_SIZE - 1 - m, m + 1);
    SelectUpdate(s, 0, v, Is(v));
  }

  lemma NothingLost(t: int, v: int, m: nat)
    requires v != 0 && FirstKept(t, v, m) && HoldsUpTo(t, v, m, m + 1)
    ensures Recovering(After(Initially(t), Repeat(v, WINDOW_SIZE)), v)
  {
    assert 13 <= m < WINDOW_SIZE;
    hide MixRejects, After, Turning, FirstKept, LosesRest, Initially, Recovering;
    TurningRun(t, v, m, m + 1);
    FullCount(t, v, m);
  }

  lemma LostLate(t: int, v: int, m: nat, a: nat)
    requires v != 0 && FirstKept(t, v, m) && 12 <= a <= m && LosesRest(t, v, m, a) && HoldsUpTo(t, v, m, a - 1)
    ensures Recovering(After(Initially(t), Repeat(v, WINDOW_SIZE - 1 - m + a)), v)
  {
    assert 13 <= m < WINDOW_SIZE;
    hide MixRejects, After, Turning, FirstKept, LosesRest, Count, OnlyEither, Initially;
    RestIsLost(t, v, m, a);
    RemnantCount(v, WINDOW_SIZE - 1 - m, a);
  }

  lemma RecoversFrom(t: int, v: int, m: nat) returns (j: nat)
    requires v != 0 && FirstKept(t, v, m) && !LosesTooEarly(t, v, m)
    ensures j <= WINDOW_SIZE && Recovering(After(Initially(t), Repeat(v, j)), v)
  {
    assert 13 <= m < WINDOW_SIZE;
    hide MixRejects, After, FirstKept, LosesRest, Recovering, Initially, Repeat;
    if HoldsUpTo(t, v, m, m) {
      assert HoldsUpTo(t, v, m, m + 1);
      NothingLost(t, v, m);
      j := WINDOW_SIZE;
    } else {
      var a := FirstLoss(t, v, m, m);
      assert a > 11;
      LostLate(t, v, m, a);
      j := WINDOW_SIZE - 1 - m + a;
    }
  }

  /** Any other step leaves, within 65 readings, a window of 0 and enough slots of v. */
  lemma Recovers(t: int, v: int) returns (j: nat)
    requires !StepEnds(t, v)
    ensures v != 0 && j <= WINDOW_SIZE && Recovering(After(Initially(t), Repeat(v, j)), v)
  {
    FirstKeptIs(t, v);
    hide After, Recovering, FirstKept, LosesTooEarly, LargestKept;
    j := RecoversFrom(t, v, LargestKept(t, v, WINDOW_SIZE - 1));
  }

  lemma FillsFrom(w: Window, v: int, n: nat)
    requires w.Valid() && v != 0 && Recovering(w, v) && n >= WINDOW_SIZE
    ensures After(w, Repeat(v, n)).slots == Repeat(v, WINDOW_SIZE)
    ensures After(w, Repeat(v, n)).Sent(v) == Some(v)
  {
    hide Recovering, Count, After, Outgoing, Filled, Cleaned;
    RecoversWith(w, v, n);
    FilledAll(w.slots, After(w, Repeat(v, n)).slots, w.cursor, n, v);
  }

  /** ... and fills with v: from 130 readings on every slot holds v and v is sent. */
  lemma StepIsFollowed(t: int, v: int, k: nat)
    requires !StepEnds(t, v) && k >= 2 * WINDOW_SIZE
    ensures After(Initially(t), Repeat(v, k)).slots == Repeat(v, WINDOW_SIZE)
    ensures After(Initially(t), Repeat(v, k)).Sent(v) == Some(v)
  {
    hide *;
    var j := Recovers(t, v);
    FillsFrom(After(Initially(t), Repeat(v, j)), v, k - j);
    RepeatAppend(Initially(t), v, j, k - j);
  }

  lemma NeverEmpty(t: int, v: int, k: nat)
    requires !StepEnds(t, v)
    ensures !AllZero(After(Initially(t), Repeat(v, k)).slots)
  {
    hide StepEnds, After, Outgoing;
    var w := After(Initially(t), Repeat(v, k));
    if AllZero(w.slots) {
      RepeatAppend(Initially(t), v, k, 2 * WINDOW_SIZE);
      DeadForever(w, Repeat(v, 2 * WINDOW_SIZE), v);
      StepIsFollowed(t, v, k + 2 * WINDOW_SIZE);
    }
  }

  /** The exact condition: the window is empty at some point of the run if and only if the step ends the node. */
  lemma StepEndsIff(t: int, v: int)
    ensures StepEnds(t, v) <==> exists k: nat :: AllZero(After(Initially(t), Repeat(v, k)).slots)
  {
    hide StepEnds, After, AllZero;
    if StepEnds(t, v) {
      StepEndsForGood(t, v, [], 0);
    } else {
      forall k: nat
        ensures !AllZero(After(Initially(t), Repeat(v, k)).slots)
      {
        NeverEmpty(t, v, k);
      }
    }
  }

  /** Between values of the same sign only a step whose readings are all discarded ends the node. */
  lemma SameSignStepEndsIff(t: int, v: int)
    requires v * t > 0
    ensures StepEnds(t, v) <==> AlwaysRejects(t, v)
  {
    var m := LargestKept(t, v, WINDOW_SIZE - 1);
    if !AlwaysRejects(t, v) {
      LargestIsLarge(t, v);
      hide MixRejects, LargestKept, AlwaysRejects;
      forall a: nat | 1 <= a <= 11
        ensures !LosesRest(t, v, m, a)
      {
        TurningTests(t, v, WINDOW_SIZE - 1 - m, a, m + 1 - a);
      }
    }
  }

  // ---------- When a single reading is kept ----------

  ghost predicate KeptWhenStored(t: int, v: int, k: nat)
    requires k < WINDOW_SIZE
  {
    v != 0 && After(Initially(t), Repeat(v, k + 1)).slots[k] == v
  }

  lemma KeptNow(w: Window, t: int, v: int, m: nat)
    requires FirstKept(t, v, m) && w.Valid() && w == Window(Turning(t, v, WINDOW_SIZE - 1 - m, 0), WINDOW_SIZE - 1 - m)
    ensures w.Next(v).slots[WINDOW_SIZE - 1 - m] == v
  {
    hide MixRejects, LosesRest, Cleaned;
    TurningStep(w, t, v, m, 1);
  }

  lemma KeptAt(t: int, v: int, m: nat)
    requires v != 0 && FirstKept(t, v, m)
    ensures KeptWhenStored(t, v, WINDOW_SIZE - 1 - m)
  {
    var k: nat := WINDOW_SIZE - 1 - m;
    assert k < WINDOW_SIZE;
    hide MixRejects, After, FirstKept, LosesRest, Cleaned, Initially, Repeat, Turning;
    TurningRun(t, v, m, 0);
    AfterRepeat(Initially(t), v, k + 1);
    KeptNow(After(Initially(t), Repeat(v, k)), t, v, m);
  }

  lemma KeptOnce(t: int, v: int)
    requires v != 0 && !AlwaysRejects(t, v)
    ensures var k := WINDOW_SIZE - 1 - LargestKept(t, v, WINDOW_SIZE - 1);
            0 <= k <= 51 && KeptWhenStored(t, v, k)
  {
    FirstKeptIs(t, v);
    hide MixRejects, LargestKept, KeptWhenStored, AlwaysRejects;
    KeptAt(t, v, LargestKept(t, v, WINDOW_SIZE - 1));
  }

  lemma NeverKept(t: int, v: int, k: nat)
    requires AlwaysRejects(t, v) && k < WINDOW_SIZE
    ensures !KeptWhenStored(t, v, k)
  {
    assert MixRejects(1, 1, v, t);
    NotZero(t, v);
    hide MixRejects, After;
    DiscardedRun(t, v, k + 1);
  }

  /** Some reading of v != 0 is kept when it is stored, and then one of the first 52, unless all are discarded. */
  lemma ValueIsKeptIff(t: int, v: int)
    ensures v != 0 && !AlwaysRejects(t, v) <==> exists k: nat :: k < WINDOW_SIZE && KeptWhenStored(t, v, k)
    ensures v != 0 && !AlwaysRejects(t, v) <==> exists k: nat :: k <= 51 && KeptWhenStored(t, v, k)
  {
    hide AlwaysRejects, After;
    if AlwaysRejects(t, v) {
      forall k: nat | k < WINDOW_SIZE
        ensures !KeptWhenStored(t, v, k)
      {
        NeverKept(t, v, k);
      }
    } else if v != 0 {
      KeptOnce(t, v);
    }
  }

  /** Being kept is not enough: here the 46th reading of v is kept, and still the window is lost. */
  lemma KeptAndYetLost()
    ensures KeptWhenStored(1000, -654, 45)
    ensures StepEnds(1000, -654)
  {
    assert forall c: nat :: 19 < c < WINDOW_SIZE ==> MixRejects(1, c, -654, 1000);
    assert !MixRejects(1, 19, -654, 1000);
    assert LargestKept(1000, -654, WINDOW_SIZE - 1) == 19;
    assert LosesRest(1000, -654, 19, 10);
    hide MixRejects, LargestKept, KeptWhenStored;
    KeptOnce(1000, -654);
  }

  // ---------- How large a step ends the node ----------

  /** The square of c t - (26 t + 12 v); b, h and k stand for c t v, c^2 t^2 and c t^2. */
  lemma LargeStepSquare(c: real, t: real, v: real, b: real, h: real, k: real)
    requires b == c * (v * t) && h == c * (c * Sq(t)) && k == c * Sq(t)
    ensures h - 52.0 * k - 24.0 * b + 676.0 * Sq(t) + 624.0 * (v * t) + 144.0 * Sq(v) >= 0.0
  {
    assert Sq(c * t - (26.0 * t + 12.0 * v)) ==
           h - 52.0 * k - 24.0 * b + 676.0 * Sq(t) + 624.0 * (v * t) + 144.0 * Sq(v);
  }

  lemma ExcessTerms(c: real, x: real, y: real, z: real, b: real, h: real, k: real)
    requires b == c * y && h == c * (c * z) && k == c * z
    ensures ExcessOf(c, x, y, z) == 768.0 * x - 24.0 * b + h - 52.0 * k
  {
    assert c * (c - 52.0) * z == h - 52.0 * k;
  }

  /** e, b, h and k stand for the excess, c t v, c^2 t^2 and c t^2. */
  lemma LargeStepSum(e: real, x: real, y: real, z: real, b: real, h: real, k: real)
    requires e == 768.0 * x - 24.0 * b + h - 52.0 * k && 12.0 * x - 12.0 * y > 13.0 * z
    requires h - 52.0 * k - 24.0 * b + 676.0 * z + 624.0 * y + 144.0 * x >= 0.0
    ensures e > 0.0
  {
  }

  lemma LargeStepExcess(c: real, t: real, v: real)
    requires 12.0 * Sq(v) - 12.0 * (v * t) > 13.0 * Sq(t)
    ensures MixExcess(1.0, c, v, t) > 0.0
  {
    OneSlotForm(c, v, t);
    hide Sq, ExcessOf, MixExcess;
    var x, y, z := Sq(v), v * t, Sq(t);
    var b, h, k := c * y, c * (c * z), c * z;
    LargeStepSquare(c, t, v, b, h, k);
    ExcessTerms(c, x, y, z, b, h, k);
    LargeStepSum(ExcessOf(c, x, y, z), x, y, z, b, h, k);
  }

  /** A step with 12 v^2 - 12 t v > 13 t^2: above about 1.655 t, or below about -0.655 t. */
  lemma LargeStepRejected(t: int, v: int)
    requires 12.0 * Sq(v as real) - 12.0 * (v as real * t as real) > 13.0 * Sq(t as real)
    ensures AlwaysRejects(t, v)
  {
    hide MixRejects, MixExcess, Sq;
    forall c: nat | 1 <= c < WINDOW_SIZE
      ensures MixRejects(1, c, v, t)
    {
      LargeStepExcess(c as real, t as real, v as real);
      RejectsInReals(1, c, v, t);
    }
  }

  lemma FiveThirds(t: real, v: real)
    requires t > 0.0 && 3.0 * v >= 5.0 * t
    ensures 12.0 * Sq(v) - 12.0 * (v * t) > 13.0 * Sq(t)
  {
    var d := v - 5.0 / 3.0 * t;
    NonNegativeProduct(d, t);
    SignOfProduct(t, t);
    assert v * t == t * d + 5.0 / 3.0 * Sq(t);
    assert Sq(v) == Sq(d) + 10.0 / 3.0 * (t * d) + 25.0 / 9.0 * Sq(t);
  }

  /** The band of the stable runs is nearly as wide as it can be: a step up by 5/3 ends the node. */
  lemma FiveThirdsEnds(t: int, v: int, readings: seq<int>, reading: int)
    requires t > 0 && 3 * v >= 5 * t
    ensures After(Initially(t), Repeat(v, WINDOW_SIZE) + readings).Sent(reading) == None
  {
    hide After, AlwaysRejects, Sq;
    FiveThirds(t as real, v as real);
    LargeStepRejected(t, v);
    StepEndsForGood(t, v, readings, reading);
  }
}
