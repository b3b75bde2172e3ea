/**
  The sensor node's window over whole runs: a ring of WINDOW_SIZE slots, one slot overwritten
  and then the whole ring cleaned at every reading (main loop of src/compute_engine/main.c).
 */
module WindowRuns {
  import opened Wrappers
  import opened Statistics
  import opened Cleaner

  datatype Window = Window(slots: seq<int>, cursor: nat) {
    ghost predicate Valid() {
      |slots| == WINDOW_SIZE && cursor < WINDOW_SIZE
    }

    /** The contents right after a reading is stored, before cleaning. */
    ghost function Written(reading: int): seq<int>
      requires Valid()
    {
      slots[cursor := reading]
    }

    ghost function Next(reading: int): (w: Window)
      requires Valid()
      ensures w.Valid()
    {
      Window(Cleaned(Written(reading)), if cursor + 1 >= WINDOW_SIZE then 0 else cursor + 1)
    }

    /** The value sent for a reading. */
    ghost function Sent(reading: int): Option<int>
      requires Valid()
    {
      Outgoing(Written(reading))
    }
  }

  function Repeat(x: int, n: nat): (s: seq<int>)
    ensures |s| == n && forall i :: 0 <= i < n ==> s[i] == x
  {
    seq(n, _ => x)
  }

  /** The window before the first reading: every slot holds the initial temperature. */
  ghost function Initially(initial: int): (w: Window)
    ensures w.Valid()
  {
    Window(Repeat(initial, WINDOW_SIZE), 0)
  }

  ghost function After(w: Window, readings: seq<int>): (w': Window)
    requires w.Valid()
    ensures w'.Valid()
  {
    if readings == [] then w
    else After(w, readings[..|readings| - 1]).Next(readings[|readings| - 1])
  }

  // ---------- History ----------

  /** Reading number j, from 0, is stored in slot i. */
  predicate InSlot(j: int, i: nat) {
    j % WINDOW_SIZE == i
  }

  lemma SlotFacts(j: int, i: nat)
    requires i < WINDOW_SIZE
    ensures InSlot(j, i) == InSlot(j - WINDOW_SIZE, i)
    ensures InSlot(i, i)
    ensures 0 <= j < i ==> !InSlot(j, i)
  {
  }

  /** The reading last stored in slot i, or the initial value. */
  ghost function LastWritten(initial: int, readings: seq<int>, i: nat): int {
    if readings == [] then initial
    else if InSlot(|readings| - 1, i) then readings[|readings| - 1]
    else LastWritten(initial, readings[..|readings| - 1], i)
  }

  /** A slot after a reading is 0, the reading, or what it was. */
  lemma NextSlots(w: Window, reading: int)
    requires w.Valid()
    ensures w.Next(reading).cursor == (w.cursor + 1) % WINDOW_SIZE
    ensures forall i :: 0 <= i < WINDOW_SIZE ==>
              || w.Next(reading).slots[i] == 0
              || w.Next(reading).slots[i] == if i == w.cursor then reading else w.slots[i]
  {
    hide Within;
  }

  /** Every slot is 0 or the reading last stored in it. */
  ghost predicate Recalls(slots: seq<int>, initial: int, readings: seq<int>)
    requires |slots| == WINDOW_SIZE
  {
    forall i :: 0 <= i < WINDOW_SIZE ==> slots[i] == 0 || slots[i] == LastWritten(initial, readings, i)
  }

  lemma RecallsNext(w: Window, initial: int, readings: seq<int>)
    requires w.Valid() && readings != [] && w.cursor == (|readings| - 1) % WINDOW_SIZE
    requires Recalls(w.slots, initial, readings[..|readings| - 1])
    ensures Recalls(w.Next(readings[|readings| - 1]).slots, initial, readings)
  {
    hide Cleaned;
    NextSlots(w, readings[|readings| - 1]);
  }

  lemma CursorNext(n: nat)
    requires n > 0
    ensures ((n - 1) % WINDOW_SIZE + 1) % WINDOW_SIZE == n % WINDOW_SIZE
  {
  }

  /** Over every run the cursor counts readings modulo 65 and a slot is 0 or its last reading. */
  lemma {:induction false} WindowHistory(initial: int, readings: seq<int>)
    ensures var w := After(Initially(initial), readings);
            w.cursor == |readings| % WINDOW_SIZE && Recalls(w.slots, initial, readings)
  {
    if readings != [] {
      hide Cleaned, Recalls;
      var front, last := readings[..|readings| - 1], readings[|readings| - 1];
      WindowHistory(initial, front);
      var w := After(Initially(initial), front);
      NextSlots(w, last);
      CursorNext(|readings|);
      RecallsNext(w, initial, readings);
    }
  }

  /** ... and that last reading is among the 65 most recent ones. */
  lemma {:induction false} LastWrittenIsRecent(initial: int, readings: seq<int>, i: nat)
    requires i < WINDOW_SIZE
    ensures |readings| <= i ==> LastWritten(initial, readings, i) == initial
    ensures |readings| > i ==>
              exists j :: 0 <= j < |readings| && |readings| - WINDOW_SIZE <= j && InSlot(j, i) &&
                          LastWritten(initial, readings, i) == readings[j]
  {
    hide InSlot;
    var n := |readings|;
    SlotFacts(n - 1, i);
    if n != 0 && !InSlot(n - 1, i) {
      var front := readings[..n - 1];
      LastWrittenIsRecent(initial, front, i);
      if n > i {
        var j :| 0 <= j < n - 1 && n - 1 - WINDOW_SIZE <= j && InSlot(j, i) &&
                 LastWritten(initial, front, i) == front[j];
        assert LastWritten(initial, readings, i) == readings[j];
      }
    } else if n != 0 {
      assert LastWritten(initial, readings, i) == readings[n - 1];
    }
  }

  ghost predicate RecentIn(initial: int, readings: seq<int>, lo: int, hi: int) {
    && (forall j :: 0 <= j < |readings| && |readings| - WINDOW_SIZE < j ==> lo <= readings[j] <= hi)
    && (|readings| < WINDOW_SIZE - 1 ==> lo <= initial <= hi)
  }

  /** A slot other than the cursor's was written less than 65 readings ago, or never. */
  lemma RecentSlot(n: nat, i: nat)
    requires i < WINDOW_SIZE && i != n % WINDOW_SIZE
    ensures forall j :: n - WINDOW_SIZE <= j < n && InSlot(j, i) ==> n - WINDOW_SIZE < j
    ensures n <= i ==> n < WINDOW_SIZE - 1
  {
    assert (n - WINDOW_SIZE) % WINDOW_SIZE == n % WINDOW_SIZE;
  }

  lemma RecentSlotIn(initial: int, readings: seq<int>, i: nat, lo: int, hi: int)
    requires i < WINDOW_SIZE && i != |readings| % WINDOW_SIZE && RecentIn(initial, readings, lo, hi)
    ensures lo <= LastWritten(initial, readings, i) <= hi
  {
    LastWrittenIsRecent(initial, readings, i);
    RecentSlot(|readings|, i);
  }

  /** Over every run, the value sent lies between the smallest and largest of the last 65 readings. */
  lemma SentWithinRecent(initial: int, readings: seq<int>, reading: int, lo: int, hi: int)
    requires lo <= reading <= hi && RecentIn(initial, readings, lo, hi)
    ensures var sent := After(Initially(initial), readings).Sent(reading);
            sent.Some? ==> lo <= sent.value <= hi
  {
    var w := After(Initially(initial), readings);
    var written := w.Written(reading);
    WindowHistory(initial, readings);
    SurvivorsFrom(written);
    hide Within, LastWritten, After, Outgoing, RecentIn, Survivors;
    forall x | x in Survivors(written)
      ensures lo <= x <= hi
    {
      var i :| 0 <= i < |written| && written[i] == x;
      if i != w.cursor { RecentSlotIn(initial, readings, i, lo, hi); }
    }
    OutgoingInRange(written, lo, hi);
  }

  /** A zeroed slot stays 0 until the cursor comes back to it. */
  lemma ZeroStaysZero(w: Window, reading: int, i: nat)
    requires w.Valid() && i < WINDOW_SIZE && i != w.cursor && w.slots[i] == 0
    ensures w.Next(reading).slots[i] == 0
  {
    var written := w.Written(reading);
    assert written[i] == 0;
    assert w.Next(reading).slots[i] == if Inlier(written, SQ_FACTOR)(written[i]) then written[i] else 0;
  }

  // ---------- Windows that hold two values ----------

  function Is(u: int): int -> bool {
    x => x == u
  }

  function Count(s: seq<int>, u: int): nat {
    |Select(s, Is(u))|
  }

  predicate OnlyEither(s: seq<int>, u: int, v: int) {
    forall x :: x in s ==> x == u || x == v
  }

  lemma AddConstant(s: seq<int>, f: int -> real, b: real)
    requires forall x :: x in s ==> f(x) == b
    ensures Add(s, f) == Times(|s|, b)
  {
    AddAtLeast(s, f, b);
    AddAtMost(s, f, b);
  }

  lemma AddTwoValued(s: seq<int>, u: int, v: int, f: int -> real)
    requires u != v && OnlyEither(s, u, v)
    ensures Count(s, u) <= |s|
    ensures Add(s, f) == Times(Count(s, u), f(u)) + Times(|s| - Count(s, u), f(v))
  {
    AddSplit(s, Is(u), f);
    SelectMembers(s, Is(u));
    SelectMembers(s, Not(Is(u)));
    AddConstant(Select(s, Is(u)), f, f(u));
    AddConstant(Select(s, Not(Is(u))), f, f(v));
  }

  /** t is c times a plus z times b. */
  predicate Mixture(c: real, z: real, a: real, b: real, t: real) {
    t == c * a + z * b
  }

  lemma MixtureOf(c: nat, z: nat, a: real, b: real)
    ensures Mixture(c as real, z as real, a, b, Times(c, a) + Times(z, b))
  {
    TimesIsProduct(c, a);
    TimesIsProduct(z, b);
  }

  lemma TwoValuedCentre(c: real, z: real, n: real, u: real, v: real, t: real, d: real)
    requires n == c + z && Mixture(c, z, u, v, t) && d == Sq(u - v)
    ensures Sq(n * u - t) == z * (z * d)
  {
    assert n * u - t == z * (u - v);
    ScaledSquare(z, u - v);
  }

  lemma TwoValuedSpread(c: real, z: real, n: real, u: real, v: real, t: real, q: real, d: real)
    requires n == c + z && Mixture(c, z, u, v, t) && Mixture(c, z, Sq(u), Sq(v), q) && d == Sq(u - v)
    ensures n * q - Sq(t) == c * (z * d)
  {
  }

  predicate Outweighs(c: real, z: real, d: real) {
    z * (z * d) <= 4.0 * (c * (z * d))
  }

  lemma TwoValuedNear(c: real, z: real, n: real, u: real, v: real, t: real, q: real, d: real)
    requires n == c + z && Mixture(c, z, u, v, t) && Mixture(c, z, Sq(u), Sq(v), q) && d == Sq(u - v)
    ensures NearMean(n, t, q, SQ_FACTOR, u) <==> Outweighs(c, z, d)
  {
    hide Sq, Mixture;
    TwoValuedCentre(c, z, n, u, v, t, d);
    TwoValuedSpread(c, z, n, u, v, t, q, d);
  }

  lemma TwoValuedSign(c: nat, z: nat, d: real)
    requires d > 0.0
    ensures Outweighs(c as real, z as real, d) <==> z <= 4 * c
  {
    var p, gap := z as real * d, 4.0 * c as real - z as real;
    assert p * gap == 4.0 * (c as real * p) - z as real * p;
    if z == 0 {
      assert p == 0.0;
    } else {
      SignOfProduct(d, z as real);
      SignOfProduct(p, gap);
    }
  }

  /** Of c copies of u and z of v, u passes exactly when z <= 4 c. */
  lemma TwoValuedTest(c: nat, z: nat, n: real, u: real, v: real, t: real, q: real)
    requires n == (c + z) as real && u != v
    requires t == Times(c, u) + Times(z, v) && q == Times(c, Sq(u)) + Times(z, Sq(v))
    ensures NearMean(n, t, q, SQ_FACTOR, u) <==> z <= 4 * c
  {
    hide *;
    MixtureOf(c, z, u, v);
    MixtureOf(c, z, Sq(u), Sq(v));
    SquarePositive(u - v);
    TwoValuedSign(c, z, Sq(u - v));
    TwoValuedNear(c as real, z as real, n, u, v, t, q, Sq(u - v));
  }

  /** In a window of two values, u is kept exactly when it holds a fifth of the slots. */
  lemma TwoValuedWindow(w: seq<int>, u: int, v: int)
    requires w != [] && u != v && OnlyEither(w, u, v)
    ensures Within(w, SQ_FACTOR, u) <==> |w| <= 5 * Count(w, u)
  {
    hide Sq, Add, Within, NearMean, Times, Select;
    AddTwoValued(w, u, v, Value());
    AddTwoValued(w, u, v, Square());
    WithinCleared(w, SQ_FACTOR, u);
    TwoValuedTest(Count(w, u), |w| - Count(w, u), |w| as real, u as real, v as real, Sum(w), Add(w, Square()));
  }

  lemma FifthStep(a: real, k: real, e: real, v: real)
    requires a > 0.0 && k <= 4.0 * a && v >= 0.0 && e * a <= k * v
    ensures e <= 4.0 * v
  {
    NonNegativeProduct(4.0 * a - k, v);
    assert (4.0 * a - k) * v == 4.0 * (a * v) - k * v;
    LessCancel(a, e, 4.0 * v);
  }

  /** Whatever the other slots hold, a value that fills a fifth of the window is kept. */
  lemma FifthIsKept(w: seq<int>, u: int)
    requires w != [] && |w| <= 5 * Count(w, u)
    ensures Within(w, SQ_FACTOR, u)
  {
    var part := Select(w, Is(u));
    SelectMembers(w, Is(u));
    SubsetMeanShift(w, Is(u));
    VarianceTimes(w);
    MeanBetween(part, u, u);
    hide Mean, Variance, Select, Sq;
    ScaledSquare(1.0, u as real - Mean(w));
    FifthStep(|part| as real, |w| as real - |part| as real, Sq(u as real - Mean(w)), Variance(w));
  }

  lemma CountMember(s: seq<int>, v: int)
    ensures Count(s, v) > 0 ==> v in s
  {
    SelectMembers(s, Is(v));
    if Count(s, v) > 0 {
      var x := Select(s, Is(v))[0];
      assert x in Select(s, Is(v)) && Is(v)(x);
    }
  }

  /** A window that cleaning leaves at v and 0 sends v. */
  lemma OnlyValueSent(w: seq<int>, v: int)
    requires w != [] && v != 0 && v in Cleaned(w) && OnlyEither(Cleaned(w), v, 0)
    ensures Outgoing(w) == Some(v)
  {
    SelectMembers(Cleaned(w), NonZero());
    hide Cleaned, Within;
    assert v in Survivors(w);
    OutgoingInRange(w, v, v);
  }

  predicate AllZero(s: seq<int>) {
    forall i :: 0 <= i < |s| ==> s[i] == 0
  }

  /** A window that cleaning leaves at 0 sends nothing. */
  lemma NothingSent(w: seq<int>)
    requires w != [] && AllZero(Cleaned(w))
    ensures Outgoing(w) == None
  {
    hide Cleaned, Within;
    SelectNothing(Cleaned(w), NonZero());
  }

  /** One round over slots that hold v or 0: v survives exactly when 13 of the 65 slots hold it. */
  lemma OneValueRound(w: seq<int>, v: int)
    requires |w| == WINDOW_SIZE && v != 0 && OnlyEither(w, v, 0)
    ensures Count(w, v) >= 13 ==> Cleaned(w) == w && Outgoing(w) == Some(v)
    ensures Count(w, v) < 13 ==> AllZero(Cleaned(w)) && Outgoing(w) == None
  {
    TwoValuedWindow(w, v, 0);
    CountMember(w, v);
    hide Within, Count, SQ_FACTOR, Outgoing;
    forall i | 0 <= i < |w|
      ensures Cleaned(w)[i] == if Count(w, v) >= 13 then w[i] else 0
    {
      assert w[i] in w;
      assert Cleaned(w)[i] == if Inlier(w, SQ_FACTOR)(w[i]) then w[i] else 0;
    }
    if Count(w, v) >= 13 {
      assert Cleaned(w) == w;
      OnlyValueSent(w, v);
    } else {
      NothingSent(w);
    }
  }

  // ---------- A window that lost every reading ----------

  lemma {:induction false} CountPrefix(s: seq<int>, k: nat, x: int, u: int, n: nat)
    requires n <= |s| && x != u
    requires forall i :: 0 <= i < |s| ==> s[i] == if i == k then x else u
    ensures Count(s[..n], x) == if k < n then 1 else 0
    ensures Count(s[..n], u) == if k < n then n - 1 else n
  {
    if n != 0 {
      CountPrefix(s, k, x, u, n - 1);
      assert s[..n][..n - 1] == s[..n - 1];
    }
  }

  lemma LoneCount(s: seq<int>, k: nat, x: int, u: int)
    requires k < |s| && x != u && s[k] == x
    requires forall i :: 0 <= i < |s| && i != k ==> s[i] == u
    ensures OnlyEither(s, x, u) && OnlyEither(s, u, x)
    ensures Count(s, x) == 1 && Count(s, u) == |s| - 1
  {
    assert forall i :: 0 <= i < |s| ==> s[i] == if i == k then x else u;
    CountPrefix(s, k, x, u, |s|);
    assert s[..|s|] == s;
  }

  /** A reading that differs from 64 equal slots is always discarded, whatever its value. */
  lemma LoneReadingIsDiscarded(w: Window, u: int, reading: int)
    requires w.Valid() && reading != u
    requires forall i :: 0 <= i < WINDOW_SIZE && i != w.cursor ==> w.slots[i] == u
    ensures w.Next(reading).slots[w.cursor] == 0
    ensures forall i :: 0 <= i < WINDOW_SIZE && i != w.cursor ==> w.Next(reading).slots[i] == u
    ensures w.Sent(reading) == if u == 0 then None else Some(u)
  {
    var written, next := w.Written(reading), w.Next(reading).slots;
    LoneCount(written, w.cursor, reading, u);
    TwoValuedWindow(written, reading, u);
    TwoValuedWindow(written, u, reading);
    hide Within, Count, Outgoing;
    assert forall i :: 0 <= i < WINDOW_SIZE ==>
      next[i] == if Inlier(written, SQ_FACTOR)(written[i]) then written[i] else 0;
    if u != 0 {
      assert next[(w.cursor + 1) % WINDOW_SIZE] == u;
      OnlyValueSent(written, u);
    } else {
      NothingSent(written);
    }
  }

  lemma StillDead(w: Window, reading: int)
    requires w.Valid() && AllZero(w.slots)
    ensures AllZero(w.Next(reading).slots) && w.Sent(reading) == None
  {
    if reading == 0 {
      assert w.Written(reading) == w.slots;
      hide Within;
      NothingSent(w.slots);
    } else {
      LoneReadingIsDiscarded(w, 0, reading);
    }
  }

  /** Once every slot is 0 no sequence of readings brings the node back: it never sends a value again. */
  lemma {:induction false} DeadForever(w: Window, readings: seq<int>, reading: int)
    requires w.Valid() && AllZero(w.slots)
    ensures AllZero(After(w, readings).slots)
    ensures After(w, readings).Sent(reading) == None
    decreases |readings|
  {
    if readings != [] {
      var front, last := readings[..|readings| - 1], readings[|readings| - 1];
      DeadForever(w, front, last);
      StillDead(After(w, front), last);
    }
    StillDead(After(w, readings), reading);
  }

  /** A node whose initial reading is 0 (a failed read, or 0 degrees) never sends a value. */
  lemma ZeroStartNeverSends(readings: seq<int>, reading: int)
    ensures After(Initially(0), readings).Sent(reading) == None
  {
    DeadForever(Initially(0), readings, reading);
  }

  lemma {:induction false} LoneCountAll(s: seq<int>, v: int)
    requires forall i :: 0 <= i < |s| ==> s[i] == v
    ensures Count(s, v) == |s|
  {
    if s != [] { LoneCountAll(s[..|s| - 1], v); }
  }

  /** A node that starts at t sends t first, whatever it reads, and nothing if t is 0. */
  lemma FirstMessageIsInitial(t: int, reading: int)
    ensures Initially(t).Sent(reading) == if t == 0 then None else Some(t)
  {
    if reading != t {
      LoneReadingIsDiscarded(Initially(t), t, reading);
    } else if t == 0 {
      StillDead(Initially(t), reading);
    } else {
      var w := Initially(t).Written(t);
      assert w == Repeat(t, WINDOW_SIZE);
      LoneCountAll(w, t);
      OneValueRound(w, t);
    }
  }

  // ---------- Recovery ----------

  lemma {:induction false} SelectUpdate(s: seq<int>, k: nat, x: int, p: int -> bool)
    requires k < |s| && p(x)
    ensures |Select(s[k := x], p)| == |Select(s, p)| + if p(s[k]) then 0 else 1
  {
    var front, last := s[..|s| - 1], |s| - 1;
    if k == last {
      assert s[k := x][..last] == front;
    } else {
      assert s[k := x][..last] == front[k := x];
      SelectUpdate(front, k, x, p);
    }
  }

  ghost predicate Recovering(w: Window, v: int)
    requires w.Valid()
  {
    OnlyEither(w.slots, v, 0) && Count(w.Written(v), v) >= 13
  }

  lemma WrittenEither(w: Window, v: int)
    requires w.Valid() && OnlyEither(w.slots, v, 0)
    ensures OnlyEither(w.Written(v), v, 0)
  {
    forall x | x in w.Written(v)
      ensures x == v || x == 0
    {
      var i :| 0 <= i < WINDOW_SIZE && w.Written(v)[i] == x;
      if i != w.cursor { assert w.slots[i] in w.slots; }
    }
  }

  lemma RecoveringStep(w: Window, v: int)
    requires w.Valid() && v != 0 && Recovering(w, v)
    ensures w.Sent(v) == Some(v)
    ensures w.Next(v).slots == w.Written(v)
    ensures Recovering(w.Next(v), v)
  {
    WrittenEither(w, v);
    OneValueRound(w.Written(v), v);
    SelectUpdate(w.Written(v), w.Next(v).cursor, v, Is(v));
  }

  /** The cursor k readings later. */
  function Ahead(cursor: nat, k: nat): nat {
    (cursor + k) % WINDOW_SIZE
  }

  /** Whether slot i is among the next k that the cursor visits. */
  predicate Visited(i: nat, cursor: nat, k: nat) {
    (i - cursor) % WINDOW_SIZE < k
  }

  lemma RingStep(i: nat, c: nat, k: nat)
    requires i < WINDOW_SIZE && c < WINDOW_SIZE && k > 0
    ensures Visited(i, c, k) <==> Visited(i, c, k - 1) || i == Ahead(c, k - 1)
  {
  }

  lemma CursorStep(c: nat, k: nat)
    requires k > 0
    ensures Ahead(c, k) == if Ahead(c, k - 1) + 1 >= WINDOW_SIZE then 0 else Ahead(c, k - 1) + 1
  {
  }

  lemma AfterRepeat(w: Window, v: int, k: nat)
    requires w.Valid() && k > 0
    ensures After(w, Repeat(v, k)) == After(w, Repeat(v, k - 1)).Next(v)
  {
    assert Repeat(v, k)[..k - 1] == Repeat(v, k - 1);
  }

  /** The slots that the next k readings of v leave behind. */
  ghost predicate Filled(before: seq<int>, now: seq<int>, cursor: nat, k: nat, v: int)
    requires |before| == |now| == WINDOW_SIZE
  {
    forall i :: 0 <= i < WINDOW_SIZE ==> now[i] == if Visited(i, cursor, k) then v else before[i]
  }

  lemma FilledStep(before: seq<int>, now: seq<int>, cursor: nat, k: nat, v: int)
    requires |before| == |now| == WINDOW_SIZE && cursor < WINDOW_SIZE && k > 0
    requires Filled(before, now, cursor, k - 1, v)
    ensures Filled(before, now[Ahead(cursor, k - 1) := v], cursor, k, v)
  {
    forall i | 0 <= i < WINDOW_SIZE
      ensures now[Ahead(cursor, k - 1) := v][i] == if Visited(i, cursor, k) then v else before[i]
    {
      RingStep(i, cursor, k);
      hide Visited, Ahead;
    }
  }

  /** 65 readings or more leave no other slot. */
  lemma FilledAll(before: seq<int>, now: seq<int>, cursor: nat, k: nat, v: int)
    requires |before| == |now| == WINDOW_SIZE && cursor < WINDOW_SIZE && k >= WINDOW_SIZE
    requires Filled(before, now, cursor, k, v)
    ensures now == Repeat(v, WINDOW_SIZE)
  {
  }

  /** With v in 13 slots, k readings of v fill the k slots from the cursor on and change nothing else. */
  lemma {:induction false} RecoversWith(w: Window, v: int, k: nat)
    requires w.Valid() && v != 0 && Recovering(w, v)
    ensures var w' := After(w, Repeat(v, k));
            && Recovering(w', v) && w'.Sent(v) == Some(v)
            && w'.cursor == Ahead(w.cursor, k)
            && Filled(w.slots, w'.slots, w.cursor, k, v)
  {
    if k == 0 {
      RecoveringStep(w, v);
    } else {
      hide Recovering, Cleaned, Outgoing, Ahead, Visited, After, Filled;
      AfterRepeat(w, v, k);
      var prior := After(w, Repeat(v, k - 1));
      RecoversWith(w, v, k - 1);
      RecoveringStep(prior, v);
      RecoveringStep(prior.Next(v), v);
      CursorStep(w.cursor, k);
      FilledStep(w.slots, prior.slots, w.cursor, k, v);
    }
  }

  /** With v in fewer than 13 slots, one more reading of v empties the window. */
  lemma DiesWithout(w: Window, v: int, readings: seq<int>, reading: int)
    requires w.Valid() && v != 0 && OnlyEither(w.slots, v, 0) && Count(w.Written(v), v) < 13
    ensures w.Sent(v) == None
    ensures AllZero(After(w.Next(v), readings).slots)
    ensures After(w.Next(v), readings).Sent(reading) == None
  {
    WrittenEither(w, v);
    OneValueRound(w.Written(v), v);
    DeadForever(w.Next(v), readings, reading);
  }

  /**
    The recovery threshold. From a window of v and 0, repeated readings of v are all sent as v
    if and only if v holds 13 slots once it is stored; one reading decides.
   */
  lemma RecoveryThreshold(w: Window, v: int)
    requires w.Valid() && v != 0 && OnlyEither(w.slots, v, 0)
    ensures Count(w.Written(v), v) >= 13 <==> w.Sent(v) == Some(v)
    ensures Count(w.Written(v), v) >= 13 <==> forall k: nat :: After(w, Repeat(v, k)).Sent(v) == Some(v)
  {
    assert After(w, Repeat(v, 0)) == w;
    if Count(w.Written(v), v) >= 13 {
      assert Recovering(w, v);
      hide Recovering, Count, After, Outgoing;
      forall k: nat
        ensures After(w, Repeat(v, k)).Sent(v) == Some(v)
      {
        RecoversWith(w, v, k);
      }
      RecoversWith(w, v, 0);
    } else {
      DiesWithout(w, v, [], v);
      hide After, Outgoing;
      assert After(w, Repeat(v, 0)).Sent(v) == None;
    }
  }

  lemma {:induction false} AfterFirst(w: Window, v: int, k: nat)
    requires w.Valid()
    ensures After(w, Repeat(v, k + 1)) == After(w.Next(v), Repeat(v, k))
  {
    assert Repeat(v, k + 1)[..k] == Repeat(v, k);
    if k == 0 {
      assert Repeat(v, 1)[..0] == [];
    } else {
      AfterFirst(w, v, k - 1);
      assert Repeat(v, k)[..k - 1] == Repeat(v, k - 1);
    }
  }

  /** Under the same condition, and only then, 65 readings of v fill the window with v. */
  lemma RecoveryFills(w: Window, v: int)
    requires w.Valid() && v != 0 && OnlyEither(w.slots, v, 0)
    ensures Count(w.Written(v), v) >= 13 <==> After(w, Repeat(v, WINDOW_SIZE)).slots == Repeat(v, WINDOW_SIZE)
  {
    if Count(w.Written(v), v) >= 13 {
      assert Recovering(w, v);
      hide Recovering, Count, After, Outgoing;
      RecoversWith(w, v, WINDOW_SIZE);
    } else {
      DiesWithout(w, v, Repeat(v, WINDOW_SIZE - 1), v);
      AfterFirst(w, v, WINDOW_SIZE - 1);
      hide After, Outgoing, Count;
      assert After(w, Repeat(v, WINDOW_SIZE)).slots[0] == 0;
    }
  }
}
