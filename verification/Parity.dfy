/**
  The odd-parity bit: computed in C by the sensor node, checked in Python by the server, and
  computed a third way by the Python test client.
 */
module Parity {
  import opened Wrappers

  /** The number of bits both functions look at. */
  const WIDTH: nat := 16

  /**
    The ones among the k low bits of num in two's complement. Dafny's % 2 and / 2 on integers are
    the low bit and the arithmetic shift of a negative number, as in C and Python.
   */
  function Ones(num: int, k: nat): nat
    decreases k
  {
    if k == 0 then 0 else num % 2 + Ones(num / 2, k - 1)
  }

  lemma OnesStep(num: int, k: nat)
    ensures k > 0 ==> Ones(num, k) == num % 2 + Ones(num / 2, k - 1)
    ensures Ones(num, 0) == 0
  {
  }

  /** The bit that makes the number of ones odd. */
  function OddParity(num: int): int {
    if Ones(num, WIDTH) % 2 == 0 then 1 else 0
  }

  /** The C function: 16 rounds of test and shift over an int16_t, counted in an int8_t. */
  method CalculateOddParity(num: int16) returns (parity: int)
    ensures parity == OddParity(num)
  {
    hide Ones;
    var count: int, rest: int16 := 0, num;
    for i := 0 to WIDTH
      invariant 0 <= count <= i
      invariant count + Ones(rest, WIDTH - i) == Ones(num, WIDTH)
    {
      OnesStep(rest, WIDTH - i);
      if rest % 2 == 1 {
        count := count + 1;
      }
      rest := rest / 2;
    }
    OnesStep(rest, 0);
    parity := if count % 2 == 0 then 1 else 0;
  }

  /** The server's function of the same name, which returns the count. */
  method CountOnes(num: int) returns (count: int)
    ensures count == Ones(num, WIDTH)
  {
    hide Ones;
    count := 0;
    var rest := num;
    for i := 0 to WIDTH
      invariant count + Ones(rest, WIDTH - i) == Ones(num, WIDTH)
    {
      OnesStep(rest, WIDTH - i);
      if rest % 2 == 1 {
        count := count + 1;
      }
      rest := rest / 2;
    }
    OnesStep(rest, 0);
  }

  predicate ParityOk(value: int, parity: int) {
    (Ones(value, WIDTH) + parity) % 2 == 1
  }

  method ParityCheck(value: int, parity: int) returns (ok: bool)
    ensures ok == ParityOk(value, parity)
  {
    hide Ones;
    var count := CountOnes(value);
    ok := (count + parity) % 2 == 1;
  }

  /** The number of positions among the k low bits where x and y differ. */
  function Distance(x: int, y: int, k: nat): nat
    decreases k
  {
    if k == 0 then 0 else (if x % 2 == y % 2 then 0 else 1) + Distance(x / 2, y / 2, k - 1)
  }

  /** The number of those positions where both have a one. */
  function Shared(x: int, y: int, k: nat): nat
    decreases k
  {
    if k == 0 then 0 else (if x % 2 == 1 && y % 2 == 1 then 1 else 0) + Shared(x / 2, y / 2, k - 1)
  }

  lemma {:induction false} OnesAndDistance(x: int, y: int, k: nat)
    ensures Ones(x, k) + Ones(y, k) == Distance(x, y, k) + 2 * Shared(x, y, k)
    decreases k
  {
    if k != 0 {
      OnesAndDistance(x / 2, y / 2, k - 1);
    }
  }

  /**
    Whatever arrives for a sent value and its C parity bit passes the Python check exactly when
    an even number of the 17 transmitted bits differ.
   */
  lemma DetectsOddErrors(sent: int16, received: int, parity: int)
    requires parity == 0 || parity == 1
    ensures ParityOk(received, parity) <==>
            (Distance(sent, received, WIDTH) + if parity == OddParity(sent) then 0 else 1) % 2 == 0
  {
    hide Ones, Distance, Shared;
    OnesAndDistance(sent, received, WIDTH);
    assert OddParity(sent) == 1 - Ones(sent, WIDTH) % 2;
  }

  lemma {:induction false} NoDistance(x: int, k: nat)
    ensures Distance(x, x, k) == 0
    decreases k
  {
    if k != 0 { NoDistance(x / 2, k - 1); }
  }

  /** In particular an undamaged message passes, negative values included. */
  lemma UndamagedPasses(sent: int16)
    ensures ParityOk(sent, OddParity(sent))
  {
    NoDistance(sent, WIDTH);
    DetectsOddErrors(sent, sent, OddParity(sent));
  }

  /** Any integer is taken as the parity bit: only its low bit counts, and exactly one of the two bits passes. */
  lemma LowBitOfParity(value: int, parity: int)
    ensures ParityOk(value, parity) <==> ParityOk(value, parity % 2)
    ensures ParityOk(value, parity) <==> !ParityOk(value, parity + 1)
    ensures ParityOk(value, OddParity(value)) && (OddParity(value) == 0 || OddParity(value) == 1)
  {
    hide Ones;
  }

  // ---------- The test client ----------

  function PopCount(n: nat): nat {
    if n == 0 then 0 else n % 2 + PopCount(n / 2)
  }

  /** bin(value).count('1'): Python writes a negative number as '-' and its magnitude. */
  function BinOnes(value: int): nat {
    PopCount(if value < 0 then -value else value)
  }

  /** The bit chosen by setParity. */
  function ClientParity(value: int): int {
    if BinOnes(value) % 2 == 1 then 0 else 1
  }

  function ShiftedRight(n: nat, k: nat): nat {
    if k == 0 then n else ShiftedRight(n / 2, k - 1)
  }

  lemma {:induction false} PopCountSplit(n: nat, k: nat)
    ensures PopCount(n) == Ones(n, k) + PopCount(ShiftedRight(n, k))
  {
    if k != 0 { PopCountSplit(n / 2, k - 1); }
  }

  lemma ShiftByFour(n: nat, k: nat)
    ensures ShiftedRight(n, k + 4) == ShiftedRight(n / 16, k)
  {
    assert ShiftedRight(n, k + 4) == ShiftedRight(n / 2, k + 3) == ShiftedRight(n / 2 / 2, k + 2);
    assert ShiftedRight(n / 2 / 2, k + 2) == ShiftedRight(n / 2 / 2 / 2, k + 1) == ShiftedRight(n / 2 / 2 / 2 / 2, k);
  }

  lemma ShiftByNone(n: nat)
    ensures ShiftedRight(n, 0) == n
  {
  }

  lemma ShiftBySixteen(n: nat)
    ensures ShiftedRight(n, WIDTH) == n / 65536
  {
    hide ShiftedRight;
    ShiftByFour(n, 12);
    ShiftByFour(n / 16, 8);
    ShiftByFour(n / 16 / 16, 4);
    ShiftByFour(n / 16 / 16 / 16, 0);
    ShiftByNone(n / 16 / 16 / 16 / 16);
  }

  lemma ParityOfSum(value: int, ones: nat, all: nat)
    requires ones == Ones(value, WIDTH) && all == BinOnes(value)
    ensures ParityOk(value, ClientParity(value)) <==> (ones + all) % 2 == 0
    ensures ones == all ==> ClientParity(value) == OddParity(value)
  {
    hide Ones, BinOnes;
  }

  lemma ParityOfNat(value: nat, ones: nat, above: nat)
    requires ones == Ones(value, WIDTH) && PopCount(value) == ones + above
    ensures ParityOk(value, ClientParity(value)) <==> above % 2 == 0
    ensures above == 0 ==> ParityOk(value, ClientParity(value)) && ClientParity(value) == OddParity(value)
  {
    hide Ones, PopCount, ParityOk, ClientParity, OddParity;
    ParityOfSum(value, ones, ones + above);
  }

  /** For a value >= 0, setParity satisfies the server exactly when the ones above bit 15 are even in number. */
  lemma ClientParityNonNegative(value: nat)
    ensures ParityOk(value, ClientParity(value)) <==> PopCount(value / 65536) % 2 == 0
    ensures value < 65536 ==> ParityOk(value, ClientParity(value)) && ClientParity(value) == OddParity(value)
  {
    assert PopCount(0) == 0;
    hide *;
    PopCountSplit(value, WIDTH);
    ShiftBySixteen(value);
    ParityOfNat(value, Ones(value, WIDTH), PopCount(value / 65536));
  }

  function TrailingZeros(n: nat): nat
    requires n > 0
  {
    if n % 2 == 1 then 0 else 1 + TrailingZeros(n / 2)
  }

  lemma {:induction false} OnesOfComplement(n: int, k: nat)
    requires n >= 0
    ensures Ones(-n - 1, k) == k - Ones(n, k)
    decreases k
  {
    if k != 0 {
      assert (-n - 1) / 2 == -(n / 2) - 1;
      OnesOfComplement(n / 2, k - 1);
    }
  }

  /** -n keeps the trailing zeros of n and its last one, and complements the bits above. */
  lemma {:induction false} OnesOfNegation(n: int, k: nat)
    requires n > 0
    ensures if Ones(n, k) == 0 then Ones(-n, k) == 0 else Ones(-n, k) + Ones(n, k) + TrailingZeros(n) == k + 1
    decreases k
  {
    if k != 0 {
      if n % 2 == 1 {
        assert (-n) / 2 == -(n / 2) - 1;
        OnesOfComplement(n / 2, k - 1);
      } else {
        assert (-n) / 2 == -(n / 2);
        OnesOfNegation(n / 2, k - 1);
      }
    }
  }

  function ShiftedLeft(n: nat, k: nat): nat {
    if k == 0 then n else 2 * ShiftedLeft(n, k - 1)
  }

  /** The k low bits are all 0 exactly when shifting them out and back changes nothing. */
  lemma {:induction false} NoOnes(n: nat, k: nat)
    ensures ShiftedLeft(ShiftedRight(n, k), k) <= n
    ensures Ones(n, k) == 0 <==> ShiftedLeft(ShiftedRight(n, k), k) == n
  {
    if k != 0 { NoOnes(n / 2, k - 1); }
  }

  lemma LeftByFour(n: nat, k: nat)
    ensures ShiftedLeft(n, k + 4) == 16 * ShiftedLeft(n, k)
  {
    assert ShiftedLeft(n, k + 4) == 2 * ShiftedLeft(n, k + 3) == 4 * ShiftedLeft(n, k + 2);
    assert ShiftedLeft(n, k + 2) == 2 * ShiftedLeft(n, k + 1) == 4 * ShiftedLeft(n, k);
  }

  lemma LeftBySixteen(n: nat)
    ensures ShiftedLeft(n, WIDTH) == 65536 * n
  {
    assert ShiftedLeft(n, 0) == n;
    hide ShiftedLeft;
    LeftByFour(n, 12);
    LeftByFour(n, 8);
    LeftByFour(n, 4);
    LeftByFour(n, 0);
  }

  lemma MultipleOf65536(n: nat)
    ensures Ones(n, WIDTH) == 0 <==> n % 65536 == 0
  {
    hide Ones, ShiftedLeft, ShiftedRight, WIDTH;
    NoOnes(n, WIDTH);
    ShiftBySixteen(n);
    LeftBySixteen(n / 65536);
    assert n == 65536 * (n / 65536) + n % 65536;
  }

  /**
    For a value -n < 0, setParity satisfies the server exactly when the trailing zeros of n and its
    ones above bit 15 are together odd in number; if n is a multiple of 65536, exactly when those
    ones are even in number.
   */
  lemma ClientParityNegative(value: int)
    requires value < 0
    ensures var n := -value;
            ParityOk(value, ClientParity(value)) <==>
            if n % 65536 == 0 then PopCount(n / 65536) % 2 == 0
            else (TrailingZeros(n) + PopCount(n / 65536)) % 2 == 1
  {
    hide Ones, PopCount, ShiftedRight, TrailingZeros, ParityOk, ClientParity;
    PopCountSplit(-value, WIDTH);
    ShiftBySixteen(-value);
    OnesOfNegation(-value, WIDTH);
    MultipleOf65536(-value);
    ParityOfSum(value, Ones(value, WIDTH), PopCount(-value));
  }
}
