/**
  Decimal text: what printf("%d") writes and what Python's strip, split and int read back,
  on ASCII text.
 */
module Text {
  import opened Wrappers

  // ---------- Writing ----------

  function Digit(d: nat): char
    requires d < 10
  {
    '0' + d as char
  }

  function NatText(n: nat): (s: string)
    ensures s != []
  {
    if n < 10 then [Digit(n)] else NatText(n / 10) + [Digit(n % 10)]
  }

  /** %d */
  function IntText(n: int): (s: string)
    ensures s != []
  {
    if n < 0 then ['-'] + NatText(-n) else NatText(n)
  }

  // ---------- Reading ----------

  predicate IsDigit(c: char) {
    '0' <= c <= '9'
  }

  predicate IsSpace(c: char) {
    c == ' ' || '\t' <= c <= '\r' || 28 as char <= c <= 31 as char
  }

  function TrimLeft(s: string): string {
    if s != [] && IsSpace(s[0]) then TrimLeft(s[1..]) else s
  }

  function TrimRight(s: string): string {
    if s != [] && IsSpace(s[|s| - 1]) then TrimRight(s[..|s| - 1]) else s
  }

  /** str.strip() */
  function Strip(s: string): string {
    TrimRight(TrimLeft(s))
  }

  /** str.split(separator) */
  function Split(s: string, separator: char): (parts: seq<string>)
    ensures parts != []
  {
    if s == [] then [[]]
    else
      var rest := Split(s[1..], separator);
      if s[0] == separator then [[]] + rest else [[s[0]] + rest[0]] + rest[1..]
  }

  /** Digits, with single underscores allowed between them, as in 1_000. */
  predicate IsDigits(s: string) {
    && s != []
    && IsDigit(s[0])
    && IsDigit(s[|s| - 1])
    && (forall i :: 0 <= i < |s| ==> IsDigit(s[i]) || s[i] == '_')
    && (forall i :: 0 < i < |s| && s[i] == '_' ==> s[i - 1] != '_')
  }

  function DigitsValue(s: string): nat {
    if s == [] then 0
    else
      var c := s[|s| - 1];
      var front := DigitsValue(s[..|s| - 1]);
      if IsDigit(c) then 10 * front + (c - '0') as nat else front
  }

  function ParseStripped(t: string): Option<int> {
    if t != [] && (t[0] == '-' || t[0] == '+') then
      if !IsDigits(t[1..]) then None
      else if t[0] == '-' then Some(0 - DigitsValue(t[1..]))
      else Some(DigitsValue(t[1..]))
    else if IsDigits(t) then Some(DigitsValue(t))
    else None
  }

  /** int(): surrounding space, an optional sign, digits; anything else raises ValueError. */
  function ParseInt(s: string): Option<int> {
    ParseStripped(Strip(s))
  }

  /** list(map(int, parts)): fails as soon as one part does not parse. */
  function ParseAll(parts: seq<string>): Option<seq<int>> {
    if parts == [] then Some([])
    else
      match (ParseInt(parts[0]), ParseAll(parts[1..]))
      case (Some(n), Some(rest)) => Some([n] + rest)
      case _ => None
  }

  /** list(map(int, text.strip().split(','))) */
  function ParseReading(text: string): Option<seq<int>> {
    ParseAll(Split(Strip(text), ','))
  }

  // ---------- Round trip ----------

  predicate AllDigits(s: string) {
    forall i :: 0 <= i < |s| ==> IsDigit(s[i])
  }

  lemma {:induction false} NatTextReads(n: nat)
    ensures AllDigits(NatText(n)) && DigitsValue(NatText(n)) == n
  {
    if n < 10 {
      assert NatText(n)[..0] == [];
    } else {
      NatTextReads(n / 10);
      assert NatText(n)[..|NatText(n)| - 1] == NatText(n / 10);
    }
  }

  lemma IntTextShape(n: int)
    ensures var s := IntText(n);
            && (forall i :: 0 <= i < |s| ==> IsDigit(s[i]) || s[i] == '-')
            && IsDigit(s[|s| - 1])
  {
    NatTextReads(if n < 0 then -n else n);
  }

  lemma StripNothing(s: string)
    requires s == [] || (!IsSpace(s[0]) && !IsSpace(s[|s| - 1]))
    ensures Strip(s) == s
  {
  }

  lemma StripAfterSpace(s: string)
    ensures Strip([' '] + s) == Strip(s)
  {
    assert ([' '] + s)[1..] == s;
  }

  lemma ReadsBack(n: int)
    ensures ParseStripped(IntText(n)) == Some(n)
  {
    var s := IntText(n);
    NatTextReads(if n < 0 then -n else n);
    if n < 0 { assert s[1..] == NatText(-n); }
  }

  /** int() reads back what %d wrote, also after a space. */
  lemma IntRoundTrip(n: int)
    ensures ParseInt(IntText(n)) == Some(n)
    ensures ParseInt([' '] + IntText(n)) == Some(n)
  {
    IntTextShape(n);
    StripNothing(IntText(n));
    StripAfterSpace(IntText(n));
    ReadsBack(n);
    hide IntText, Strip, ParseStripped;
  }

  lemma {:induction false} SplitWithout(s: string, separator: char)
    requires separator !in s
    ensures Split(s, separator) == [s]
  {
    if s != [] {
      SplitWithout(s[1..], separator);
      assert [s[0]] + s[1..] == s;
    }
  }

  lemma {:induction false} SplitAt(s: string, t: string, separator: char)
    requires separator !in s
    ensures Split(s + [separator] + t, separator) == [s] + Split(t, separator)
  {
    var whole := s + [separator] + t;
    if s == [] {
      assert whole[1..] == t;
    } else {
      assert whole[1..] == s[1..] + [separator] + t;
      SplitAt(s[1..], t, separator);
      assert [s[0]] + s[1..] == s;
    }
  }

  /** The value field of the sensor node's message. */
  function ReadingText(value: int, parity: int): string {
    IntText(value) + ", " + IntText(parity)
  }

  lemma ParsePair(a: string, b: string, x: int, y: int)
    requires ParseInt(a) == Some(x) && ParseInt(b) == Some(y)
    ensures ParseAll([a, b]) == Some([x, y])
  {
    hide ParseInt;
    assert [a, b][1..] == [b] && [b][1..] == [];
    assert [y] + [] == [y] && [x] + [y] == [x, y];
    assert ParseAll([b]) == Some([y]);
  }

  lemma PairRoundTrip(a: string, b: string, x: int, y: int)
    requires ',' !in a && ',' !in b
    requires a != [] && !IsSpace(a[0]) && b != [] && !IsSpace(b[|b| - 1])
    requires ParseInt(a) == Some(x) && ParseInt(b) == Some(y)
    ensures ParseReading(a + [','] + b) == Some([x, y])
  {
    StripNothing(a + [','] + b);
    SplitAt(a, b, ',');
    SplitWithout(b, ',');
    hide ParseInt, Split, Strip;
    ParsePair(a, b, x, y);
    assert [a] + [b] == [a, b];
  }

  /** The server reads back the pair that the node printed. */
  lemma ReadingRoundTrip(value: int, parity: int)
    ensures ParseReading(ReadingText(value, parity)) == Some([value, parity])
  {
    IntTextShape(value);
    IntTextShape(parity);
    IntRoundTrip(value);
    IntRoundTrip(parity);
    hide IntText, ParseInt, ParseAll, Split, Strip;
    PairRoundTrip(IntText(value), [' '] + IntText(parity), value, parity);
    assert IntText(value) + [','] + ([' '] + IntText(parity)) == ReadingText(value, parity);
  }

  lemma {:induction false} TrimLeftBeforeComma(s: string)
    ensures TrimLeft(s + ",") == TrimLeft(s) + ","
  {
    if s == [] {
      assert s + "," == "," && !IsSpace(',');
    } else if IsSpace(s[0]) {
      assert (s + ",")[1..] == s[1..] + ",";
      TrimLeftBeforeComma(s[1..]);
    }
  }

  lemma StripBeforeComma(s: string)
    ensures Strip(s + ",") == TrimLeft(s) + ","
  {
    TrimLeftBeforeComma(s);
  }

  lemma {:induction false} SplitHasSeparator(s: string, separator: char)
    requires separator in s
    ensures |Split(s, separator)| >= 2
  {
    if s[0] != separator {
      assert s == [s[0]] + s[1..];
      SplitHasSeparator(s[1..], separator);
    }
  }

  lemma {:induction false} SplitEndsEmpty(s: string)
    ensures var parts := Split(s + ",", ',');
            parts[|parts| - 1] == []
  {
    if s == [] {
      assert (s + ",")[1..] == [];
    } else {
      assert (s + ",")[1..] == s[1..] + ",";
      SplitEndsEmpty(s[1..]);
      SplitHasSeparator(s[1..] + ",", ',');
    }
  }

  lemma {:induction false} EmptyPartIsRefused(parts: seq<string>)
    requires parts != [] && parts[|parts| - 1] == []
    ensures ParseAll(parts) == None
  {
    if |parts| == 1 {
      assert ParseInt(parts[0]) == None;
    } else {
      EmptyPartIsRefused(parts[1..]);
    }
  }

  /** A text that ends in a comma, as the framed messages of the other compute engine do, is refused. */
  lemma TrailingCommaIsRefused(s: string)
    ensures ParseReading(s + ",") == None
  {
    StripBeforeComma(s);
    SplitEndsEmpty(TrimLeft(s));
    EmptyPartIsRefused(Split(TrimLeft(s) + ",", ','));
  }

  // ---------- Spaces, separators and digits in any text ----------

  /** The ASCII characters that strip and int take off: 9 to 13, 28 to 32. */
  lemma SpaceCodes(c: char)
    ensures IsSpace(c) <==> 9 <= c as int <= 13 || 28 <= c as int <= 32
  {
  }

  predicate AllSpace(s: string) {
    forall i :: 0 <= i < |s| ==> IsSpace(s[i])
  }

  /** Whether the text neither starts nor ends with a space. */
  predicate IsStripped(s: string) {
    s == [] || (!IsSpace(s[0]) && !IsSpace(s[|s| - 1]))
  }

  lemma {:induction false} TrimLeftSpaces(a: string, t: string)
    requires AllSpace(a)
    ensures TrimLeft(a + t) == TrimLeft(t)
  {
    if a == [] {
      assert a + t == t;
    } else {
      assert (a + t)[1..] == a[1..] + t;
      TrimLeftSpaces(a[1..], t);
    }
  }

  lemma {:induction false} TrimRightSpaces(t: string, b: string)
    requires AllSpace(b)
    ensures TrimRight(t + b) == TrimRight(t)
  {
    if b == [] {
      assert t + b == t;
    } else {
      var n := |b| - 1;
      assert (t + b)[..|t + b| - 1] == t + b[..n];
      TrimRightSpaces(t, b[..n]);
    }
  }

  /** strip takes off exactly the spaces around a text. */
  lemma StripSpaces(a: string, t: string, b: string)
    requires AllSpace(a) && AllSpace(b) && IsStripped(t)
    ensures Strip(a + t + b) == t
  {
    assert a + t + b == a + (t + b);
    TrimLeftSpaces(a, t + b);
    if t == [] {
      assert t + b == b + [];
      TrimLeftSpaces(b, []);
    } else {
      TrimRightSpaces(t, b);
    }
  }

  function Join(parts: seq<string>, separator: char): string
    requires parts != []
  {
    if |parts| == 1 then parts[0] else parts[0] + [separator] + Join(parts[1..], separator)
  }

  lemma JoinFirst(c: char, parts: seq<string>, separator: char)
    requires parts != []
    ensures Join([[c] + parts[0]] + parts[1..], separator) == [c] + Join(parts, separator)
  {
    if |parts| > 1 {
      assert ([[c] + parts[0]] + parts[1..])[1..] == parts[1..];
      assert ([c] + parts[0]) + [separator] + Join(parts[1..], separator) ==
             [c] + (parts[0] + [separator] + Join(parts[1..], separator));
    }
  }

  /** split cuts at every separator: the parts hold none, and joined with it they are the text again. */
  lemma {:induction false} SplitJoins(s: string, separator: char)
    ensures Join(Split(s, separator), separator) == s
    ensures forall part :: part in Split(s, separator) ==> separator !in part
  {
    if s != [] {
      var rest := Split(s[1..], separator);
      SplitJoins(s[1..], separator);
      assert s == [s[0]] + s[1..];
      if s[0] == separator {
        assert ([[]] + rest)[1..] == rest && [] + [separator] + s[1..] == s;
      } else {
        JoinFirst(s[0], rest, separator);
        assert separator !in [s[0]] + rest[0];
      }
    }
  }

  /** The sign and digits that int accepts, and the value it gives them. */
  predicate Denotes(sign: string, digits: string, n: int) {
    && digits != "" && digits[0] != '_' && digits[|digits| - 1] != '_'
    && (forall i :: 0 <= i < |digits| ==> '0' <= digits[i] <= '9' || digits[i] == '_')
    && (forall i :: 0 < i < |digits| && digits[i] == '_' ==> digits[i - 1] != '_')
    && (((sign == "" || sign == "+") && n == DigitsValue(digits)) ||
                         (sign == "-" && n == 0 - DigitsValue(digits)))
  }

  lemma DenotedDigits(sign: string, digits: string, n: int)
    requires Denotes(sign, digits, n)
    ensures IsDigits(digits) && digits[0] != '-' && digits[0] != '+'
  {
    assert IsDigit(digits[0]) && IsDigit(digits[|digits| - 1]);
    hide DigitsValue;
  }

  lemma DenotedIsRead(sign: string, digits: string, n: int)
    requires Denotes(sign, digits, n)
    ensures ParseStripped(sign + digits) == Some(n)
  {
    DenotedDigits(sign, digits, n);
    hide DigitsValue, IsDigits;
    if sign == "" {
      assert sign + digits == digits;
    } else {
      assert (sign + digits)[1..] == digits;
    }
  }

  lemma ReadIsDenoted(t: string, n: int) returns (sign: string, digits: string)
    requires ParseStripped(t) == Some(n)
    ensures t == sign + digits && Denotes(sign, digits, n)
  {
    hide DigitsValue;
    if t[0] == '-' || t[0] == '+' {
      sign, digits := [t[0]], t[1..];
    } else {
      sign, digits := "", t;
    }
  }

  /** int reads n exactly from an optional sign and digits with single underscores between them, and spaces around. */
  lemma ParseIntIff(s: string, n: int)
    ensures ParseInt(s) == Some(n) <==>
            exists sign: string, digits: string :: Strip(s) == sign + digits && Denotes(sign, digits, n)
  {
    hide Strip, ParseStripped, Denotes;
    if ParseInt(s) == Some(n) {
      var sign, digits := ReadIsDenoted(Strip(s), n);
    }
    forall sign: string, digits: string | Strip(s) == sign + digits && Denotes(sign, digits, n)
      ensures ParseInt(s) == Some(n)
    {
      DenotedIsRead(sign, digits, n);
    }
  }

  lemma {:induction false} PlainDigitsPrint(d: string)
    requires d != [] && AllDigits(d) && d[0] != '0'
    ensures NatText(DigitsValue(d)) == d && DigitsValue(d) > 0
  {
    var front, c := d[..|d| - 1], d[|d| - 1];
    assert d == front + [c];
    if front == [] {
      assert DigitsValue(d) == (c - '0') as nat;
    } else {
      PlainDigitsPrint(front);
      assert DigitsValue(d) == 10 * DigitsValue(front) + (c - '0') as nat;
    }
  }

  /** Leading zeros and underscores do not change the value of digits. */
  lemma {:induction false} DigitsDenote(c: char, d: string)
    ensures c == '0' || c == '_' ==> DigitsValue([c] + d) == DigitsValue(d)
  {
    if d == [] {
      assert [c] + d == [c] && [c][..0] == [];
    } else {
      var n := |d| - 1;
      assert ([c] + d)[..n + 1] == [c] + d[..n];
      DigitsDenote(c, d[..n]);
    }
  }

  lemma {:induction false} UnderscoreIgnored(d: string, e: string)
    ensures DigitsValue(d + ['_'] + e) == DigitsValue(d + e)
  {
    if e == [] {
      assert (d + ['_'] + e)[..|d|] == d && d + e == d;
    } else {
      var n := |e| - 1;
      assert (d + ['_'] + e)[..|d| + 1 + n] == d + ['_'] + e[..n];
      assert (d + e)[..|d| + n] == d + e[..n];
      UnderscoreIgnored(d, e[..n]);
    }
  }

  /** A reading is refused if any part is, and otherwise is the list of the parts' values. */
  lemma {:induction false} ParseAllIff(parts: seq<string>, ns: seq<int>)
    ensures ParseAll(parts) == Some(ns) <==>
            |ns| == |parts| && forall i :: 0 <= i < |parts| ==> ParseInt(parts[i]) == Some(ns[i])
  {
    hide ParseInt;
    if parts != [] && ns != [] {
      ParseAllIff(parts[1..], ns[1..]);
      assert ns == [ns[0]] + ns[1..];
      assert forall i :: 0 < i < |parts| ==> parts[i] == parts[1..][i - 1];
      assert forall i :: 0 < i < |ns| ==> ns[i] == ns[1..][i - 1];
    }
  }

  lemma SpacedInt(n: int, a: string, b: string)
    requires AllSpace(a) && AllSpace(b)
    ensures ParseInt(a + IntText(n) + b) == Some(n)
  {
    IntTextShape(n);
    assert IsStripped(IntText(n));
    hide IntText;
    StripSpaces(a, IntText(n), b);
    ReadsBack(n);
    hide ParseStripped, Strip;
  }

  lemma StrippedReading(a: string, t: string, b: string)
    requires AllSpace(a) && AllSpace(b) && IsStripped(t)
    ensures ParseReading(a + t + b) == ParseReading(t)
  {
    StripSpaces(a, t, b);
    StripSpaces([], t, []);
    assert [] + t + [] == t;
    hide Strip, Split, ParseAll;
  }

  lemma NoComma(n: int, a: string)
    requires AllSpace(a)
    ensures ',' !in IntText(n) + a && ',' !in a + IntText(n)
  {
    IntTextShape(n);
    hide IntText;
  }

  lemma OuterCharacters(n: int, a: string)
    ensures var u, v := IntText(n) + a, a + IntText(n);
            u != [] && !IsSpace(u[0]) && v != [] && !IsSpace(v[|v| - 1])
  {
    IntTextShape(n);
    hide IntText;
  }

  lemma SpacedPart(n: int, a: string)
    requires AllSpace(a)
    ensures var u, v := IntText(n) + a, a + IntText(n);
            && ParseInt(u) == Some(n) && ',' !in u && u != [] && !IsSpace(u[0])
            && ParseInt(v) == Some(n) && ',' !in v && v != [] && !IsSpace(v[|v| - 1])
  {
    assert AllSpace([]);
    hide *;
    SpacedInt(n, [], a);
    SpacedInt(n, a, []);
    NoComma(n, a);
    OuterCharacters(n, a);
    assert [] + IntText(n) + a == IntText(n) + a && a + IntText(n) + [] == a + IntText(n);
  }

  lemma JoinedIsStripped(u: string, v: string)
    requires u != [] && !IsSpace(u[0]) && v != [] && !IsSpace(v[|v| - 1])
    ensures IsStripped(u + [','] + v)
  {
  }

  /** Spaces around a reading and around its numbers make no difference. */
  lemma SpacedReading(x: int, y: int, a: string, b: string, c: string, d: string)
    requires AllSpace(a) && AllSpace(b) && AllSpace(c) && AllSpace(d)
    ensures ParseReading(a + (IntText(x) + b + [','] + (c + IntText(y))) + d) == Some([x, y])
  {
    hide *;
    var u, v := IntText(x) + b, c + IntText(y);
    SpacedPart(x, b);
    SpacedPart(y, c);
    PairRoundTrip(u, v, x, y);
    JoinedIsStripped(u, v);
    StrippedReading(a, u + [','] + v, d);
  }

  // ---------- Length ----------

  function PowerOfTen(k: nat): nat {
    if k == 0 then 1 else 10 * PowerOfTen(k - 1)
  }

  lemma {:induction false} NatTextLength(n: nat, k: nat)
    requires k > 0 && n < PowerOfTen(k)
    ensures |NatText(n)| <= k
  {
    if n >= 10 { NatTextLength(n / 10, k - 1); }
  }

  /** The number of characters %d writes for an int16. */
  lemma IntTextLength(n: int16)
    ensures |IntText(n)| <= 6
    ensures n == -32768 ==> |IntText(n)| == 6
    ensures 0 <= n < 10 ==> |IntText(n)| == 1
  {
    var m: nat := if n < 0 then 0 - n else n;
    NatTextLength(m, 5);
    if n == -32768 {
      assert NatText(32768) == NatText(3276) + [Digit(8)];
      assert |NatText(3276)| == |NatText(327)| + 1 == |NatText(32)| + 2 == |NatText(3)| + 3;
    }
  }
}
