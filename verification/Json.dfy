/**
  The JSON texts that the messages use: one object whose members are strings. On these texts the
  parser is json.loads; other JSON is not part of this model.
 */
module Json {
  import opened Wrappers

  predicate IsJsonSpace(c: char) {
    c == ' ' || c == '\t' || c == '\n' || c == '\r'
  }

  /** A character that a JSON string holds as it is: no quote, backslash or control character. */
  predicate IsPlainChar(c: char) {
    ' ' <= c && c != '"' && c != '\\'
  }

  predicate IsPlain(s: string) {
    forall i :: 0 <= i < |s| ==> IsPlainChar(s[i])
  }

  /** What a parser read from the front of a text, and the text after it. */
  datatype Parsed<+T> = Parsed(result: T, rest: string)

  // ---------- The parser ----------

  function SkipSpace(s: string): (r: string)
    ensures |r| <= |s|
  {
    if s != [] && IsJsonSpace(s[0]) then SkipSpace(s[1..]) else s
  }

  /** One character after optional space. */
  function Expect(c: char, s: string): (r: Option<string>)
    ensures r.Some? ==> |r.value| < |s|
  {
    var t := SkipSpace(s);
    if t != [] && t[0] == c then Some(t[1..]) else None
  }

  function HexDigit(c: char): (r: Option<nat>)
    ensures r.Some? ==> r.value < 16
  {
    if '0' <= c <= '9' then Some((c - '0') as nat)
    else if 'a' <= c <= 'f' then Some(10 + (c - 'a') as nat)
    else if 'A' <= c <= 'F' then Some(10 + (c - 'A') as nat)
    else None
  }

  /** The value of the first four characters, if they are hexadecimal digits. */
  function ParseHex(s: string): (r: Option<nat>)
    ensures r.Some? ==> |s| >= 4 && r.value < 0x10000
  {
    if |s| < 4 then None
    else
      match (HexDigit(s[0]), HexDigit(s[1]), HexDigit(s[2]), HexDigit(s[3]))
      case (Some(a), Some(b), Some(c), Some(d)) => Some(((a * 16 + b) * 16 + c) * 16 + d)
      case _ => None
  }

  predicate IsHighSurrogate(n: nat) {
    0xD800 <= n < 0xDC00
  }

  predicate IsLowSurrogate(n: nat) {
    0xDC00 <= n < 0xE000
  }

  /** Stands for half of a surrogate pair without the other half. */
  const LONE_SURROGATE: char := '\U{FFFD}'

  function JoinSurrogates(high: nat, low: nat): char
    requires IsHighSurrogate(high) && IsLowSurrogate(low)
  {
    (0x10000 + (high - 0xD800) * 0x400 + (low - 0xDC00)) as char
  }

  /** What follows a high surrogate: the escape of its low half, or anything else but a broken escape. */
  function ParseLowHalf(high: nat, s: string): (r: Option<Parsed<char>>)
    requires IsHighSurrogate(high)
    ensures r.Some? ==> |r.value.rest| <= |s|
  {
    if s == [] || s[0] != '\\' then Some(Parsed(LONE_SURROGATE, s))
    else if |s| == 1 then None
    else if s[1] != 'u' then Some(Parsed(LONE_SURROGATE, s))
    else
      match ParseHex(s[2..])
      case None => None
      case Some(low) =>
        if IsLowSurrogate(low) then Some(Parsed(JoinSurrogates(high, low), s[6..]))
        else Some(Parsed(LONE_SURROGATE, s))
  }

  /** The four digits after a backslash and u, and the low half if they are a high surrogate. */
  function ParseUnicode(s: string): (r: Option<Parsed<char>>)
    ensures r.Some? ==> |r.value.rest| <= |s| - 4
  {
    match ParseHex(s)
    case None => None
    case Some(n) =>
      if IsHighSurrogate(n) then ParseLowHalf(n, s[4..])
      else if IsLowSurrogate(n) then Some(Parsed(LONE_SURROGATE, s[4..]))
      else Some(Parsed(n as char, s[4..]))
  }

  /** What follows a backslash. */
  function ParseEscape(s: string): (r: Option<Parsed<char>>)
    ensures r.Some? ==> |r.value.rest| < |s|
  {
    if s == [] then None
    else
      match s[0]
      case '"' => Some(Parsed('"', s[1..]))
      case '\\' => Some(Parsed('\\', s[1..]))
      case '/' => Some(Parsed('/', s[1..]))
      case 'b' => Some(Parsed(8 as char, s[1..]))
      case 'f' => Some(Parsed(12 as char, s[1..]))
      case 'n' => Some(Parsed('\n', s[1..]))
      case 'r' => Some(Parsed('\r', s[1..]))
      case 't' => Some(Parsed('\t', s[1..]))
      case 'u' => ParseUnicode(s[1..])
      case _ => None
  }

  /** One character of a string, as it is or escaped. */
  function ParseChar(s: string): (r: Option<Parsed<char>>)
    requires s != []
    ensures r.Some? ==> |r.value.rest| < |s|
  {
    if IsPlainChar(s[0]) then Some(Parsed(s[0], s[1..]))
    else if s[0] == '\\' then ParseEscape(s[1..])
    else None
  }

  /** The characters up to the closing quote. */
  function ParseChars(s: string): (r: Option<Parsed<string>>)
    ensures r.Some? ==> |r.value.rest| < |s|
    decreases |s|
  {
    if s == [] then None
    else if s[0] == '"' then Some(Parsed([], s[1..]))
    else
      match ParseChar(s)
      case None => None
      case Some(c) =>
        match ParseChars(c.rest)
        case None => None
        case Some(p) => Some(Parsed([c.result] + p.result, p.rest))
  }

  function ParseString(s: string): (r: Option<Parsed<string>>)
    ensures r.Some? ==> |r.value.rest| < |s|
  {
    match Expect('"', s)
    case None => None
    case Some(t) => ParseChars(t)
  }

  datatype Member = Member(key: string, value: string)

  /** A key, a colon and a string. */
  function ParseMember(s: string): (r: Option<Parsed<Member>>)
    ensures r.Some? ==> |r.value.rest| < |s|
  {
    match ParseString(s)
    case None => None
    case Some(key) =>
      match Expect(':', key.rest)
      case None => None
      case Some(t) =>
        match ParseString(t)
        case None => None
        case Some(value) => Some(Parsed(Member(key.result, value.result), value.rest))
  }

  /** Members between commas up to the closing brace; the last of equal keys wins. */
  function ParseMembers(s: string): (r: Option<Parsed<map<string, string>>>)
    decreases |s|
  {
    match ParseMember(s)
    case None => None
    case Some(m) =>
      var here := map[m.result.key := m.result.value];
      match Expect(',', m.rest)
      case Some(t) =>
        (match ParseMembers(t)
         case None => None
         case Some(others) => Some(Parsed(here + others.result, others.rest)))
      case None =>
        match Expect('}', m.rest)
        case None => None
        case Some(t) => Some(Parsed(here, t))
  }

  /** json.loads of a whole text. */
  function ParseObject(text: string): Option<map<string, string>> {
    match Expect('{', text)
    case None => None
    case Some(s) =>
      match ParseMembers(s)
      case None => None
      case Some(p) => if SkipSpace(p.rest) == [] then Some(p.result) else None
  }

  // ---------- What it reads ----------

  lemma {:induction false} PlainCharsRead(t: string, rest: string)
    requires IsPlain(t)
    ensures ParseChars(t + ['"'] + rest) == Some(Parsed(t, rest))
  {
    var s := t + ['"'] + rest;
    if t == [] {
      assert s[1..] == rest;
    } else {
      assert s[1..] == t[1..] + ['"'] + rest;
      PlainCharsRead(t[1..], rest);
      assert [t[0]] + t[1..] == t;
    }
  }

  /** The text of a plain string. */
  function Quoted(t: string): string {
    ['"'] + t + ['"']
  }

  lemma QuotedReads(t: string, rest: string)
    requires IsPlain(t)
    ensures ParseString(Quoted(t) + rest) == Some(Parsed(t, rest))
    ensures ParseString([' '] + Quoted(t) + rest) == Some(Parsed(t, rest))
  {
    var s := Quoted(t) + rest;
    assert s[1..] == t + ['"'] + rest;
    assert ([' '] + Quoted(t) + rest)[1..] == s;
    PlainCharsRead(t, rest);
    hide ParseChars;
  }

  function MemberText(m: Member): string {
    Quoted(m.key) + [':'] + ([' '] + Quoted(m.value))
  }

  lemma MemberSplit(m: Member, rest: string)
    ensures MemberText(m) + rest == Quoted(m.key) + ([':'] + ([' '] + Quoted(m.value) + rest))
    ensures [' '] + MemberText(m) + rest == [' '] + Quoted(m.key) + ([':'] + ([' '] + Quoted(m.value) + rest))
  {
    hide Quoted;
  }

  lemma MemberFrom(s: string, m: Member, t: string, rest: string)
    requires ParseString(s) == Some(Parsed(m.key, [':'] + t)) && ParseString(t) == Some(Parsed(m.value, rest))
    ensures ParseMember(s) == Some(Parsed(m, rest))
  {
    hide ParseString;
    assert ([':'] + t)[1..] == t;
  }

  lemma MemberReads(m: Member, rest: string)
    requires IsPlain(m.key) && IsPlain(m.value)
    ensures ParseMember(MemberText(m) + rest) == Some(Parsed(m, rest))
    ensures ParseMember([' '] + MemberText(m) + rest) == Some(Parsed(m, rest))
  {
    hide *;
    var t := [' '] + Quoted(m.value) + rest;
    MemberSplit(m, rest);
    QuotedReads(m.key, [':'] + t);
    QuotedReads(m.value, rest);
    MemberFrom(MemberText(m) + rest, m, t, rest);
    MemberFrom([' '] + MemberText(m) + rest, m, t, rest);
  }

  /** Members, each after its comma and space, and the closing brace. */
  function RestText(members: seq<Member>): string {
    if members == [] then "}" else ", " + MemberText(members[0]) + RestText(members[1..])
  }

  function ObjectText(members: seq<Member>): string
    requires members != []
  {
    "{" + MemberText(members[0]) + RestText(members[1..])
  }

  function Fields(members: seq<Member>): map<string, string> {
    if members == [] then map[]
    else map[members[0].key := members[0].value] + Fields(members[1..])
  }

  predicate AllPlain(members: seq<Member>) {
    forall m :: m in members ==> IsPlain(m.key) && IsPlain(m.value)
  }

  lemma LastMember(s: string, m: Member, extra: string)
    requires ParseMember(s) == Some(Parsed(m, "}" + extra))
    ensures ParseMembers(s) == Some(Parsed(map[m.key := m.value], extra))
  {
    hide ParseMember;
    assert ("}" + extra)[1..] == extra;
  }

  lemma NextMember(s: string, m: Member, rest: string, others: Parsed<map<string, string>>)
    requires ParseMember(s) == Some(Parsed(m, [','] + rest)) && ParseMembers(rest) == Some(others)
    ensures ParseMembers(s) == Some(Parsed(map[m.key := m.value] + others.result, others.rest))
  {
    hide ParseMember;
    assert ([','] + rest)[1..] == rest;
    assert Expect(',', [','] + rest) == Some(rest);
  }

  /** The members from the first on, after an opening brace or after a comma, and what follows the object. */
  predicate Starts(s: string, members: seq<Member>, extra: string)
    requires members != []
  {
    var m, rest := members[0], RestText(members[1..]) + extra;
    s == MemberText(m) + rest || s == [' '] + MemberText(m) + rest
  }

  lemma FirstReads(members: seq<Member>, s: string, extra: string)
    requires members != [] && AllPlain(members) && Starts(s, members, extra)
    ensures ParseMember(s) == Some(Parsed(members[0], RestText(members[1..]) + extra))
  {
    MemberReads(members[0], RestText(members[1..]) + extra);
    hide ParseMember, MemberText, RestText, IsPlain;
  }

  /** What follows a comma starts with the next member. */
  lemma AfterComma(members: seq<Member>, extra: string) returns (body: string)
    requires members != []
    ensures RestText(members) + extra == [','] + body && Starts(body, members, extra)
  {
    body := [' '] + MemberText(members[0]) + (RestText(members[1..]) + extra);
    hide MemberText;
  }

  lemma {:induction false} MembersRead(members: seq<Member>, s: string, extra: string)
    requires members != [] && AllPlain(members) && Starts(s, members, extra)
    ensures ParseMembers(s) == Some(Parsed(Fields(members), extra))
    decreases |members|
  {
    FirstReads(members, s, extra);
    if |members| == 1 {
      LastMember(s, members[0], extra);
      assert Fields(members) == map[members[0].key := members[0].value];
    } else {
      hide ParseMember, ParseMembers, Starts, RestText, IsPlain;
      var body := AfterComma(members[1..], extra);
      MembersRead(members[1..], body, extra);
      NextMember(s, members[0], body, Parsed(Fields(members[1..]), extra));
    }
  }

  lemma AfterBrace(members: seq<Member>, extra: string)
    requires members != []
    ensures var s := Expect('{', ObjectText(members) + extra);
            s.Some? && Starts(s.value, members, extra)
  {
    hide MemberText, RestText;
    assert (ObjectText(members) + extra)[1..] == MemberText(members[0]) + (RestText(members[1..]) + extra);
  }

  lemma ObjectMembersThen(members: seq<Member>, extra: string)
    requires members != [] && AllPlain(members)
    ensures var s := Expect('{', ObjectText(members) + extra);
            s.Some? && ParseMembers(s.value) == Some(Parsed(Fields(members), extra))
  {
    hide *;
    AfterBrace(members, extra);
    MembersRead(members, Expect('{', ObjectText(members) + extra).value, extra);
  }

  lemma ObjectMembers(members: seq<Member>)
    requires members != [] && AllPlain(members)
    ensures Expect('{', ObjectText(members)).Some?
    ensures ParseMembers(Expect('{', ObjectText(members)).value) == Some(Parsed(Fields(members), ""))
  {
    hide *;
    ObjectMembersThen(members, "");
    assert ObjectText(members) + "" == ObjectText(members);
  }

  lemma {:induction false} OnlySpace(s: string)
    ensures SkipSpace(s) == [] <==> forall c :: c in s ==> IsJsonSpace(c)
  {
    if s != [] {
      assert s == [s[0]] + s[1..];
      OnlySpace(s[1..]);
    }
  }

  /** After an object only spaces may follow. */
  lemma ObjectReadsThen(members: seq<Member>, extra: string)
    requires members != [] && AllPlain(members)
    ensures ParseObject(ObjectText(members) + extra) ==
            if forall c :: c in extra ==> c in " \t\n\r" then Some(Fields(members)) else None
  {
    ObjectMembersThen(members, extra);
    OnlySpace(extra);
    assert forall c: char :: c in " \t\n\r" <==> IsJsonSpace(c);
    hide ParseMembers, ObjectText, Expect, SkipSpace, IsJsonSpace;
  }

  /** The text of any plain members reads back as their fields. */
  lemma ObjectReads(members: seq<Member>)
    requires members != [] && AllPlain(members)
    ensures ParseObject(ObjectText(members)) == Some(Fields(members))
  {
    ObjectMembers(members);
    hide ParseMembers, ObjectText, Expect;
  }

  lemma ThreeMembers(a: Member, b: Member, c: Member)
    ensures ObjectText([a, b, c]) ==
            "{" + MemberText(a) + (", " + MemberText(b) + (", " + MemberText(c) + "}"))
    ensures a.key != b.key && a.key != c.key && b.key != c.key ==>
              Fields([a, b, c]) == map[a.key := a.value, b.key := b.value, c.key := c.value]
  {
    hide MemberText;
    assert [a, b, c][1..] == [b, c] && [b, c][1..] == [c] && [c][1..] == [];
    assert RestText([c]) == ", " + MemberText(c) + "}";
    assert RestText([b, c]) == ", " + MemberText(b) + RestText([c]);
    assert Fields([c]) == map[c.key := c.value];
    assert Fields([b, c]) == map[b.key := b.value] + Fields([c]);
  }

  /** The text before the value of a member. */
  function Label(key: string): string {
    "\"" + key + "\": \""
  }

  lemma LabelledMember(m: Member)
    ensures MemberText(m) == Label(m.key) + m.value + "\""
  {
    assert Quoted(m.key) + [':'] + [' ', '"'] == Label(m.key);
    assert [' '] + Quoted(m.value) == [' ', '"'] + m.value + "\"";
  }

  lemma Regroup(open: string, l1: string, a: string, l2: string, b: string, l3: string, c: string, close: string)
    ensures open + l1 + a + ("\"" + ", " + l2) + b + ("\"" + ", " + l3) + c + ("\"" + close) ==
            open + (l1 + a + "\"") + (", " + (l2 + b + "\"") + (", " + (l3 + c + "\"") + close))
  {
  }

  /** A format string with three arguments prints the text of three members. */
  lemma PrintedThree(a: Member, b: Member, c: Member)
    ensures "{" + Label(a.key) + a.value + ("\"" + ", " + Label(b.key)) + b.value +
            ("\"" + ", " + Label(c.key)) + c.value + ("\"" + "}") == ObjectText([a, b, c])
  {
    ThreeMembers(a, b, c);
    LabelledMember(a);
    LabelledMember(b);
    LabelledMember(c);
    hide Label, MemberText, ObjectText;
    Regroup("{", Label(a.key), a.value, Label(b.key), b.value, Label(c.key), c.value, "}");
  }

  // ---------- Escapes and spaces ----------

  predicate IsHex(c: char, d: int) {
    || (0 <= d < 10 && c as int == '0' as int + d)
    || (10 <= d < 16 && (c as int == 'a' as int + d - 10 || c as int == 'A' as int + d - 10))
  }

  /** Four hexadecimal digits, of either case, for n. */
  ghost predicate IsHexText(h: string, n: int) {
    && |h| == 4
    && exists a: int, b: int, c: int, d: int ::
         IsHex(h[0], a) && IsHex(h[1], b) && IsHex(h[2], c) && IsHex(h[3], d) && n == 4096 * a + 256 * b + 16 * c + d
  }

  predicate IsSimpleEscape(e: char, c: char) {
    || (e == c && (c == '"' || c == '\\' || c == '/'))
    || (e == 'b' && c as int == 8) || (e == 't' && c as int == 9) || (e == 'n' && c as int == 10)
    || (e == 'f' && c as int == 12) || (e == 'r' && c as int == 13)
  }

  /** The ways to write a character inside a JSON string (section 7 of RFC 8259). */
  ghost predicate Encodes(raw: string, c: char) {
    || (raw == [c] && c as int >= 32 && c != '"' && c != '\\')
    || (|raw| == 2 && raw[0] == '\\' && IsSimpleEscape(raw[1], c))
    || (|raw| == 6 && raw[0] == '\\' && raw[1] == 'u' && IsHexText(raw[2..], c as int))
    || (|raw| == 12 && raw[0] == raw[6] == '\\' && raw[1] == raw[7] == 'u' && c as int >= 0x10000 &&
        IsHexText(raw[2..6], 0xD800 + (c as int - 0x10000) / 0x400) &&
        IsHexText(raw[8..], 0xDC00 + (c as int - 0x10000) % 0x400))
  }

  lemma HexDigitIs(c: char, d: int)
    ensures IsHex(c, d) <==> d >= 0 && HexDigit(c) == Some(d as nat)
  {
  }

  lemma HexReads(h: string, n: int, rest: string)
    requires IsHexText(h, n)
    ensures ParseHex(h + rest) == Some(n as nat)
  {
    var a: int, b: int, c: int, d: int :|
      IsHex(h[0], a) && IsHex(h[1], b) && IsHex(h[2], c) && IsHex(h[3], d) && n == 4096 * a + 256 * b + 16 * c + d;
    HexDigitIs(h[0], a);
    HexDigitIs(h[1], b);
    HexDigitIs(h[2], c);
    HexDigitIs(h[3], d);
    hide HexDigit, IsHex;
  }

  lemma UnicodeReads(h: string, c: char, rest: string)
    requires IsHexText(h, c as int)
    ensures ParseUnicode(h + rest) == Some(Parsed(c, rest))
  {
    HexReads(h, c as int, rest);
    hide ParseHex;
    assert (h + rest)[4..] == rest;
  }

  lemma HexLength(h: string, n: int)
    requires IsHexText(h, n)
    ensures |h| == 4
  {
  }

  lemma LowHalfReads(high: nat, low: nat, l: string, rest: string)
    requires IsHighSurrogate(high) && IsLowSurrogate(low) && IsHexText(l, low)
    ensures ParseLowHalf(high, ['\\', 'u'] + l + rest) == Some(Parsed(JoinSurrogates(high, low), rest))
  {
    HexReads(l, low, rest);
    hide ParseHex, IsHexText, JoinSurrogates;
    var t := ['\\', 'u'] + l + rest;
    assert t[2..] == l + rest;
    assert |l| == 4 ==> t[6..] == rest;
    HexLength(l, low);
  }

  lemma Halves(c: char)
    requires c as int >= 0x10000
    ensures var k := c as int - 0x10000;
            && IsHighSurrogate((0xD800 + k / 0x400) as nat) && IsLowSurrogate((0xDC00 + k % 0x400) as nat)
            && JoinSurrogates(0xD800 + k / 0x400, 0xDC00 + k % 0x400) == c
  {
    var k := c as int - 0x10000;
    assert k < 0x100000;
    assert k == 0x400 * (k / 0x400) + k % 0x400;
  }

  lemma PairReads(h: string, l: string, c: char, rest: string)
    requires c as int >= 0x10000
    requires IsHexText(h, 0xD800 + (c as int - 0x10000) / 0x400)
    requires IsHexText(l, 0xDC00 + (c as int - 0x10000) % 0x400)
    ensures ParseUnicode(h + (['\\', 'u'] + l + rest)) == Some(Parsed(c, rest))
  {
    var k, t := c as int - 0x10000, ['\\', 'u'] + l + rest;
    Halves(c);
    HexReads(h, 0xD800 + k / 0x400, t);
    HexLength(h, 0xD800 + k / 0x400);
    hide ParseHex, IsHexText, ParseLowHalf, JoinSurrogates;
    assert (h + t)[4..] == t;
    LowHalfReads(0xD800 + k / 0x400, 0xDC00 + k % 0x400, l, rest);
  }

  /** Every way to write a character is read as that character. */
  lemma CharReads(raw: string, c: char, rest: string)
    requires Encodes(raw, c)
    ensures ParseChar(raw + rest) == Some(Parsed(c, rest))
  {
    var s := raw + rest;
    hide ParseUnicode;
    if |raw| == 1 {
      assert s[1..] == rest;
    } else if |raw| == 2 {
      assert s[1..][1..] == rest;
    } else if |raw| == 6 {
      assert s[1..][1..] == raw[2..] + rest;
      UnicodeReads(raw[2..], c, rest);
    } else {
      assert s[1..][1..] == raw[2..6] + (['\\', 'u'] + raw[8..] + rest);
      PairReads(raw[2..6], raw[8..], c, rest);
    }
  }

  function Flat(raws: seq<string>): string {
    if raws == [] then "" else raws[0] + Flat(raws[1..])
  }

  /** A text reads back however its characters are written. */
  lemma {:induction false} EncodedReads(raws: seq<string>, t: string, rest: string)
    requires |raws| == |t| && forall i :: 0 <= i < |t| ==> Encodes(raws[i], t[i])
    ensures ParseChars(Flat(raws) + ['"'] + rest) == Some(Parsed(t, rest))
    decreases |t|
  {
    var s := Flat(raws) + ['"'] + rest;
    if t == [] {
      assert s[1..] == rest;
    } else {
      var s' := Flat(raws[1..]) + ['"'] + rest;
      assert s == raws[0] + s';
      EncodedReads(raws[1..], t[1..], rest);
      CharReads(raws[0], t[0], s');
      assert raws[0] != [] && raws[0][0] != '"';
      hide ParseChar, Encodes;
      assert [t[0]] + t[1..] == t;
    }
  }

  lemma HexIs(s: string)
    requires ParseHex(s).Some?
    ensures IsHexText(s[..4], ParseHex(s).value)
  {
    var a, b, c, d := HexDigit(s[0]).value, HexDigit(s[1]).value, HexDigit(s[2]).value, HexDigit(s[3]).value;
    HexDigitIs(s[0], a);
    HexDigitIs(s[1], b);
    HexDigitIs(s[2], c);
    HexDigitIs(s[3], d);
    hide HexDigit, IsHex;
  }

  lemma JoinedIs(high: nat, low: nat)
    requires IsHighSurrogate(high) && IsLowSurrogate(low)
    ensures var c := JoinSurrogates(high, low) as int;
            && c >= 0x10000
            && 0xD800 + (c - 0x10000) / 0x400 == high
            && 0xDC00 + (c - 0x10000) % 0x400 == low
  {
  }

  lemma SingleIs(s: string, c: char)
    requires |s| >= 6 && s[0] == '\\' && s[1] == 'u' && IsHexText(s[2..6], c as int)
    ensures Encodes(s[..6], c)
  {
    hide IsHexText;
    assert s[..6][2..] == s[2..6];
  }

  lemma PairIs(s: string, high: nat, low: nat)
    requires |s| >= 12 && s[0] == s[6] == '\\' && s[1] == s[7] == 'u'
    requires IsHighSurrogate(high) && IsLowSurrogate(low) && IsHexText(s[2..6], high) && IsHexText(s[8..12], low)
    ensures Encodes(s[..12], JoinSurrogates(high, low))
  {
    JoinedIs(high, low);
    hide IsHexText, JoinSurrogates;
    assert s[..12][2..6] == s[2..6] && s[..12][8..] == s[8..12];
  }

  /** What the low half adds: nothing, or its escape. */
  lemma LowHalfIs(high: nat, u: string) returns (low: Option<nat>)
    requires IsHighSurrogate(high) && ParseLowHalf(high, u).Some?
    ensures var p := ParseLowHalf(high, u).value;
            match low
            case None => p == Parsed(LONE_SURROGATE, u)
            case Some(n) =>
              && |u| >= 6 && u[0] == '\\' && u[1] == 'u' && IsLowSurrogate(n) && IsHexText(u[2..6], n)
              && p == Parsed(JoinSurrogates(high, n), u[6..])
  {
    low := None;
    if |u| >= 2 && u[0] == '\\' && u[1] == 'u' {
      HexIs(u[2..]);
      assert u[2..][..4] == u[2..6];
      if IsLowSurrogate(ParseHex(u[2..]).value) { low := ParseHex(u[2..]); }
    }
    hide ParseHex, IsHexText, JoinSurrogates;
  }

  lemma ReadUnicodeIs(s: string)
    requires |s| >= 2 && s[0] == '\\' && s[1] == 'u' && ParseUnicode(s[2..]).Some?
    ensures var p := ParseUnicode(s[2..]).value;
            && p.rest == s[|s| - |p.rest|..]
            && (p.result == LONE_SURROGATE || Encodes(s[..|s| - |p.rest|], p.result))
  {
    var t := s[2..];
    HexIs(t);
    var n := ParseHex(t).value;
    assert t[..4] == s[2..6] && t[4..] == s[6..];
    hide ParseHex, IsHexText, ParseLowHalf, JoinSurrogates, Encodes;
    if IsHighSurrogate(n) {
      var low := LowHalfIs(n, s[6..]);
      if low.Some? {
        assert s[6..][2..6] == s[8..12] && s[6..][6..] == s[12..];
        PairIs(s, n, low.value);
      }
    } else if !IsLowSurrogate(n) {
      SingleIs(s, n as char);
    }
  }

  /** Nothing else is read as a character, but for the replacement of half a surrogate pair. */
  lemma ReadCharIsEncoded(s: string)
    requires s != [] && ParseChar(s).Some?
    ensures var p := ParseChar(s).value;
            && p.rest == s[|s| - |p.rest|..]
            && (p.result == LONE_SURROGATE || Encodes(s[..|s| - |p.rest|], p.result))
  {
    if !IsPlainChar(s[0]) && s[1] == 'u' {
      assert s[1..][1..] == s[2..];
      ReadUnicodeIs(s);
      hide ParseUnicode;
    }
    hide ParseUnicode, IsHexText;
  }

  /** Any tabs, line ends and blanks before a character are skipped. */
  lemma {:induction false} SpaceIsSkipped(space: string, c: char, rest: string)
    requires forall i :: 0 <= i < |space| ==> space[i] as int == 32 || space[i] as int == 9 ||
                                              space[i] as int == 10 || space[i] as int == 13
    requires !IsJsonSpace(c)
    ensures Expect(c, space + [c] + rest) == Some(rest)
  {
    var s := space + [c] + rest;
    if space == [] {
      assert s[1..] == rest;
    } else {
      assert s[1..] == space[1..] + [c] + rest;
      SpaceIsSkipped(space[1..], c, rest);
    }
  }

  // ---------- What it refuses ----------

  /** p is a cut of s, and both were parsed up to the same place. */
  predicate SameCut(p: string, p': string, s: string, s': string) {
    p' <= s' && |p| - |p'| == |s| - |s'|
  }

  lemma {:induction false} SkipSpaceCut(p: string, s: string)
    requires p <= s
    ensures SkipSpace(p) != [] ==> SameCut(p, SkipSpace(p), s, SkipSpace(s))
  {
    if p != [] {
      if IsJsonSpace(p[0]) {
        assert p[1..] <= s[1..];
        SkipSpaceCut(p[1..], s[1..]);
      }
    }
  }

  lemma ExpectCut(c: char, p: string, s: string)
    requires p <= s && Expect(c, p).Some?
    ensures Expect(c, s).Some? && SameCut(p, Expect(c, p).value, s, Expect(c, s).value)
  {
    SkipSpaceCut(p, s);
    assert SkipSpace(p)[0] == SkipSpace(s)[0];
  }

  lemma ParseHexCut(p: string, s: string)
    requires p <= s && ParseHex(p).Some?
    ensures ParseHex(s) == ParseHex(p)
  {
  }

  lemma ParseUnicodeCut(p: string, s: string)
    requires p <= s && ParseUnicode(p).Some? && ParseUnicode(p).value.rest != []
    ensures ParseUnicode(s).Some? && ParseUnicode(p).value.result == ParseUnicode(s).value.result
    ensures SameCut(p, ParseUnicode(p).value.rest, s, ParseUnicode(s).value.rest)
  {
    ParseHexCut(p, s);
    hide ParseHex;
    var q, q' := p[4..], s[4..];
    assert q <= q';
    if |q| >= 2 && ParseHex(q[2..]).Some? { ParseHexCut(q[2..], q'[2..]); }
  }

  /** A character that is not the last of a cut text is the same in the whole text. */
  lemma ParseCharCut(p: string, s: string)
    requires p != [] && p <= s && ParseChar(p).Some? && ParseChar(p).value.rest != []
    ensures ParseChar(s).Some? && ParseChar(p).value.result == ParseChar(s).value.result
    ensures SameCut(p, ParseChar(p).value.rest, s, ParseChar(s).value.rest)
  {
    assert p[0] == s[0] && p[1..] <= s[1..];
    if p[0] == '\\' && p[1] == 'u' {
      assert p[1..][1..] <= s[1..][1..];
      ParseUnicodeCut(p[1..][1..], s[1..][1..]);
    }
    hide ParseUnicode;
  }

  lemma {:induction false} ParseCharsCut(p: string, s: string)
    requires p <= s && ParseChars(p).Some?
    ensures ParseChars(s).Some? && ParseChars(p).value.result == ParseChars(s).value.result
    ensures SameCut(p, ParseChars(p).value.rest, s, ParseChars(s).value.rest)
    decreases |p|
  {
    assert p[0] == s[0] && p[1..] <= s[1..];
    if p[0] != '"' {
      ParseCharCut(p, s);
      hide ParseChar;
      ParseCharsCut(ParseChar(p).value.rest, ParseChar(s).value.rest);
    }
  }

  lemma ParseStringCut(p: string, s: string)
    requires p <= s && ParseString(p).Some?
    ensures ParseString(s).Some? && ParseString(p).value.result == ParseString(s).value.result
    ensures SameCut(p, ParseString(p).value.rest, s, ParseString(s).value.rest)
  {
    ExpectCut('"', p, s);
    ParseCharsCut(Expect('"', p).value, Expect('"', s).value);
    hide ParseChars, Expect;
  }

  lemma ParseMemberCut(p: string, s: string)
    requires p <= s && ParseMember(p).Some?
    ensures ParseMember(s).Some? && ParseMember(p).value.result == ParseMember(s).value.result
    ensures SameCut(p, ParseMember(p).value.rest, s, ParseMember(s).value.rest)
  {
    ParseStringCut(p, s);
    var key, key' := ParseString(p).value.rest, ParseString(s).value.rest;
    ExpectCut(':', key, key');
    ParseStringCut(Expect(':', key).value, Expect(':', key').value);
    hide ParseString, Expect;
  }

  lemma OneOrTheOther(s: string)
    ensures !(Expect(',', s).Some? && Expect('}', s).Some?)
  {
  }

  /** What is read from a cut text is read from the whole text, and ends at the same place. */
  lemma {:induction false} ParseMembersCut(p: string, s: string)
    requires p <= s && ParseMembers(p).Some?
    ensures ParseMembers(s).Some? && ParseMembers(p).value.result == ParseMembers(s).value.result
    ensures SameCut(p, ParseMembers(p).value.rest, s, ParseMembers(s).value.rest)
    decreases |p|
  {
    ParseMemberCut(p, s);
    var r, r' := ParseMember(p).value.rest, ParseMember(s).value.rest;
    OneOrTheOther(r');
    hide ParseMember, Expect;
    if Expect(',', r).Some? {
      ExpectCut(',', r, r');
      ParseMembersCut(Expect(',', r).value, Expect(',', r').value);
    } else {
      ExpectCut('}', r, r');
    }
  }

  /** ... and nothing is read when anything is cut from its end. */
  lemma CutObjectIsRefused(members: seq<Member>, p: string)
    requires members != [] && AllPlain(members) && p < ObjectText(members)
    ensures ParseObject(p) == None
  {
    var text := ObjectText(members);
    ObjectMembers(members);
    hide ParseMembers, Expect, ObjectText;
    if ParseObject(p).Some? {
      ExpectCut('{', p, text);
      ParseMembersCut(Expect('{', p).value, Expect('{', text).value);
    }
  }

  // ---------- Values that are printed unescaped ----------

  predicate IsSuffix(r: string, s: string) {
    |r| <= |s| && r == s[|s| - |r|..]
  }

  lemma SuffixOf(r: string, s: string, t: string)
    requires IsSuffix(r, s) && IsSuffix(s, t)
    ensures IsSuffix(r, t)
  {
  }

  lemma {:induction false} SkipSpaceSuffix(s: string)
    ensures IsSuffix(SkipSpace(s), s)
  {
    if s != [] && IsJsonSpace(s[0]) { SkipSpaceSuffix(s[1..]); }
  }

  /** The text after a printed value: its closing quote, a comma, and a next key that starts with a letter. */
  predicate IsTail(tail: string) {
    |tail| >= 5 && tail[0] == '"' && tail[1] == ',' && tail[2] == ' ' && tail[3] == '"' && tail[4] == 'v'
  }

  lemma {:induction false} SkipSpaceInside(x: string, tail: string)
    requires IsTail(tail)
    ensures |SkipSpace(x + tail)| >= |tail|
  {
    if x != [] && IsJsonSpace(x[0]) {
      assert (x + tail)[1..] == x[1..] + tail;
      SkipSpaceInside(x[1..], tail);
    }
  }

  /** Only a quote can be found at the start of the tail; anything else lies before it. */
  lemma ExpectInside(c: char, x: string, tail: string)
    requires IsTail(tail) && Expect(c, x + tail).Some?
    ensures var rest := Expect(c, x + tail).value;
            IsSuffix(rest, x + tail) && (|rest| >= |tail| || (c == '"' && |rest| == |tail| - 1))
  {
    SkipSpaceSuffix(x + tail);
    SkipSpaceInside(x, tail);
    hide SkipSpace;
    var t := SkipSpace(x + tail);
    if |t| == |tail| { assert t[0] == tail[0]; }
  }

  /** What is left of x when a rest of x + tail reaches back before the tail. */
  function Before(rest: string, tail: string): (y: string)
    requires |rest| >= |tail|
    ensures |y| == |rest| - |tail|
  {
    rest[..|rest| - |tail|]
  }

  lemma BeforeTail(rest: string, x: string, tail: string)
    requires IsSuffix(rest, x + tail) && |rest| >= |tail|
    ensures rest == Before(rest, tail) + tail
  {
  }

  lemma NoHexDigits(x: string, tail: string)
    requires IsTail(tail) && |x| < 4
    ensures ParseHex(x + tail) == None
  {
    assert (x + tail)[|x|] == '"';
  }

  lemma HexInside(x: string, tail: string)
    requires IsTail(tail) && ParseHex(x + tail).Some?
    ensures |x| >= 4
  {
    if |x| < 4 { NoHexDigits(x, tail); }
  }

  lemma LowHalfInside(high: nat, x: string, tail: string)
    requires IsTail(tail) && IsHighSurrogate(high) && ParseLowHalf(high, x + tail).Some?
    ensures var rest := ParseLowHalf(high, x + tail).value.rest;
            IsSuffix(rest, x + tail) && |rest| >= |tail|
  {
    if |x| >= 2 && x[0] == '\\' && x[1] == 'u' {
      assert (x + tail)[2..] == x[2..] + tail;
      HexInside(x[2..], tail);
    }
    hide ParseHex;
  }

  lemma UnicodeInside(x: string, tail: string)
    requires IsTail(tail) && ParseUnicode(x + tail).Some?
    ensures var rest := ParseUnicode(x + tail).value.rest;
            IsSuffix(rest, x + tail) && |tail| <= |rest| <= |x| + |tail| - 4
  {
    HexInside(x, tail);
    var n := ParseHex(x + tail).value;
    hide ParseHex;
    assert (x + tail)[4..] == x[4..] + tail;
    if IsHighSurrogate(n) {
      LowHalfInside(n, x[4..], tail);
      hide ParseLowHalf;
    }
  }

  lemma EscapeInside(x: string, tail: string)
    requires IsTail(tail) && ParseEscape(x + tail).Some?
    ensures var rest := ParseEscape(x + tail).value.rest;
            IsSuffix(rest, x + tail) && (|rest| >= |tail| || |rest| == |tail| - 1)
  {
    if x != [] {
      assert (x + tail)[1..] == x[1..] + tail;
      if x[0] == 'u' { UnicodeInside(x[1..], tail); }
    }
    hide ParseUnicode;
  }

  /** A character read from x is inside x, or x is a backslash that escapes the closing quote. */
  lemma CharInside(x: string, tail: string)
    requires IsTail(tail) && x != [] && x[0] != '"' && ParseChar(x + tail).Some?
    ensures var c := ParseChar(x + tail).value;
            && IsSuffix(c.rest, x + tail)
            && (|c.rest| >= |tail| || |c.rest| == |tail| - 1)
            && (|c.rest| >= |x + tail| - 1 ==> IsPlainChar(x[0]) && c.result == x[0] && c.rest == x[1..] + tail)
  {
    hide ParseEscape;
    assert (x + tail)[1..] == x[1..] + tail;
    if !IsPlainChar(x[0]) {
      EscapeInside(x[1..], tail);
      SuffixOf(ParseEscape(x[1..] + tail).value.rest, x[1..] + tail, x + tail);
    }
  }

  /** From the comma of the tail on, a string ends at the quote before the next key. */
  lemma CharsOfTail(tail: string)
    requires IsTail(tail)
    ensures ParseChars(tail[1..]) == Some(Parsed(", ", tail[4..]))
  {
    var a, b, c := tail[1..], tail[2..], tail[3..];
    assert a[1..] == b && b[1..] == c && c[1..] == tail[4..];
    assert ParseChars(c) == Some(Parsed([], tail[4..]));
    assert [' '] + [] == [' '] && [','] + [' '] == ", ";
    assert ParseChars(b) == Some(Parsed([' '], tail[4..]));
  }

  /**
    A string that starts in x ends inside x, and is then shorter; or it ends at the tail's quote, and
    is then as long as x only if it is x, without escapes; or it ends before the next key.
   */
  ghost predicate EndsInside(p: Parsed<string>, x: string, tail: string) {
    && IsSuffix(p.rest, x + tail)
    && (|| (|p.result| + 1 + |p.rest| <= |x| + |tail| && |p.rest| >= |tail|)
        || (|p.rest| == |tail| - 1 && |p.result| <= |x| && (|p.result| == |x| ==> p.result == x && IsPlain(x)))
        || |p.rest| == |tail| - 4)
  }

  lemma InsideStep(x: string, y: string, tail: string, c: Parsed<char>, p: Parsed<string>)
    requires x != [] && c.rest == y + tail && IsSuffix(c.rest, x + tail) && |y| < |x| && EndsInside(p, y, tail)
    requires |y| == |x| - 1 ==> IsPlainChar(x[0]) && c.result == x[0] && y == x[1..]
    ensures EndsInside(Parsed([c.result] + p.result, p.rest), x, tail)
  {
    SuffixOf(p.rest, y + tail, x + tail);
    if |y| == |x| - 1 { assert x == [x[0]] + x[1..]; }
  }

  lemma InsideEnd(x: string, tail: string, result: string)
    requires IsTail(tail)
    ensures EndsInside(Parsed(result, tail[4..]), x, tail)
  {
  }

  lemma {:induction false} CharsInside(x: string, tail: string)
    requires IsTail(tail) && ParseChars(x + tail).Some?
    ensures EndsInside(ParseChars(x + tail).value, x, tail)
    decreases |x|
  {
    var s := x + tail;
    if x == [] {
      assert s == tail;
    } else if x[0] == '"' {
      assert s[1..] == x[1..] + tail;
    } else {
      CharInside(x, tail);
      var c := ParseChar(s).value;
      hide ParseChar, EndsInside;
      if |c.rest| >= |tail| {
        BeforeTail(c.rest, x, tail);
        CharsInside(Before(c.rest, tail), tail);
        InsideStep(x, Before(c.rest, tail), tail, c, ParseChars(c.rest).value);
      } else {
        assert c.rest == tail[1..];
        CharsOfTail(tail);
        InsideEnd(x, tail, [c.result] + ", ");
      }
    }
  }

  lemma ExpectAfterTail(c: char, tail: string)
    requires IsTail(tail)
    ensures Expect(c, tail[4..]).Some? ==> c == 'v'
    ensures Expect(c, tail[1..]).Some? ==> c == ',' && Expect(c, tail[1..]).value == tail[2..]
  {
    assert SkipSpace(tail[4..]) == tail[4..] && SkipSpace(tail[1..]) == tail[1..];
  }

  /** A string somewhere in x + tail: inside x, up to the tail's quote, or up to the next key. */
  ghost predicate ReadsInside(result: string, rest: string, x: string, tail: string) {
    && IsSuffix(rest, x + tail)
    && (|| (|result| < |x| && |tail| <= |rest| < |x| + |tail|)
        || (|rest| == |tail| - 1 && |result| < |x|)
        || |rest| == |tail| - 4)
  }

  lemma StringInside(x: string, tail: string)
    requires IsTail(tail) && ParseString(x + tail).Some?
    ensures ReadsInside(ParseString(x + tail).value.result, ParseString(x + tail).value.rest, x, tail)
  {
    ExpectInside('"', x, tail);
    var t := Expect('"', x + tail).value;
    hide Expect, ParseChars;
    if |t| >= |tail| {
      BeforeTail(t, x, tail);
      CharsInside(Before(t, tail), tail);
      SuffixOf(ParseChars(t).value.rest, t, x + tail);
    } else {
      assert t == tail[1..];
      CharsOfTail(tail);
    }
  }

  lemma ReadsFurther(result: string, rest: string, y: string, x: string, tail: string)
    requires ReadsInside(result, rest, y, tail) && IsSuffix(y + tail, x + tail)
    ensures ReadsInside(result, rest, x, tail)
  {
    SuffixOf(rest, y + tail, x + tail);
  }

  lemma AtTail(rest: string, x: string, tail: string)
    requires IsTail(tail) && IsSuffix(rest, x + tail)
    ensures |rest| == |tail| - 4 ==> rest == tail[4..]
    ensures |rest| == |tail| - 1 ==> rest == tail[1..]
  {
  }

  /** What can follow a string: a character before the tail, or the comma of the tail. */
  lemma ExpectAfterString(c: char, rest: string, x: string, tail: string)
    requires IsTail(tail) && IsSuffix(rest, x + tail) && c != '"' && c != 'v' && Expect(c, rest).Some?
    requires |rest| >= |tail| || |rest| == |tail| - 1 || |rest| == |tail| - 4
    ensures var t := Expect(c, rest).value;
            && IsSuffix(t, x + tail)
            && (|rest| >= |tail| ==> |tail| <= |t| < |rest|)
            && (|rest| < |tail| ==> c == ',' && t == tail[2..])
  {
    if |rest| >= |tail| {
      BeforeTail(rest, x, tail);
      ExpectInside(c, Before(rest, tail), tail);
      SuffixOf(Expect(c, rest).value, rest, x + tail);
    } else {
      ExpectAfterTail(c, tail);
      AtTail(rest, x, tail);
      SuffixOf(tail[2..], tail, x + tail);
    }
    hide Expect;
  }

  lemma MemberInside(x: string, tail: string)
    requires IsTail(tail) && ParseMember(x + tail).Some?
    ensures ReadsInside(ParseMember(x + tail).value.result.value, ParseMember(x + tail).value.rest, x, tail)
  {
    StringInside(x, tail);
    var key := ParseString(x + tail).value.rest;
    hide Expect, ParseString;
    ExpectAfterString(':', key, x, tail);
    var t := Expect(':', key).value;
    BeforeTail(t, x, tail);
    StringInside(Before(t, tail), tail);
    ReadsFurther(ParseString(t).value.result, ParseString(t).value.rest, Before(t, tail), x, tail);
  }

  /** Which member a value comes from. */
  lemma ValueFrom(s: string, key: string)
    requires ParseMembers(s).Some? && key in ParseMembers(s).value.result
    ensures ParseMember(s).Some?
    ensures var value, m := ParseMembers(s).value.result[key], ParseMember(s).value;
            match Expect(',', m.rest)
            case None => Expect('}', m.rest).Some? && value == m.result.value
            case Some(t) =>
              ParseMembers(t).Some? &&
              var others := ParseMembers(t).value.result;
              if key in others then value == others[key] else key == m.result.key && value == m.result.value
  {
    hide ParseMember, Expect;
  }

  /** Every later member's value is shorter than the text it can be taken from. */
  lemma {:induction false} LaterValueIsShorter(x: string, tail: string, key: string)
    requires IsTail(tail) && ParseMembers(x + tail).Some?
    requires ParseMembers(tail[2..]).Some? ==> key !in ParseMembers(tail[2..]).value.result
    ensures key in ParseMembers(x + tail).value.result ==> |ParseMembers(x + tail).value.result[key]| < |x|
    decreases |x|
  {
    if key in ParseMembers(x + tail).value.result {
      ValueFrom(x + tail, key);
      MemberInside(x, tail);
      hide ParseMember, ParseMembers, Expect;
      var rest := ParseMember(x + tail).value.rest;
      if Expect(',', rest).Some? {
        ExpectAfterString(',', rest, x, tail);
        var t := Expect(',', rest).value;
        if |rest| >= |tail| {
          BeforeTail(t, x, tail);
          LaterValueIsShorter(Before(t, tail), tail, key);
        }
      } else {
        ExpectAfterString('}', rest, x, tail);
      }
    }
  }

  lemma OpenQuote(body: string)
    ensures ParseString([' '] + ['"'] + body) == ParseChars(body)
  {
    var t := [' '] + ['"'] + body;
    assert t[1..] == ['"'] + body && (['"'] + body)[1..] == body;
    assert SkipSpace(t) == ['"'] + body;
    hide ParseChars;
  }

  /** A member as it is printed when its value is not escaped, up to the value. */
  function Opened(key: string): string {
    [' '] + Quoted(key) + ([':'] + ([' '] + ['"']))
  }

  lemma ColonReads(t: string)
    ensures Expect(':', [':'] + t) == Some(t)
  {
    assert ([':'] + t)[1..] == t;
  }

  lemma OpenedSplit(key: string, body: string)
    ensures Opened(key) + body == [' '] + Quoted(key) + ([':'] + ([' '] + ['"'] + body))
  {
    hide Quoted;
    assert ([':'] + ([' '] + ['"'])) + body == [':'] + ([' '] + ['"'] + body);
  }

  lemma MemberVia(s: string, key: string, t: string)
    requires ParseString(s) == Some(Parsed(key, [':'] + t))
    ensures ParseMember(s) ==
            match ParseString(t)
            case None => None
            case Some(value) => Some(Parsed(Member(key, value.result), value.rest))
  {
    ColonReads(t);
    hide ParseString, Expect;
  }

  lemma PrintedMember(key: string, body: string)
    requires IsPlain(key)
    ensures ParseMember(Opened(key) + body) ==
            match ParseChars(body)
            case None => None
            case Some(value) => Some(Parsed(Member(key, value.result), value.rest))
  {
    hide *;
    var t := [' '] + ['"'] + body;
    OpenedSplit(key, body);
    QuotedReads(key, [':'] + t);
    OpenQuote(body);
    MemberVia(Opened(key) + body, key, t);
  }

  /** A value printed without escapes is read back only if it needs none. */
  lemma PrintedValueIsPlain(m: Member, tail: string, s: string)
    requires IsPlain(m.key) && IsTail(tail) && s == Opened(m.key) + (m.value + tail)
    requires ParseMembers(tail[2..]).Some? ==> m.key !in ParseMembers(tail[2..]).value.result
    requires ParseMembers(s).Some? && m.key in ParseMembers(s).value.result
    requires ParseMembers(s).value.result[m.key] == m.value
    ensures IsPlain(m.value)
  {
    ValueFrom(s, m.key);
    PrintedMember(m.key, m.value + tail);
    CharsInside(m.value, tail);
    hide ParseMember, ParseMembers, ParseChars, Expect, Opened;
    var rest := ParseChars(m.value + tail).value.rest;
    if Expect(',', rest).Some? {
      ExpectAfterString(',', rest, m.value, tail);
      var t := Expect(',', rest).value;
      if |rest| >= |tail| {
        BeforeTail(t, m.value, tail);
        LaterValueIsShorter(Before(t, tail), tail, m.key);
      }
    } else {
      ExpectAfterString('}', rest, m.value, tail);
    }
  }

  lemma OpenedText(m: Member)
    ensures [' '] + MemberText(m) == Opened(m.key) + (m.value + ['"'])
  {
    assert Quoted(m.value) == ['"'] + (m.value + ['"']);
    var k := Quoted(m.key);
    assert [' '] + (k + [':'] + ([' '] + (['"'] + (m.value + ['"'])))) ==
           [' '] + k + ([':'] + ([' '] + ['"'])) + (m.value + ['"']);
  }

  lemma ObjectSplit(a: Member, b: Member, c: Member, tail: string)
    requires tail == ['"'] + (", " + MemberText(c) + "}")
    ensures ObjectText([a, b, c]) == ['{'] + (MemberText(a) + ([','] + (Opened(b.key) + (b.value + tail))))
  {
    ThreeMembers(a, b, c);
    OpenedText(b);
    hide MemberText, Opened;
    var x := ", " + MemberText(c) + "}";
    assert ", " + MemberText(b) + x == [','] + (([' '] + MemberText(b)) + x);
    assert Opened(b.key) + (b.value + ['"']) + x == Opened(b.key) + (b.value + tail);
    assert "{" + MemberText(a) + (", " + MemberText(b) + x) == ['{'] + (MemberText(a) + (", " + MemberText(b) + x));
  }

  lemma TailShape(c: Member, tail: string)
    requires tail == ['"'] + (", " + MemberText(c) + "}") && c.key != [] && c.key[0] == 'v'
    ensures IsTail(tail) && tail[2..] == [' '] + MemberText(c) + "}"
  {
    assert MemberText(c)[0] == '"' && MemberText(c)[1] == c.key[0];
  }

  lemma TailOf(c: Member, tail: string)
    requires tail == ['"'] + (", " + MemberText(c) + "}") && c.key != [] && c.key[0] == 'v'
    requires IsPlain(c.key) && IsPlain(c.value)
    ensures IsTail(tail) && ParseMembers(tail[2..]) == Some(Parsed(map[c.key := c.value], ""))
  {
    TailShape(c, tail);
    hide *;
    MemberReads(c, "}");
    assert "}" + "" == "}";
    LastMember(tail[2..], c, "");
  }

  lemma CommaReads(t: string)
    ensures Expect(',', [','] + t) == Some(t)
  {
    assert ([','] + t)[1..] == t;
  }

  lemma AfterFirst(a: Member, s: string, key: string)
    requires IsPlain(a.key) && IsPlain(a.value) && a.key != key
    requires ParseMembers(MemberText(a) + ([','] + s)).Some?
    requires key in ParseMembers(MemberText(a) + ([','] + s)).value.result
    ensures ParseMembers(s).Some? && key in ParseMembers(s).value.result
    ensures ParseMembers(s).value.result[key] == ParseMembers(MemberText(a) + ([','] + s)).value.result[key]
  {
    hide *;
    MemberReads(a, [','] + s);
    CommaReads(s);
    ValueFrom(MemberText(a) + ([','] + s), key);
  }

  lemma CutMembers(p: string, body: string)
    requires p <= ['{'] + body && ParseObject(p).Some?
    ensures ParseMembers(body).Some? && ParseMembers(body).value.result == ParseObject(p).value
  {
    ExpectCut('{', p, ['{'] + body);
    assert (['{'] + body)[1..] == body;
    assert Expect('{', ['{'] + body) == Some(body);
    hide ParseMembers, Expect;
    ParseMembersCut(Expect('{', p).value, body);
  }

  /**
    An object of three members of which the second is printed unescaped: whatever is read of it, or
    of a cut of it, gives that value back only if the value needs no escapes.
   */
  lemma UnescapedValue(a: Member, b: Member, c: Member, p: string)
    requires IsPlain(a.key) && IsPlain(a.value) && IsPlain(b.key) && IsPlain(c.key) && IsPlain(c.value)
    requires a.key != b.key && b.key != c.key && c.key != [] && c.key[0] == 'v'
    requires p <= ObjectText([a, b, c]) && ParseObject(p).Some?
    requires b.key in ParseObject(p).value && ParseObject(p).value[b.key] == b.value
    ensures IsPlain(b.value)
  {
    hide *;
    var tail := ['"'] + (", " + MemberText(c) + "}");
    var s := Opened(b.key) + (b.value + tail);
    ObjectSplit(a, b, c, tail);
    TailOf(c, tail);
    CutMembers(p, MemberText(a) + ([','] + s));
    AfterFirst(a, s, b.key);
    PrintedValueIsPlain(b, tail, s);
  }
}
