/**
  The base/delta messages of src/compute_engine copy/main.c, with the sample as an input, and the
  decoder that docs/COMPRESSION.md implies: keep the last base, add the difference.
 */
module Framing {
  import opened Wrappers
  import opened Text
  import opened Json
  import opened Parity

  const BASE_PERIOD: nat := 10
  const MAX_JSON_PAYLOAD_SIZE: nat := 256

  datatype Frame = Frame(value: int, isBase: bool)

  function Clamp(x: int): int {
    if x < -128 then -128 else if x > 127 then 127 else x
  }

  /** The base in force for sample k. */
  function BaseOf(samples: seq<int>, k: nat): int
    requires k < |samples|
  {
    samples[BASE_PERIOD * (k / BASE_PERIOD)]
  }

  /** Every tenth sample, from the first. */
  predicate StartsPeriod(k: nat) {
    k % BASE_PERIOD == 0
  }

  /** The frame sent for sample k: every tenth is a base, the others a clamped difference. */
  function FrameOf(samples: seq<int>, k: nat): Frame
    requires k < |samples|
  {
    if StartsPeriod(k) then Frame(samples[k], true) else Frame(Clamp(samples[k] - BaseOf(samples, k)), false)
  }

  function Frames(samples: seq<int>): (frames: seq<Frame>)
    ensures |frames| == |samples|
  {
    seq(|samples|, k requires 0 <= k < |samples| => FrameOf(samples, k))
  }

  /** value, parity, each followed by a comma. */
  function FrameText(value: int): string {
    IntText(value) + [','] + (IntText(OddParity(value)) + [','])
  }

  function FrameJson(site: nat, frame: Frame): string {
    "{\"s\": \"" + IntText(site) + "\", \"t\": \"" + FrameText(frame.value) + "\", \"b\": \"" +
    IntText(if frame.isBase then 1 else 0) + "\"}"
  }

  // ---------- The sender ----------

  /** The counter after n samples. */
  function CounterAfter(n: nat): nat {
    if n == 0 then 0 else (n - 1) % BASE_PERIOD + 1
  }

  lemma BaseAbove(samples: seq<int>, k: nat)
    requires k < |samples| && forall i :: 0 <= i < |samples| ==> 30 < samples[i] < 32768
    ensures 30 < BaseOf(samples, k) < 32768
  {
  }

  lemma SentFrame(samples: seq<int>, n: nat, value: int, isBase: bool)
    requires n < |samples| && (isBase <==> StartsPeriod(n))
    requires value == if isBase then samples[n] else Clamp(samples[n] - BaseOf(samples, n))
    ensures FrameOf(samples, n) == Frame(value, isBase)
  {
    hide BaseOf;
  }

  /** The base of sample n is sample n itself at every tenth, and otherwise the base before it. */
  lemma BaseStep(samples: seq<int>, n: nat)
    requires |samples| == n + 1
    ensures n % BASE_PERIOD == 0 ==> BaseOf(samples, n) == samples[n]
    ensures n % BASE_PERIOD != 0 ==>
              n > 0 && BaseOf(samples, n) == BaseOf(samples[..n], n - 1) && samples[..n][n - 1] == samples[n - 1]
    ensures CounterAfter(n) % BASE_PERIOD == n % BASE_PERIOD
    ensures CounterAfter(n + 1) == n % BASE_PERIOD + 1
  {
    assert n == BASE_PERIOD * (n / BASE_PERIOD) + n % BASE_PERIOD;
    if n % BASE_PERIOD != 0 {
      assert (n - 1) / BASE_PERIOD == n / BASE_PERIOD;
    }
  }

  lemma FrameTextParts(value: int)
    ensures FrameText(value) == "" + (IntText(value) + [',']) + (IntText(OddParity(value)) + [','])
  {
    hide IntText, OddParity;
  }

  lemma FrameLength(site: nat, frame: Frame)
    requires site < 10 && -32768 <= frame.value < 32768
    ensures |IntText(frame.value)| <= 6 && |IntText(OddParity(frame.value))| == 1
    ensures |FrameText(frame.value)| <= 9
    ensures |FrameJson(site, frame)| < MAX_JSON_PAYLOAD_SIZE
  {
    IntTextLength(site);
    IntTextLength(frame.value);
    IntTextLength(OddParity(frame.value));
    IntTextLength(if frame.isBase then 1 else 0);
    hide IntText, OddParity;
  }

  /** The texts posted for the samples. */
  predicate PostedFor(site: nat, samples: seq<int>, posted: seq<string>) {
    |posted| == |samples| && forall k :: 0 <= k < |samples| ==> posted[k] == FrameJson(site, FrameOf(samples, k))
  }

  lemma FrameOfPrefix(samples: seq<int>, x: int, k: nat)
    requires k < |samples|
    ensures FrameOf(samples + [x], k) == FrameOf(samples, k)
  {
    assert BASE_PERIOD * (k / BASE_PERIOD) <= k;
  }

  lemma PostedNext(site: nat, samples: seq<int>, posted: seq<string>, x: int, text: string)
    requires PostedFor(site, samples, posted) && text == FrameJson(site, FrameOf(samples + [x], |samples|))
    ensures PostedFor(site, samples + [x], posted + [text])
  {
    hide FrameJson, FrameOf;
    forall k | 0 <= k < |samples| + 1
      ensures (posted + [text])[k] == FrameJson(site, FrameOf(samples + [x], k))
    {
      if k < |samples| { FrameOfPrefix(samples, x, k); }
    }
  }

  class Sender {
    const site: nat
    var counter: int
    var baseValue: int16
    var buffer: string

    /** The samples above 30 so far, and the texts posted for them. */
    ghost var samples: seq<int>
    ghost var posted: seq<string>

    ghost predicate Valid()
      reads this
    {
      var n := |samples|;
      && buffer == ""
      && site < 10
      && (forall k :: 0 <= k < n ==> 30 < samples[k] < 32768)
      && counter == CounterAfter(n)
      && (n > 0 ==> baseValue == BaseOf(samples, n - 1))
      && PostedFor(site, samples, posted)
    }

    constructor (site: nat)
      requires site < 10
      ensures Valid() && samples == [] && posted == [] && this.site == site
    {
      this.site := site;
      counter, baseValue, buffer, samples, posted := 0, 0, "", [], [];
    }

    /**
      The shared tail of both branches: value and parity, each with its comma, into the buffer, the
      JSON text, an empty buffer. The three small buffers hold their texts and terminators.
     */
    method Post(temp: int16, isBase: bool) returns (json: string)
      requires buffer == "" && site < 10
      modifies this`buffer
      ensures buffer == ""
      ensures json == FrameJson(site, Frame(temp, isBase)) && |json| < MAX_JSON_PAYLOAD_SIZE
      ensures |IntText(temp) + [',']| < 10 && |IntText(OddParity(temp)) + [',']| < 4
      ensures |FrameText(temp)| < 128 && |json| < 256
    {
      FrameTextParts(temp);
      FrameLength(site, Frame(temp, isBase));
      hide IntText, OddParity, FrameText;
      var tempStr := IntText(temp) + [','];
      buffer := buffer + tempStr;
      var parity := CalculateOddParity(temp);
      var parityBit := IntText(parity) + [','];
      buffer := buffer + parityBit;
      json := "{\"s\": \"" + IntText(site) + "\", \"t\": \"" + buffer + "\", \"b\": \"" +
              IntText(if isBase then 1 else 0) + "\"}";
      buffer := "";
    }

    /**
      One turn of the main loop. The difference never leaves int16 (the type of temp is checked at
      every assignment), and the JSON fits its buffer, so the loop's error exit is never taken.
     */
    method Turn(sample: int16) returns (json: Option<string>)
      requires Valid()
      modifies this
      ensures Valid()
      ensures sample <= 30 ==>
                && json == None && samples == old(samples) && posted == old(posted)
                && counter == old(counter) && baseValue == old(baseValue)
      ensures sample > 30 ==>
                && samples == old(samples) + [sample as int]
                && json == Some(FrameJson(site, FrameOf(samples, |samples| - 1)))
                && posted == old(posted) + [json.value]
                && |json.value| < MAX_JSON_PAYLOAD_SIZE
    {
      hide FrameJson, FrameText, BaseOf, CounterAfter, FrameOf, IntText, OddParity, PostedFor;
      if sample <= 30 {
        return None;
      }
      ghost var n := |samples|;
      samples := samples + [sample as int];
      BaseStep(samples, n);
      var temp: int16, isBase := sample, false;
      counter := counter % BASE_PERIOD;
      if counter == 0 {
        baseValue := temp;
        isBase := true;
      } else {
        BaseAbove(old(samples), n - 1);
        temp := temp - baseValue;
        temp := if temp < -128 then -128 else if temp > 127 then 127 else temp;
      }
      SentFrame(samples, n, temp, isBase);
      var text := Post(temp, isBase);
      json := Some(text);
      PostedNext(site, old(samples), posted, sample as int, text);
      posted := posted + [text];
      counter := counter + 1;
    }
  }

  // ---------- The decoder ----------

  /** Keep the last base, add every difference to it. */
  function Decode(base: int, frames: seq<Frame>): (samples: seq<int>)
    ensures |samples| == |frames|
    decreases frames
  {
    if frames == [] then []
    else if frames[0].isBase then [frames[0].value] + Decode(frames[0].value, frames[1..])
    else [base + frames[0].value] + Decode(base, frames[1..])
  }

  /** The nearest value to x that a difference from base can reach. */
  function Nearest(base: int, x: int): int {
    base + Clamp(x - base)
  }

  /** The nearest values of the samples from k on. */
  function NearestFrom(samples: seq<int>, k: nat): (r: seq<int>)
    requires k <= |samples|
    ensures |r| == |samples| - k
    decreases |samples| - k
  {
    if k == |samples| then [] else [Nearest(BaseOf(samples, k), samples[k])] + NearestFrom(samples, k + 1)
  }

  lemma {:induction false} NearestFromAt(samples: seq<int>, k: nat, i: nat)
    requires k <= i < |samples|
    ensures NearestFrom(samples, k)[i - k] == Nearest(BaseOf(samples, i), samples[i])
    decreases i - k
  {
    hide Nearest, BaseOf;
    if i > k { NearestFromAt(samples, k + 1, i); }
  }

  lemma NextBase(samples: seq<int>, k: nat)
    requires k < |samples|
    ensures StartsPeriod(k) ==> BaseOf(samples, k) == samples[k]
    ensures k + 1 < |samples| && !StartsPeriod(k + 1) ==> BaseOf(samples, k + 1) == BaseOf(samples, k)
  {
    assert k == BASE_PERIOD * (k / BASE_PERIOD) + k % BASE_PERIOD;
    if !StartsPeriod(k + 1) { assert (k + 1) / BASE_PERIOD == k / BASE_PERIOD; }
  }

  lemma DecodeHead(samples: seq<int>, k: nat, base: int, frames: seq<Frame>)
    requires k < |samples| && frames != [] && frames[0] == FrameOf(samples, k)
    requires !StartsPeriod(k) ==> base == BaseOf(samples, k)
    ensures var next := if StartsPeriod(k) then samples[k] else base;
            Decode(base, frames) == [Nearest(BaseOf(samples, k), samples[k])] + Decode(next, frames[1..])
  {
    NextBase(samples, k);
    hide BaseOf;
  }

  lemma {:induction false} DecodeFrom(samples: seq<int>, k: nat, base: int)
    requires k <= |samples|
    requires k < |samples| && !StartsPeriod(k) ==> base == BaseOf(samples, k)
    ensures Decode(base, Frames(samples)[k..]) == NearestFrom(samples, k)
    decreases |samples| - k
  {
    if k < |samples| {
      var frames := Frames(samples);
      assert frames[k..][0] == FrameOf(samples, k) && frames[k..][1..] == frames[k + 1..];
      NextBase(samples, k);
      DecodeHead(samples, k, base, frames[k..]);
      hide BaseOf, FrameOf, Nearest, Frames, StartsPeriod;
      DecodeFrom(samples, k + 1, if StartsPeriod(k) then samples[k] else base);
    }
  }

  function Gap(x: int, y: int): nat {
    if x < y then y - x else x - y
  }

  /**
    Over every stream, the decoder recovers the nearest value to each sample that lies within
    -128..127 of its base; so it is exact if and only if the sample lies in that range.
   */
  lemma DecodedStream(samples: seq<int>, k: nat)
    requires k < |samples|
    ensures var d := Decode(0, Frames(samples))[k];
            var base := BaseOf(samples, k);
            && d == Nearest(base, samples[k])
            && (d == samples[k] <==> base - 128 <= samples[k] <= base + 127)
            && (forall y :: base - 128 <= y <= base + 127 ==> Gap(samples[k], d) <= Gap(samples[k], y))
    ensures Frames(samples)[k] == FrameOf(samples, k) && (Frames(samples)[k].isBase <==> k % BASE_PERIOD == 0)
  {
    DecodeFrom(samples, 0, 0);
    NearestFromAt(samples, 0, k);
    assert Frames(samples)[0..] == Frames(samples);
    hide BaseOf, Frames;
  }

  // ---------- The text of a frame ----------

  lemma SplitTwo(a: string, b: string)
    requires ',' !in a && ',' !in b
    ensures Split(a + [','] + (b + [',']), ',') == [a, b, []]
  {
    SplitAt(a, b + [','], ',');
    SplitAt(b, [], ',');
    SplitWithout([], ',');
    hide Split;
    assert b + [','] + [] == b + [','];
    assert [a] + ([b] + [[]]) == [a, b, []];
  }

  /** The frame's text splits into its value, its parity and an empty part. */
  lemma FrameTextReads(value: int)
    ensures var parts := Split(FrameText(value), ',');
            && |parts| == 3
            && ParseInt(parts[0]) == Some(value)
            && ParseInt(parts[1]) == Some(OddParity(value))
            && ParityOk(value, OddParity(value))
  {
    IntTextShape(value);
    IntTextShape(OddParity(value));
    IntRoundTrip(value);
    IntRoundTrip(OddParity(value));
    NoDistance(value, WIDTH);
    OnesAndDistance(value, value, WIDTH);
    hide IntText, ParseInt, Split, Ones;
    SplitTwo(IntText(value), IntText(OddParity(value)));
  }

  // ---------- The posted texts ----------

  function FrameMembers(site: nat, frame: Frame): seq<Member> {
    [Member("s", IntText(site)), Member("t", FrameText(frame.value)), Member("b", if frame.isBase then "1" else "0")]
  }

  lemma FramePieces()
    ensures "{\"s\": \"" == "{" + Label("s")
    ensures "\", \"t\": \"" == "\"" + ", " + Label("t")
    ensures "\", \"b\": \"" == "\"" + ", " + Label("b")
    ensures "\"}" == "\"" + "}"
    ensures IntText(0) == "0" && IntText(1) == "1"
  {
  }

  lemma FrameIsObject(site: nat, frame: Frame)
    ensures FrameJson(site, frame) == ObjectText(FrameMembers(site, frame))
  {
    var members := FrameMembers(site, frame);
    FramePieces();
    PrintedThree(members[0], members[1], members[2]);
    hide IntText, FrameText, ObjectText, Label;
  }

  lemma FrameIsPlain(site: nat, frame: Frame)
    ensures AllPlain(FrameMembers(site, frame))
  {
    IntTextShape(site);
    IntTextShape(frame.value);
    IntTextShape(OddParity(frame.value));
    hide IntText, OddParity;
  }

  function FrameFields(site: nat, frame: Frame): map<string, string> {
    map["s" := IntText(site), "t" := FrameText(frame.value), "b" := if frame.isBase then "1" else "0"]
  }

  lemma FieldsOfFrame(site: nat, frame: Frame)
    ensures var f := FrameFields(site, frame);
            && "s" in f && f["s"] == IntText(site)
            && "t" in f && f["t"] == FrameText(frame.value)
            && "b" in f && (f["b"] == "1" <==> frame.isBase) && (f["b"] == "0" <==> !frame.isBase)
  {
    hide IntText, FrameText;
    assert "s"[0] != "t"[0] && "s"[0] != "b"[0] && "t"[0] != "b"[0] && "1"[0] != "0"[0];
  }

  /** A posted text is a JSON object of the site, the frame's text, and 1 for a base or 0 for a difference. */
  lemma FrameJsonReads(site: nat, frame: Frame)
    ensures ParseObject(FrameJson(site, frame)) ==
            Some(map["s" := IntText(site), "t" := FrameText(frame.value), "b" := if frame.isBase then "1" else "0"])
  {
    var members := FrameMembers(site, frame);
    FrameIsObject(site, frame);
    FrameIsPlain(site, frame);
    ObjectReads(members);
    assert "s"[0] != "t"[0] && "s"[0] != "b"[0] && "t"[0] != "b"[0];
    ThreeMembers(members[0], members[1], members[2]);
    hide ParseObject, IntText, FrameText, FrameJson, ObjectText, Fields, IsPlain;
  }

  /** The frame in a posted text: the value before the first comma, and the base flag. */
  function ReadFrame(text: string): Option<Frame> {
    match ParseObject(text)
    case None => None
    case Some(f) =>
      if "t" !in f || "b" !in f then None
      else
        match ParseInt(Split(f["t"], ',')[0])
        case None => None
        case Some(value) => Some(Frame(value, f["b"] == "1"))
  }

  lemma ReadsFrame(site: nat, frame: Frame)
    ensures ReadFrame(FrameJson(site, frame)) == Some(frame)
  {
    FrameJsonReads(site, frame);
    FrameTextReads(frame.value);
    FieldsOfFrame(site, frame);
    assert FrameFields(site, frame) ==
      map["s" := IntText(site), "t" := FrameText(frame.value), "b" := if frame.isBase then "1" else "0"];
    hide ParseObject, IntText, FrameText, FrameJson, Split, ParseInt, FrameFields;
  }

  /** The frames of all texts, if each has one. */
  function ReadFrames(texts: seq<string>): (frames: Option<seq<Frame>>)
    ensures frames.Some? ==> |frames.value| == |texts|
  {
    if texts == [] then Some([])
    else
      match (ReadFrames(texts[..|texts| - 1]), ReadFrame(texts[|texts| - 1]))
      case (Some(front), Some(last)) => Some(front + [last])
      case _ => None
  }

  lemma ReadsOneMore(texts: seq<string>, text: string, frames: seq<Frame>, frame: Frame)
    requires ReadFrames(texts) == Some(frames) && ReadFrame(text) == Some(frame)
    ensures ReadFrames(texts + [text]) == Some(frames + [frame])
  {
    hide ReadFrame;
    assert (texts + [text])[..|texts|] == texts;
  }

  lemma {:induction false} AllRead(texts: seq<string>, frames: seq<Frame>)
    requires |texts| == |frames| && forall k :: 0 <= k < |texts| ==> ReadFrame(texts[k]) == Some(frames[k])
    ensures ReadFrames(texts) == Some(frames)
    decreases |texts|
  {
    hide ReadFrame;
    if texts != [] {
      var n := |texts| - 1;
      AllRead(texts[..n], frames[..n]);
      ReadsOneMore(texts[..n], texts[n], frames[..n], frames[n]);
      assert texts == texts[..n] + [texts[n]] && frames == frames[..n] + [frames[n]];
    }
  }

  lemma ReadsAllFrames(site: nat, samples: seq<int>, posted: seq<string>)
    requires PostedFor(site, samples, posted)
    ensures ReadFrames(posted) == Some(Frames(samples))
  {
    var frames := Frames(samples);
    forall k | 0 <= k < |posted|
      ensures ReadFrame(posted[k]) == Some(frames[k])
    {
      assert posted[k] == FrameJson(site, frames[k]);
      hide ReadFrame, FrameJson, FrameOf, Frames;
      ReadsFrame(site, frames[k]);
    }
    hide ReadFrame, ReadFrames, FrameOf, Frames;
    AllRead(posted, frames);
  }

  /** The members read have the site, and the flag "1" for a base or "0" for a difference. */
  predicate ReadsFlag(fields: Option<map<string, string>>, site: nat, isBase: bool) {
    && fields.Some? && "b" in fields.value && "s" in fields.value
    && fields.value["s"] == IntText(site)
    && fields.value["b"] == if isBase then "1" else "0"
  }

  lemma PostedFields(site: nat, samples: seq<int>, posted: seq<string>, k: nat)
    requires PostedFor(site, samples, posted) && k < |samples|
    ensures ReadsFlag(ParseObject(posted[k]), site, k % 10 == 0)
  {
    var frame := FrameOf(samples, k);
    assert posted[k] == FrameJson(site, frame) && (frame.isBase <==> k % 10 == 0);
    FrameJsonReads(site, frame);
    FieldsOfFrame(site, frame);
    assert FrameFields(site, frame) ==
      map["s" := IntText(site), "t" := FrameText(frame.value), "b" := if frame.isBase then "1" else "0"];
    hide ParseObject, FrameJson, IntText, FrameText, FrameOf, FrameFields, PostedFor;
  }

  /** d is the value nearest to sample k within -128..127 of the base, the sample at the last multiple of ten. */
  ghost predicate IsNearest(samples: seq<int>, k: nat, d: int)
    requires k < |samples|
  {
    var base := samples[10 * (k / 10)];
    && base - 128 <= d <= base + 127
    && (d == samples[k] <==> base - 128 <= samples[k] <= base + 127)
    && forall y :: base - 128 <= y <= base + 127 ==> Gap(samples[k], d) <= Gap(samples[k], y)
  }

  lemma DecodedNearest(samples: seq<int>, k: nat)
    requires k < |samples|
    ensures IsNearest(samples, k, Decode(0, Frames(samples))[k])
  {
    DecodedStream(samples, k);
    hide Decode, Frames, Gap;
  }

  /**
    From the posted texts: over every stream, decoding them recovers the nearest value to each sample that
    lies within -128..127 of its base, and the flag is "1" exactly at every tenth sample.
   */
  lemma DecodedPosts(site: nat, samples: seq<int>, posted: seq<string>, k: nat)
    requires PostedFor(site, samples, posted) && k < |samples|
    ensures ReadFrames(posted).Some?
    ensures IsNearest(samples, k, Decode(0, ReadFrames(posted).value)[k])
    ensures ReadsFlag(ParseObject(posted[k]), site, k % 10 == 0)
  {
    hide *;
    ReadsAllFrames(site, samples, posted);
    DecodedNearest(samples, k);
    PostedFields(site, samples, posted, k);
  }

  // ---------- The server's parser ----------

  /** ... and because of that empty part the temperature resource of the server refuses it. */
  lemma FrameTextIsRefused(value: int)
    ensures ParseReading(FrameText(value)) == None
  {
    var s := IntText(value) + [','] + IntText(OddParity(value));
    IntTextShape(value);
    assert FrameText(value) == s + ",";
    TrailingCommaIsRefused(s);
  }
}
