/**
  The message of the sensor node: its site code and its JSON text in a 128-byte buffer, the table
  through which the server names the site again, and the fields the server reads from the text.
 */
module Payload {
  import opened Wrappers
  import opened Text
  import opened Json
  import Parity

  // ---------- Site codes ----------

  datatype LocationMapping = LocationMapping(location: string, binaryValue: nat)

  /** The entries of locationMap before its NULL terminator. */
  const LOCATION_MAP := [
    LocationMapping("UNKNOWN", 0), LocationMapping("grenoble", 1), LocationMapping("paris", 2),
    LocationMapping("lille", 3), LocationMapping("saclay", 4), LocationMapping("strasbourg", 5)]

  /** The server's table, indexed by the text of the code. */
  const SITES := map[
    "0" := "UNKNOWN", "1" := "grenoble", "2" := "paris", "3" := "lille", "4" := "saclay", "5" := "strasbourg"]

  predicate Maps(mapping: seq<LocationMapping>, location: string) {
    exists i :: 0 <= i < |mapping| && mapping[i].location == location
  }

  predicate FirstEntry(mapping: seq<LocationMapping>, location: string, code: nat, i: int) {
    && 0 <= i < |mapping|
    && mapping[i] == LocationMapping(location, code)
    && forall j :: 0 <= j < i ==> mapping[j].location != location
  }

  function CodeOf(mapping: seq<LocationMapping>, location: string): nat {
    if mapping == [] then 0
    else if mapping[0].location == location then mapping[0].binaryValue
    else CodeOf(mapping[1..], location)
  }

  /** The first matching entry wins; 0 when there is none. */
  method GetBinaryValue(mapping: seq<LocationMapping>, location: string) returns (code: nat)
    ensures code == CodeOf(mapping, location)
    ensures Maps(mapping, location) ==> exists i :: FirstEntry(mapping, location, code, i)
    ensures !Maps(mapping, location) ==> code == 0
  {
    for i := 0 to |mapping|
      invariant forall j :: 0 <= j < i ==> mapping[j].location != location
      invariant CodeOf(mapping, location) == CodeOf(mapping[i..], location)
    {
      if mapping[i].location == location {
        code := mapping[i].binaryValue;
        assert FirstEntry(mapping, location, code, i);
        return;
      }
      assert mapping[i..][1..] == mapping[i + 1..];
    }
    code := 0;
  }

  function SiteCode(location: string): nat {
    CodeOf(LOCATION_MAP, location)
  }

  lemma {:induction false} CodeOfEntry(mapping: seq<LocationMapping>, location: string)
    ensures Maps(mapping, location) ==> LocationMapping(location, CodeOf(mapping, location)) in mapping
    ensures !Maps(mapping, location) ==> CodeOf(mapping, location) == 0
  {
    if mapping != [] {
      CodeOfEntry(mapping[1..], location);
      assert Maps(mapping, location) <==> mapping[0].location == location || Maps(mapping[1..], location) by {
        if mapping[0].location == location { assert Maps(mapping, location); }
        assert forall i :: 0 < i < |mapping| ==> mapping[i] == mapping[1..][i - 1];
      }
      if mapping[0].location == location {
        assert mapping[0] == LocationMapping(location, mapping[0].binaryValue);
      }
    }
  }

  /** The server names the site that the node was built for, or UNKNOWN if the node's table lacks it. */
  lemma SiteRoundTrip(location: string)
    ensures IntText(SiteCode(location)) in SITES
    ensures SITES[IntText(SiteCode(location))] == if Maps(LOCATION_MAP, location) then location else "UNKNOWN"
    ensures |IntText(SiteCode(location))| == 1
  {
    hide CodeOf;
    CodeOfEntry(LOCATION_MAP, location);
    var code := SiteCode(location);
    assert code <= 5;
    assert IntText(code) == [Digit(code)];
    if !Maps(LOCATION_MAP, location) {
      assert SITES["0"] == "UNKNOWN";
    } else {
      var i :| 0 <= i < |LOCATION_MAP| && LOCATION_MAP[i] == LocationMapping(location, code);
      assert i == code;
    }
  }

  // ---------- The JSON text ----------

  const MAX_JSON_PAYLOAD_SIZE: nat := 128

  function PayloadText(site: nat, sensor: string, value: int, parity: int): string {
    "{\"site\": \"" + IntText(site) + "\", \"sensor\": \"" + sensor + "\", \"value\": \"" +
    ReadingText(value, parity) + "\"}"
  }

  /** What snprintf leaves in a buffer of the given size: the text, cut to fit with its terminator. */
  function Snprintf(text: string, size: nat): (buffer: string)
    requires size > 0
    ensures buffer <= text && |buffer| < size
    ensures |text| < size ==> buffer == text
    ensures |text| >= size ==> |buffer| == size - 1
  {
    if |text| < size then text else text[..size - 1]
  }

  lemma PayloadLength(site: nat, sensor: string, value: int, parity: int)
    requires site < 10 && 0 <= parity <= 1
    ensures |PayloadText(site, sensor, value, parity)| == 43 + |sensor| + |IntText(value)|
  {
    IntTextLength(site);
    IntTextLength(parity);
  }

  /** Every int16 value fits the buffer exactly when the sensor id has at most 78 characters. */
  lemma PayloadFits(site: nat, sensor: string)
    requires site < 10
    ensures (forall v: int16 :: Snprintf(PayloadText(site, sensor, v, Parity.OddParity(v)), MAX_JSON_PAYLOAD_SIZE)
                                == PayloadText(site, sensor, v, Parity.OddParity(v)))
            <==> |sensor| <= 78
  {
    forall v: int16
      ensures |PayloadText(site, sensor, v, Parity.OddParity(v))| == 43 + |sensor| + |IntText(v)|
      ensures |IntText(v)| <= 6
    {
      PayloadLength(site, sensor, v, Parity.OddParity(v));
      IntTextLength(v);
    }
    var worst: int16 := -32768;
    IntTextLength(worst);
    assert |PayloadText(site, sensor, worst, Parity.OddParity(worst))| == 49 + |sensor|;
  }

  // ---------- What the server reads ----------

  function PayloadMembers(site: nat, sensor: string, value: int, parity: int): seq<Member> {
    [Member("site", IntText(site)), Member("sensor", sensor), Member("value", ReadingText(value, parity))]
  }

  /** The pieces of the format string. */
  lemma FormatPieces()
    ensures "{\"site\": \"" == "{" + Label("site")
    ensures "\", \"sensor\": \"" == "\"" + ", " + Label("sensor")
    ensures "\", \"value\": \"" == "\"" + ", " + Label("value")
    ensures "\"}" == "\"" + "}"
  {
  }

  lemma PayloadIsObject(site: nat, sensor: string, value: int, parity: int)
    ensures PayloadText(site, sensor, value, parity) == ObjectText(PayloadMembers(site, sensor, value, parity))
  {
    var members := PayloadMembers(site, sensor, value, parity);
    FormatPieces();
    PrintedThree(members[0], members[1], members[2]);
    hide IntText, ReadingText, ObjectText, Label;
  }

  lemma OtherMembers(site: nat, value: int, parity: int)
    ensures IsPlain("site") && IsPlain(IntText(site))
    ensures IsPlain("sensor")
    ensures IsPlain("value") && IsPlain(ReadingText(value, parity))
  {
    IntTextShape(site);
    IntTextShape(value);
    IntTextShape(parity);
    hide IntText;
  }

  lemma PayloadIsPlain(site: nat, sensor: string, value: int, parity: int)
    requires IsPlain(sensor)
    ensures AllPlain(PayloadMembers(site, sensor, value, parity))
  {
    OtherMembers(site, value, parity);
    hide IsPlain, IntText, ReadingText;
  }

  /** The three fields of the text. */
  function PayloadFields(site: nat, sensor: string, value: int, parity: int): map<string, string> {
    map["site" := IntText(site), "sensor" := sensor, "value" := ReadingText(value, parity)]
  }

  lemma SensorField(site: nat, sensor: string, value: int, parity: int)
    ensures var f := PayloadFields(site, sensor, value, parity);
            && "site" in f && f["site"] == IntText(site)
            && "sensor" in f && f["sensor"] == sensor
            && "value" in f && f["value"] == ReadingText(value, parity)
  {
    hide IntText, ReadingText;
    assert |"site"| == 4 && |"sensor"| == 6 && |"value"| == 5;
  }

  lemma PlainPayloadReads(site: nat, sensor: string, value: int, parity: int)
    requires IsPlain(sensor)
    ensures ParseObject(PayloadText(site, sensor, value, parity)) == Some(PayloadFields(site, sensor, value, parity))
  {
    var members := PayloadMembers(site, sensor, value, parity);
    PayloadIsObject(site, sensor, value, parity);
    PayloadIsPlain(site, sensor, value, parity);
    ObjectReads(members);
    assert |"site"| == 4 && |"sensor"| == 6 && |"value"| == 5;
    ThreeMembers(members[0], members[1], members[2]);
    hide ParseObject, IntText, ReadingText, PayloadText, ObjectText, Fields, IsPlain;
  }

  /** Whatever is read of the text, or of a cut of it, gives the sensor id back only if the id needs no escapes. */
  lemma SensorReadIsPlain(site: nat, sensor: string, value: int, parity: int, cut: string)
    requires cut <= PayloadText(site, sensor, value, parity) && ParseObject(cut).Some?
    requires "sensor" in ParseObject(cut).value && ParseObject(cut).value["sensor"] == sensor
    ensures IsPlain(sensor)
  {
    var members := PayloadMembers(site, sensor, value, parity);
    PayloadIsObject(site, sensor, value, parity);
    assert |"site"| == 4 && |"sensor"| == 6 && |"value"| == 5;
    assert members == [members[0], members[1], members[2]];
    OtherMembers(site, value, parity);
    hide ParseObject, ObjectText, IsPlain, PayloadText, IntText, ReadingText;
    UnescapedValue(members[0], members[1], members[2], cut);
  }

  /** The text reads back as its fields exactly when the sensor id has no quote, backslash or control character. */
  lemma PayloadReadsIff(site: nat, sensor: string, value: int, parity: int)
    ensures ParseObject(PayloadText(site, sensor, value, parity)) == Some(PayloadFields(site, sensor, value, parity))
            <==> IsPlain(sensor)
  {
    var text := PayloadText(site, sensor, value, parity);
    hide ParseObject, IsPlain, IntText, ReadingText, PayloadText, PayloadFields;
    if IsPlain(sensor) {
      PlainPayloadReads(site, sensor, value, parity);
    } else if ParseObject(text) == Some(PayloadFields(site, sensor, value, parity)) {
      SensorField(site, sensor, value, parity);
      SensorReadIsPlain(site, sensor, value, parity, text);
    }
  }

  /** A text cut by its buffer is refused. */
  lemma CutPayloadIsRefused(site: nat, sensor: string, value: int, parity: int, cut: string)
    requires IsPlain(sensor) && cut < PayloadText(site, sensor, value, parity)
    ensures ParseObject(cut) == None
  {
    PayloadIsObject(site, sensor, value, parity);
    PayloadIsPlain(site, sensor, value, parity);
    hide *;
    CutObjectIsRefused(PayloadMembers(site, sensor, value, parity), cut);
  }
}
