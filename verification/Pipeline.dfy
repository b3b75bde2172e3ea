/**
  From the sensors' readings to the fused value: what the server records when the messages it
  accepts come from healthy nodes, and when one of the three sensors of a site is faulty.
 */
module Pipeline {
  import opened Wrappers
  import opened Statistics
  import opened StableRuns
  import opened Fusion
  import opened Json
  import Nodes = WindowRuns
  import Payload
  import SensorNode
  import opened Server

  /** A node's run up to one of its messages. */
  datatype NodeRun = NodeRun(sensor: string, initial: int16, readings: seq<int16>, reading: int16)

  ghost function SentBy(run: NodeRun): Option<int> {
    Nodes.After(Nodes.Initially(run.initial), run.readings).Sent(run.reading)
  }

  ghost predicate InBand(run: NodeRun, lo: int, hi: int) {
    lo <= run.initial <= hi && lo <= run.reading <= hi && Between(run.readings, lo, hi)
  }

  /** The text that a node of the site posts at the end of the run. */
  ghost function TextOf(run: NodeRun, site: string): Option<string> {
    SensorNode.PayloadFor(Payload.SiteCode(site), run.sensor, SentBy(run))
  }

  /** The server reads the post out of the text of a node of the site whose temperatures stayed in [lo, hi]. */
  ghost predicate Healthy(post: Post, site: string, lo: int, hi: int) {
    exists run: NodeRun ::
      && InBand(run, lo, hi) && IsPlain(run.sensor)
      && TextOf(run, site).Some? && ParsePost(TextOf(run, site).value) == Some(post)
  }

  ghost predicate Delivers(post: Post, site: string, sensor: string) {
    Accepted(post).Some? && Accepted(post).value.site == site && Accepted(post).value.sensor == sensor
  }

  /** What the server accepts from one sensor of the site are healthy messages. */
  ghost predicate HealthySensor(posts: seq<Post>, site: string, sensor: string, lo: int, hi: int) {
    && |History(posts, site, sensor)| >= 2
    && forall i :: 0 <= i < |posts| && Delivers(posts[i], site, sensor) ==> Healthy(posts[i], site, lo, hi)
  }

  /** Inside the band a node's message is defined, in the band and an int16. */
  lemma SentInBand(run: NodeRun, lo: int, hi: int)
    requires IsBand(lo, hi) && InBand(run, lo, hi)
    ensures SentBy(run).Some? && lo <= SentBy(run).value <= hi && -32768 <= SentBy(run).value < 32768
  {
    BandRunsNeverDie(lo, hi, run.initial, run.readings, run.reading);
    hide Nodes.After, Nodes.Initially;
    Nodes.SentWithinRecent(run.initial, run.readings, run.reading, -32768, 32767);
  }

  /** The fields that the server reads out of a node's text. */
  lemma TextIsRead(run: NodeRun, site: string, value: int16)
    requires IsPlain(run.sensor) && SentBy(run) == Some(value as int)
    ensures TextOf(run, site).Some?
    ensures ParsePost(TextOf(run, site).value).Some? ==>
              ParsePost(TextOf(run, site).value).value == NodePost(site, run.sensor, value)
  {
    NodeMessage(site, run.sensor, value);
    hide SentBy, ParsePost, NodePost, Payload.PayloadText, Payload.SiteCode, Payload.Snprintf;
  }

  /** A healthy message delivers a value in the band. */
  lemma HealthyValue(post: Post, site: string, lo: int, hi: int)
    requires IsBand(lo, hi) && Healthy(post, site, lo, hi) && Accepted(post).Some?
    ensures lo <= Accepted(post).value.value <= hi
  {
    hide Accepted, NodePost, ParsePost, TextOf, SentBy, IsBand, InBand, IsPlain;
    var run: NodeRun :|
      && InBand(run, lo, hi) && IsPlain(run.sensor)
      && TextOf(run, site).Some? && ParsePost(TextOf(run, site).value) == Some(post);
    SentInBand(run, lo, hi);
    var value: int16 := SentBy(run).value;
    TextIsRead(run, site, value);
    NodeToServer(site, run.sensor, value);
  }

  lemma {:induction false} HealthyHistory(posts: seq<Post>, site: string, sensor: string, lo: int, hi: int)
    requires IsBand(lo, hi)
    requires forall i :: 0 <= i < |posts| && Delivers(posts[i], site, sensor) ==> Healthy(posts[i], site, lo, hi)
    ensures Between(History(posts, site, sensor), lo, hi)
  {
    hide Accepted, IsBand, Healthy;
    if posts != [] {
      var front, last := posts[..|posts| - 1], posts[|posts| - 1];
      assert forall i :: 0 <= i < |front| ==> front[i] == posts[i];
      HealthyHistory(front, site, sensor, lo, hi);
      if Delivers(last, site, sensor) { HealthyValue(last, site, lo, hi); }
    }
  }

  lemma HealthyLatest(posts: seq<Post>, site: string, sensor: string, lo: int, hi: int)
    requires IsKey(site) && IsSensor(sensor) && IsBand(lo, hi) && HealthySensor(posts, site, sensor, lo, hi)
    ensures lo <= Latest(After(posts)[site][sensor]) <= hi
  {
    HealthyHistory(posts, site, sensor, lo, hi);
    LatestInRange(posts, site, sensor, lo, hi);
  }

  /** Three healthy sensors: the fused value is in the band, or nan when the three values agree. */
  lemma HealthySite(posts: seq<Post>, site: string, lo: int, hi: int)
    requires IsKey(site) && IsBand(lo, hi)
    requires forall sensor :: IsSensor(sensor) ==> HealthySensor(posts, site, sensor, lo, hi)
    ensures FusedAt(After(posts), site).Num? ==> lo as real <= FusedAt(After(posts), site).value <= hi as real
  {
    hide HealthySensor, IsKey, After, Latest, Fused, PythonResult, IsBand, Between;
    assert IsSensor("1") && IsSensor("2") && IsSensor("3");
    HealthyLatest(posts, site, "1", lo, hi);
    HealthyLatest(posts, site, "2", lo, hi);
    HealthyLatest(posts, site, "3", lo, hi);
    var data := After(posts)[site];
    ThreeBetween(Latest(data["1"]), Latest(data["2"]), Latest(data["3"]), lo, hi);
    FusedInRange(Latest(data["1"]), Latest(data["2"]), Latest(data["3"]), lo, hi);
    PythonExact(Latest(data["1"]), Latest(data["2"]), Latest(data["3"]));
  }

  predicate WithinThird(value: real, lo: int, hi: int) {
    var margin := (hi - lo) as real / 3.0;
    lo as real - margin <= value <= hi as real + margin
  }

  /** Two readings in the band keep the fused value within a third of the band's width around it. */
  lemma TwoGoodReadings(x1: int, x2: int, x3: int, lo: int, hi: int)
    requires lo <= x2 <= hi && lo <= x3 <= hi
    ensures WithinThird(Fused(x1, x2, x3), lo, hi)
    ensures Fused(x1, x2, x3) == Fused(x2, x1, x3) == Fused(x2, x3, x1)
  {
    BoundedInfluence(x1, x2, x3);
    PermutationInvariant(x1, x2, x3, x2, x1, x3);
    PermutationInvariant(x1, x2, x3, x2, x3, x1);
    hide Fused;
  }

  /**
    One faulty sensor: whatever it sends, or if it sends nothing, the value recorded for the site
    stays within a third of the band's width of the band of the two healthy sensors.
   */
  lemma OneFaultySensor(posts: seq<Post>, site: string, faulty: string, lo: int, hi: int)
    requires IsKey(site) && IsSensor(faulty) && IsBand(lo, hi)
    requires forall sensor :: IsSensor(sensor) && sensor != faulty ==> HealthySensor(posts, site, sensor, lo, hi)
    ensures FusedAt(After(posts), site).Num? ==> WithinThird(FusedAt(After(posts), site).value, lo, hi)
  {
    assert faulty == "1" || faulty == "2" || faulty == "3";
    assert IsSensor("1") && IsSensor("2") && IsSensor("3");
    assert "1"[0] != "2"[0] && "1"[0] != "3"[0] && "2"[0] != "3"[0];
    hide HealthySensor, IsKey, After, Latest, Fused, PythonResult, IsBand, WithinThird;
    var data := After(posts)[site];
    var x1, x2, x3 := Latest(data["1"]), Latest(data["2"]), Latest(data["3"]);
    PythonExact(x1, x2, x3);
    if faulty != "1" { HealthyLatest(posts, site, "1", lo, hi); }
    if faulty != "2" { HealthyLatest(posts, site, "2", lo, hi); }
    if faulty != "3" { HealthyLatest(posts, site, "3", lo, hi); }
    if faulty == "1" {
      TwoGoodReadings(x1, x2, x3, lo, hi);
    } else if faulty == "2" {
      TwoGoodReadings(x2, x1, x3, lo, hi);
    } else {
      TwoGoodReadings(x3, x1, x2, lo, hi);
    }
  }
}
