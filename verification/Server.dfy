/**
  The temperature resource of src/server/app/coap_server.py: per site and sensor a ring of two
  values, a parity gate in front of it, and the fusion of the three sensors of the site behind it.
 */
module Server {
  import opened Wrappers
  import opened Statistics
  import opened Text
  import opened Json
  import opened Payload
  import opened Parity
  import opened Fusion

  const RING_SIZE: nat := 2

  datatype Ring = Ring(values: seq<int>, index: nat)

  type SiteData = map<string, map<string, Ring>>

  const EMPTY_RING := Ring([0, 0], 0)

  /** The three sensor entries of one site. */
  const NEW_SITE := map["1" := EMPTY_RING, "2" := EMPTY_RING, "3" := EMPTY_RING]

  /** The table the constructor builds; its fourth key is spelt lillie. */
  const INITIAL: SiteData := map[
    "grenoble" := NEW_SITE, "strasbourg" := NEW_SITE, "saclay" := NEW_SITE, "lillie" := NEW_SITE]

  /** The three fields of the JSON payload. */
  datatype Post = Post(site: string, sensor: string, value: string)

  /** json.loads and the three lookups, on texts of string members; nothing if any of them fails. */
  function ParsePost(text: string): Option<Post> {
    match ParseObject(text)
    case None => None
    case Some(f) =>
      if "site" in f && "sensor" in f && "value" in f then Some(Post(f["site"], f["sensor"], f["value"])) else None
  }

  datatype Error = KeyError(key: string) | ValueError | IndexError

  datatype Outcome = Raised(error: Error) | Recorded(decoded: Float, isOutlier: bool)

  // ---------- One request ----------

  /** The keys of the table. */
  predicate IsKey(site: string) {
    site in {"grenoble", "strasbourg", "saclay", "lillie"}
  }

  /** The keys of every site. */
  predicate IsSensor(sensor: string) {
    sensor in {"1", "2", "3"}
  }

  predicate RingOk(ring: Ring) {
    |ring.values| == RING_SIZE && ring.index < RING_SIZE
  }

  ghost predicate SiteOk(site: map<string, Ring>) {
    && (forall sensor :: sensor in site <==> IsSensor(sensor))
    && (forall sensor :: sensor in site ==> RingOk(site[sensor]))
  }

  ghost predicate WellFormed(data: SiteData) {
    && (forall site :: site in data <==> IsKey(site))
    && (forall site :: site in data ==> SiteOk(data[site]))
  }

  /** Store a value at the index and advance the index. */
  function Push(ring: Ring, value: int): (r: Ring)
    requires RingOk(ring)
    ensures RingOk(r)
  {
    Ring(ring.values[ring.index := value], (ring.index + 1) % RING_SIZE)
  }

  /** values[-1] of a sensor. */
  function Latest(ring: Ring): int
    requires RingOk(ring)
  {
    ring.values[RING_SIZE - 1]
  }

  ghost function FusedOf(site: map<string, Ring>): Float
    requires SiteOk(site)
  {
    PythonResult([Latest(site["1"]), Latest(site["2"]), Latest(site["3"])])
  }

  /** The fusion of the three sensors of a site. */
  ghost function FusedAt(data: SiteData, site: string): Float
    requires WellFormed(data) && IsKey(site)
  {
    FusedOf(data[site])
  }

  /**
    The value recorded for a site: of the three values values[-1], nan if all agree, and otherwise the
    mean of those that 31 (2x - y - z)^2 > 507 (y - z)^2 does not reject.
   */
  ghost predicate Fuses(decoded: Float, site: map<string, Ring>)
    requires SiteOk(site)
  {
    var x1, x2, x3 := site["1"].values[1], site["2"].values[1], site["3"].values[1];
    decoded == if x1 == x2 == x3 then NaN else Num(Fused(x1, x2, x3))
  }

  lemma FusedIs(site: map<string, Ring>)
    requires SiteOk(site)
    ensures Fuses(FusedOf(site), site)
  {
    PythonExact(Latest(site["1"]), Latest(site["2"]), Latest(site["3"]));
    hide PythonResult, Fused;
  }

  /** Whether the three latest values of a site are equal. */
  ghost predicate Agree(site: map<string, Ring>)
    requires SiteOk(site)
  {
    AllEqual(Latest(site["1"]), Latest(site["2"]), Latest(site["3"]))
  }

  /** What a request delivers, if it is accepted: the site's name, the sensor and the value. */
  datatype Delivery = Delivery(site: string, sensor: string, value: int)

  /** Which requests are accepted; the table's contents do not matter, only its keys. */
  ghost function Accepted(post: Post): Option<Delivery> {
    match ParseReading(post.value)
    case None => None
    case Some(reading) =>
      if |reading| >= 2 && ParityOk(reading[0], reading[1]) && post.site in {"1", "4", "5"} && IsSensor(post.sensor)
      then Some(Delivery(SITES[post.site], post.sensor, reading[0]))
      else None
  }

  ghost function Delivered(data: SiteData, d: Delivery): SiteData
    requires WellFormed(data) && IsKey(d.site) && IsSensor(d.sensor)
  {
    data[d.site := data[d.site][d.sensor := Push(data[d.site][d.sensor], d.value)]]
  }

  lemma DeliveredOk(data: SiteData, d: Delivery)
    requires WellFormed(data) && IsKey(d.site) && IsSensor(d.sensor)
    ensures WellFormed(Delivered(data, d))
  {
    hide IsKey, IsSensor;
    var site := data[d.site][d.sensor := Push(data[d.site][d.sensor], d.value)];
    assert SiteOk(site);
  }

  predicate ServedSite(siteName: string) {
    siteName in {"grenoble", "saclay", "strasbourg"}
  }

  /** Of the six site codes, exactly 1, 4 and 5 name a key of the table. */
  lemma KnownSites(code: string)
    requires code in SITES
    ensures IsKey(SITES[code]) <==> code in {"1", "4", "5"}
    ensures IsKey(SITES[code]) <==> ServedSite(SITES[code])
  {
    assert code in {"0", "1", "2", "3", "4", "5"};
    assert |"paris"| == 5 && |"UNKNOWN"| == 7 && |"lille"| == 5;
    assert |"grenoble"| == 8 && |"strasbourg"| == 10 && |"saclay"| == 6 && |"lillie"| == 6;
  }

  /** Acceptance as the program decides it, lookup by lookup. */
  lemma AcceptedIff(post: Post)
    ensures var reading := ParseReading(post.value);
            Accepted(post).Some? <==>
              && post.site in SITES && reading.Some? && |reading.value| >= 2
              && ParityOk(reading.value[0], reading.value[1])
              && IsKey(SITES[post.site]) && IsSensor(post.sensor)
    ensures Accepted(post).Some? ==>
              && Accepted(post).value == Delivery(SITES[post.site], post.sensor, ParseReading(post.value).value[0])
              && IsKey(Accepted(post).value.site) && IsSensor(Accepted(post).value.sensor)
  {
    hide ParityOk, ParseReading, IsSensor;
    if post.site in SITES { KnownSites(post.site); }
    assert post.site in {"1", "4", "5"} ==> post.site in SITES;
  }

  /** The table after a request: changed by exactly the accepted ones. */
  ghost function Next(data: SiteData, post: Post): (next: SiteData)
    requires WellFormed(data)
    ensures WellFormed(next)
  {
    match Accepted(post)
    case None => data
    case Some(d) =>
      AcceptedIff(post);
      DeliveredOk(data, d);
      Delivered(data, d)
  }

  lemma InitialOk()
    ensures WellFormed(INITIAL)
    ensures forall site :: IsKey(site) ==> INITIAL[site] == NEW_SITE
  {
    assert SiteOk(NEW_SITE);
    hide SiteOk, IsSensor;
  }

  lemma NotASensor()
    ensures !IsSensor("values")
  {
    assert |"values"| == 6;
  }

  lemma NextIs(data: SiteData, post: Post)
    requires WellFormed(data)
    ensures Accepted(post).None? ==> Next(data, post) == data
    ensures Accepted(post).Some? ==>
              var d := Accepted(post).value;
              IsKey(d.site) && IsSensor(d.sensor) && Next(data, post) == Delivered(data, d)
  {
    AcceptedIff(post);
  }

  /** Which lookups succeed. */
  lemma KeysOf(data: SiteData, site: string, sensor: string)
    requires WellFormed(data)
    ensures site in data <==> IsKey(site)
    ensures site in data ==>
              && SiteOk(data[site])
              && (sensor in data[site] <==> IsSensor(sensor))
              && "values" !in data[site]
              && (sensor in data[site] ==> RingOk(data[site][sensor]))
  {
    hide IsKey, IsSensor;
    NotASensor();
  }

  /** The three latest values of a site, fused. */
  method FuseSite(root: real -> real, site: map<string, Ring>) returns (decoded: Float)
    requires IsSquareRoot(root) && SiteOk(site)
    ensures decoded == FusedOf(site)
  {
    hide IsSquareRoot, PythonResult;
    decoded := FilterOutliersPython(root, [Latest(site["1"]), Latest(site["2"]), Latest(site["3"])]);
  }

  class Temperature {
    const root: real -> real
    var siteData: SiteData

    ghost predicate Valid()
      reads this
    {
      IsSquareRoot(root) && WellFormed(siteData)
    }

    constructor (root: real -> real)
      requires IsSquareRoot(root)
      ensures Valid() && siteData == INITIAL && this.root == root
    {
      this.root := root;
      siteData := INITIAL;
      InitialOk();
    }

    /** The accepting path: the ring entry, its index, and the fusion that follows. */
    method Store(siteName: string, sensor: string, sensorValue: int) returns (decoded: Float)
      requires Valid() && IsKey(siteName) && IsSensor(sensor)
      modifies this
      ensures Valid() && siteData == Delivered(old(siteData), Delivery(siteName, sensor, sensorValue))
      ensures decoded == FusedAt(siteData, siteName)
    {
      hide IsKey, IsSensor, IsSquareRoot, WellFormed, SiteOk, FusedOf;
      KeysOf(siteData, siteName, sensor);
      DeliveredOk(siteData, Delivery(siteName, sensor, sensorValue));
      var ring := siteData[siteName][sensor];
      ring := ring.(values := ring.values[ring.index := sensorValue]);
      ring := ring.(index := (ring.index + 1) % RING_SIZE);
      siteData := siteData[siteName := siteData[siteName][sensor := ring]];
      KeysOf(siteData, siteName, sensor);
      decoded := FuseSite(root, siteData[siteName]);
    }

    /**
      render_post up to the database call. A request that is not accepted raises and leaves the
      table alone; an accepted one pushes its value and records the fusion of its site.
     */
    method RenderPost(post: Post) returns (outcome: Outcome)
      requires Valid()
      modifies this
      ensures Valid() && siteData == Next(old(siteData), post)
      ensures outcome.Recorded? <==> Accepted(post).Some?
      ensures outcome.Recorded? ==>
                && IsKey(Accepted(post).value.site)
                && outcome == Recorded(FusedAt(siteData, Accepted(post).value.site), false)
                && Fuses(outcome.decoded, siteData[Accepted(post).value.site])
      ensures post.site !in SITES ==> outcome == Raised(KeyError(post.site))
      ensures post.site in SITES ==>
                match ParseReading(post.value)
                case None => outcome == Raised(ValueError)
                case Some(reading) =>
                  && (|reading| < 2 ==> outcome == Raised(IndexError))
                  && (|reading| >= 2 && !IsKey(SITES[post.site]) ==> outcome == Raised(KeyError(SITES[post.site])))
                  && (|reading| >= 2 && IsKey(SITES[post.site]) ==>
                        && (!ParityOk(reading[0], reading[1]) ==> outcome == Raised(KeyError("values")))
                        && (ParityOk(reading[0], reading[1]) && !IsSensor(post.sensor) ==>
                              outcome == Raised(KeyError(post.sensor))))
    {
      AcceptedIff(post);
      NextIs(siteData, post);
      assert WellFormed(siteData);
      hide *;
      if post.site !in SITES {
        return Raised(KeyError(post.site));
      }
      var siteName := SITES[post.site];
      KeysOf(siteData, siteName, post.sensor);
      var reading := ParseReading(post.value);
      if reading.None? {
        return Raised(ValueError);
      }
      if |reading.value| < 2 {
        return Raised(IndexError);
      }
      var sensorValue, parity := reading.value[0], reading.value[1];
      var ok := ParityCheck(sensorValue, parity);
      if siteName !in siteData {
        return Raised(KeyError(siteName));
      }
      if !ok {
        // The mismatch branch looks for 'values' among the sensors of the site.
        assert "values" !in siteData[siteName];
        return Raised(KeyError("values"));
      }
      if post.sensor !in siteData[siteName] {
        return Raised(KeyError(post.sensor));
      }
      var decoded := Store(siteName, post.sensor, sensorValue);
      outcome := Recorded(decoded, false);
      FusedIs(siteData[siteName]);
    }
  }

  // ---------- Runs ----------

  ghost function After(posts: seq<Post>): (data: SiteData)
    ensures WellFormed(data)
  {
    InitialOk();
    if posts == [] then INITIAL else Next(After(posts[..|posts| - 1]), posts[|posts| - 1])
  }

  /** The values accepted from one sensor of one site, in order. */
  ghost function History(posts: seq<Post>, site: string, sensor: string): seq<int> {
    if posts == [] then []
    else
      var before := History(posts[..|posts| - 1], site, sensor);
      match Accepted(posts[|posts| - 1])
      case None => before
      case Some(d) => if d.site == site && d.sensor == sensor then before + [d.value] else before
  }

  /** The last even-numbered of n messages, number 2 * (n / 2), or 0 before the second. */
  function LastEven(h: seq<int>): int {
    if |h| < 2 then 0 else h[2 * (|h| / 2) - 1]
  }

  /** The ring after the messages h: even-numbered ones land in slot 1, odd-numbered ones in slot 0. */
  function RingOf(h: seq<int>): Ring {
    var n := |h|;
    Ring([if n == 0 then 0 else h[2 * ((n - 1) / 2)], LastEven(h)], n % 2)
  }

  lemma PushRing(h: seq<int>, value: int)
    ensures RingOk(RingOf(h))
    ensures Push(RingOf(h), value) == RingOf(h + [value])
  {
    var n := |h|;
    var ring, next := RingOf(h), RingOf(h + [value]);
    if n % 2 == 0 {
      assert (n + 1) / 2 == n / 2 && 2 * (n / 2) == n;
      assert next.values == [value, ring.values[1]];
    } else {
      assert (n + 1) / 2 == n / 2 + 1 && (n - 1) / 2 == n / 2 && 2 * (n / 2) + 1 == n;
      assert next.values == [ring.values[0], value];
    }
  }

  /** One request changes the ring of its own sensor, by one push, and no other. */
  lemma NextRing(data: SiteData, post: Post, site: string, sensor: string)
    requires WellFormed(data) && IsKey(site) && IsSensor(sensor)
    ensures Next(data, post)[site][sensor] ==
            if Accepted(post).Some? && Accepted(post).value.site == site && Accepted(post).value.sensor == sensor
            then Push(data[site][sensor], Accepted(post).value.value) else data[site][sensor]
  {
    hide Accepted, IsKey, IsSensor, Push;
  }

  /** Over every run each ring is determined by the messages accepted from its own sensor. */
  lemma {:induction false} RingsFollowHistory(posts: seq<Post>, site: string, sensor: string)
    requires IsKey(site) && IsSensor(sensor)
    ensures After(posts)[site][sensor] == RingOf(History(posts, site, sensor))
  {
    if posts == [] {
      InitialOk();
      assert NEW_SITE[sensor] == EMPTY_RING;
    } else {
      var front, last := posts[..|posts| - 1], posts[|posts| - 1];
      RingsFollowHistory(front, site, sensor);
      hide RingOf, Accepted, IsKey, IsSensor;
      NextRing(After(front), last, site, sensor);
      PushRing(History(front, site, sensor), 0);
      if Accepted(last).Some? {
        PushRing(History(front, site, sensor), Accepted(last).value.value);
      }
    }
  }

  /** What a sensor contributes to fusion: stale by at most one message. */
  lemma LatestIsLastEven(posts: seq<Post>, site: string, sensor: string)
    requires IsKey(site) && IsSensor(sensor)
    ensures Latest(After(posts)[site][sensor]) == LastEven(History(posts, site, sensor))
  {
    RingsFollowHistory(posts, site, sensor);
  }

  /**
    What is recorded, over every run: from the last even-numbered messages of the three sensors, nan if
    they agree, and otherwise the mean of those that are not rejected as outliers.
   */
  lemma RecordedOverRuns(posts: seq<Post>, site: string)
    requires IsKey(site)
    ensures var x1, x2, x3 := LastEven(History(posts, site, "1")), LastEven(History(posts, site, "2")),
                              LastEven(History(posts, site, "3"));
            FusedAt(After(posts), site) == if x1 == x2 == x3 then NaN else Num(Fused(x1, x2, x3))
  {
    hide PythonResult, History, After, Latest, IsKey, Fused, LastEven;
    assert IsSensor("1") && IsSensor("2") && IsSensor("3");
    LatestIsLastEven(posts, site, "1");
    LatestIsLastEven(posts, site, "2");
    LatestIsLastEven(posts, site, "3");
    var data := After(posts)[site];
    PythonExact(Latest(data["1"]), Latest(data["2"]), Latest(data["3"]));
  }

  ghost predicate SameEvens(h: seq<int>, g: seq<int>) {
    |h| == |g| && forall i :: 0 <= i < |h| && i % 2 == 1 ==> h[i] == g[i]
  }

  lemma EvensDecide(h: seq<int>, g: seq<int>)
    requires SameEvens(h, g)
    ensures LastEven(h) == LastEven(g)
  {
    var n := |h|;
    assert n >= 2 ==> (2 * (n / 2) - 1) % 2 == 1;
  }

  lemma SameLatest(posts: seq<Post>, posts': seq<Post>, site: string, sensor: string)
    requires IsKey(site) && IsSensor(sensor)
    requires SameEvens(History(posts, site, sensor), History(posts', site, sensor))
    ensures Latest(After(posts)[site][sensor]) == Latest(After(posts')[site][sensor])
  {
    hide *;
    LatestIsLastEven(posts, site, sensor);
    LatestIsLastEven(posts', site, sensor);
    EvensDecide(History(posts, site, sensor), History(posts', site, sensor));
  }

  /** Every other message of a sensor is never used: changing them changes no fused value. */
  lemma OddMessagesAreIgnored(posts: seq<Post>, posts': seq<Post>, site: string)
    requires IsKey(site)
    requires forall sensor :: IsSensor(sensor) ==>
               SameEvens(History(posts, site, sensor), History(posts', site, sensor))
    ensures FusedAt(After(posts), site) == FusedAt(After(posts'), site)
  {
    hide PythonResult, History, After, Latest, SameEvens, IsKey;
    assert IsSensor("1") && IsSensor("2") && IsSensor("3");
    SameLatest(posts, posts', site, "1");
    SameLatest(posts, posts', site, "2");
    SameLatest(posts, posts', site, "3");
  }

  lemma LastEvenIn(h: seq<int>, lo: int, hi: int)
    requires |h| >= 2 && Between(h, lo, hi)
    ensures lo <= LastEven(h) <= hi
  {
    assert h[2 * (|h| / 2) - 1] in h;
  }

  lemma LatestInRange(posts: seq<Post>, site: string, sensor: string, lo: int, hi: int)
    requires IsKey(site) && IsSensor(sensor)
    requires |History(posts, site, sensor)| >= 2 && Between(History(posts, site, sensor), lo, hi)
    ensures lo <= Latest(After(posts)[site][sensor]) <= hi
  {
    hide *;
    LatestIsLastEven(posts, site, sensor);
    LastEvenIn(History(posts, site, sensor), lo, hi);
  }

  lemma ThreeBetween(x1: int, x2: int, x3: int, lo: int, hi: int)
    requires lo <= x1 <= hi && lo <= x2 <= hi && lo <= x3 <= hi
    ensures Between([x1, x2, x3], lo, hi)
  {
  }

  /**
    Warm-up. Once each sensor of a site has had two accepted messages, all in [lo, hi], the fused
    value lies in [lo, hi] or is nan, and it is nan exactly when the three latest values agree.
   */
  lemma FusedAfterWarmUp(posts: seq<Post>, site: string, lo: int, hi: int)
    requires IsKey(site)
    requires forall sensor :: IsSensor(sensor) ==>
               |History(posts, site, sensor)| >= 2 && Between(History(posts, site, sensor), lo, hi)
    ensures var fused := FusedAt(After(posts), site);
            && (fused == NaN <==> Agree(After(posts)[site]))
            && (fused.Num? ==> lo as real <= fused.value <= hi as real)
  {
    hide History, After, Latest, IsKey, Fused, Between, PythonResult;
    assert IsSensor("1") && IsSensor("2") && IsSensor("3");
    LatestInRange(posts, site, "1", lo, hi);
    LatestInRange(posts, site, "2", lo, hi);
    LatestInRange(posts, site, "3", lo, hi);
    var data := After(posts)[site];
    ThreeBetween(Latest(data["1"]), Latest(data["2"]), Latest(data["3"]), lo, hi);
    FusedInRange(Latest(data["1"]), Latest(data["2"]), Latest(data["3"]), lo, hi);
    PythonExact(Latest(data["1"]), Latest(data["2"]), Latest(data["3"]));
  }

  lemma NeverMisspelt(post: Post)
    ensures Accepted(post).Some? ==> Accepted(post).value.site != "lillie"
  {
    AcceptedIff(post);
    if post.site in SITES { KnownSites(post.site); }
    assert "lillie"[0] != "saclay"[0] && |"grenoble"| == 8 && |"strasbourg"| == 10 && |"lillie"| == 6;
    assert !ServedSite("lillie");
  }

  /** The table never hears of the key it misspells: its rings stay at zero for ever. */
  lemma {:induction false} MisspeltSiteStaysEmpty(posts: seq<Post>)
    ensures IsKey("lillie") && After(posts)["lillie"] == NEW_SITE
  {
    InitialOk();
    if posts != [] {
      MisspeltSiteStaysEmpty(posts[..|posts| - 1]);
      NeverMisspelt(posts[|posts| - 1]);
      hide Accepted, IsKey, IsSensor;
    }
  }

  // ---------- End to end ----------

  /** The fields of the message the sensor node prints. */
  ghost function NodePost(siteName: string, sensor: string, value: int16): Post {
    Post(IntText(SiteCode(siteName)), sensor, ReadingText(value, OddParity(value)))
  }

  /** What is read of a node's text, or of a cut of it, has the node's sensor id only if that needs no escapes. */
  lemma ReadPostIsPlain(site: nat, sensor: string, value: int, parity: int, cut: string)
    requires cut <= PayloadText(site, sensor, value, parity)
    ensures ParsePost(cut).Some? && ParsePost(cut).value.sensor == sensor ==> IsPlain(sensor)
  {
    hide ParseObject, IsPlain, PayloadText;
    if ParsePost(cut).Some? && ParsePost(cut).value.sensor == sensor {
      SensorReadIsPlain(site, sensor, value, parity, cut);
    }
  }

  /**
    From text to fields: the server reads the node's three fields out of its buffer exactly when the
    text was not cut and the sensor id has no quote, backslash or control character; a cut text with
    such an id is refused.
   */
  lemma NodeMessage(siteName: string, sensor: string, value: int16)
    ensures var text := PayloadText(SiteCode(siteName), sensor, value, OddParity(value));
            var read := ParsePost(Snprintf(text, MAX_JSON_PAYLOAD_SIZE));
            && (read == Some(NodePost(siteName, sensor, value)) <==> IsPlain(sensor) && |text| < MAX_JSON_PAYLOAD_SIZE)
            && (IsPlain(sensor) && |text| >= MAX_JSON_PAYLOAD_SIZE ==> read == None)
  {
    var site, parity := SiteCode(siteName), OddParity(value);
    var text := PayloadText(site, sensor, value, parity);
    hide ParseObject, PayloadText, PayloadFields, IntText, ReadingText, SiteCode, OddParity, IsPlain;
    if IsPlain(sensor) {
      PlainPayloadReads(site, sensor, value, parity);
      SensorField(site, sensor, value, parity);
      if |text| >= MAX_JSON_PAYLOAD_SIZE {
        CutPayloadIsRefused(site, sensor, value, parity, Snprintf(text, MAX_JSON_PAYLOAD_SIZE));
      }
    } else {
      hide ParsePost;
      ReadPostIsPlain(site, sensor, value, parity, Snprintf(text, MAX_JSON_PAYLOAD_SIZE));
    }
  }

  lemma ServedSites(siteName: string)
    ensures ServedSite(siteName) ==> Maps(LOCATION_MAP, siteName)
    ensures !ServedSite("UNKNOWN")
  {
    assert |"UNKNOWN"| == 7 && |"grenoble"| == 8 && |"strasbourg"| == 10 && |"saclay"| == 6;
    if siteName == "grenoble" { assert LOCATION_MAP[1].location == siteName; }
    if siteName == "saclay" { assert LOCATION_MAP[4].location == siteName; }
    if siteName == "strasbourg" { assert LOCATION_MAP[5].location == siteName; }
  }

  /**
    A node's message is accepted, for every int16 value, exactly when it comes from sensor 1, 2 or 3
    of Grenoble, Saclay or Strasbourg, and then delivers the node's own site name and value.
   */
  lemma NodeToServer(siteName: string, sensor: string, value: int16)
    ensures Accepted(NodePost(siteName, sensor, value)) ==
            if ServedSite(siteName) && IsSensor(sensor)
            then Some(Delivery(siteName, sensor, value)) else None
  {
    ReadingRoundTrip(value, OddParity(value));
    UndamagedPasses(value);
    SiteRoundTrip(siteName);
    var code := IntText(SiteCode(siteName));
    KnownSites(code);
    ServedSites(siteName);
    AcceptedIff(NodePost(siteName, sensor, value));
    hide ParityOk, ParseReading, IntText, SiteCode, ReadingText, OddParity, IsSensor, IsKey, ServedSite, Accepted, Maps;
  }

  /** A damaged message is refused whenever an odd number of its 17 bits arrive flipped. */
  lemma OddDamageIsRefused(site: string, sensor: string, sent: int16, received: int, parity: int)
    requires parity == 0 || parity == 1
    requires (Distance(sent, received, WIDTH) + if parity == OddParity(sent) then 0 else 1) % 2 == 1
    ensures Accepted(Post(site, sensor, ReadingText(received, parity))) == None
  {
    ReadingRoundTrip(received, parity);
    DetectsOddErrors(sent, received, parity);
    hide ParityOk, ParseReading, ReadingText, Distance, OddParity;
  }
}
