/**
  The sensor node of src/compute_engine/main.c: the loops over the int16_t window, updated in
  place, and the main loop's reaction to one reading.
 */
module SensorNode {
  import opened Wrappers
  import opened Statistics
  import opened Cleaner
  import opened WindowRuns
  import Parity
  import Payload

  /** The literal test of remove_outliers. */
  function CloseTo(mean: real, stddev: real): int -> bool {
    x => Abs(x as real - mean) <= DEVIATION_FACTOR * stddev
  }

  method CalculateStddev(root: real -> real, data: array<int16>, mean: real) returns (stddev: real)
    requires IsSquareRoot(root) && data.Length == WINDOW_SIZE
    ensures stddev >= 0.0 && Ratio(Sq(stddev), WINDOW_SIZE as real, SqDev(data[..], mean))
  {
    hide Sq, IsSquareRoot;
    var sum := 0.0;
    for i := 0 to WINDOW_SIZE
      invariant sum == SqDev(data[..i], mean)
    {
      assert data[..i + 1][..i] == data[..i];
      sum := sum + Sq(data[i] as real - mean);
    }
    assert data[..WINDOW_SIZE] == data[..];
    SqDevNonNegative(data[..], mean);
    Quotient(sum, WINDOW_SIZE as real);
    RootOf(root, sum / WINDOW_SIZE as real);
    stddev := root(sum / WINDOW_SIZE as real);
  }

  /** The write index j keeps up with the read index, so no slot is lost or overwritten unread. */
  method RemoveOutliers(data: array<int16>, mean: real, stddev: real)
    requires data.Length == WINDOW_SIZE
    modifies data
    ensures data[..] == Masked(old(data[..]), CloseTo(mean, stddev))
  {
    var j := 0;
    for i := 0 to WINDOW_SIZE
      invariant j == i
      invariant forall k :: 0 <= k < i ==> data[k] == if CloseTo(mean, stddev)(old(data[k])) then old(data[k]) else 0
      invariant forall k :: i <= k < WINDOW_SIZE ==> data[k] == old(data[k])
    {
      if Abs(data[i] as real - mean) <= DEVIATION_FACTOR * stddev {
        data[j] := data[i];
        j := j + 1;
      } else {
        data[j] := 0;
        j := j + 1;
      }
    }
  }

  method CalculateAverage(data: array<int16>) returns (average: Option<real>)
    requires data.Length == WINDOW_SIZE
    ensures average == Average(data[..])
    ensures var present := Select(data[..], NonZero());
            && (average.Some? <==> present != [])
            && (average.Some? ==> average.value * |present| as real == Total(present) as real)
  {
    hide Total;
    var sum, count := 0.0, 0;
    for i := 0 to WINDOW_SIZE
      invariant count == |Select(data[..i], NonZero())|
      invariant sum == Sum(Select(data[..i], NonZero()))
    {
      assert data[..i + 1][..i] == data[..i];
      if data[i] != 0 {
        AddSnoc(Select(data[..i], NonZero()), data[i], Value());
        sum := sum + data[i] as real;
        count := count + 1;
      }
    }
    assert data[..WINDOW_SIZE] == data[..];
    TotalIsSum(Select(data[..], NonZero()));
    if count != 0 { Quotient(sum, count as real); }
    average := if count == 0 then None else Some(sum / count as real);
  }

  lemma SameRatio(x: real, y: real, n: real, t: real)
    requires n > 0.0 && Ratio(x, n, t) && Ratio(y, n, t)
    ensures x == y
  {
    EqualCancel(n, x, y);
  }

  lemma DoubleRoot(d: real, sigma: real, v: real)
    requires sigma >= 0.0 && Sq(sigma) == v
    ensures Abs(d) <= 2.0 * sigma <==> Sq(d) <= 4.0 * v
  {
    assert Sq(2.0 * sigma) == 4.0 * v && Sq(Abs(d)) == Sq(d);
    hide Sq;
    if Abs(d) > 2.0 * sigma {
      SquareOrder(Abs(d), 2.0 * sigma);
    } else if Abs(d) < 2.0 * sigma {
      SquareOrder(2.0 * sigma, Abs(d));
    }
  }

  /** Comparing with twice the root is the squared test of the cleaning function. */
  lemma RootTest(w: seq<int>, stddev: real)
    requires |w| == WINDOW_SIZE
    requires stddev >= 0.0 && Ratio(Sq(stddev), WINDOW_SIZE as real, SqDev(w, Mean(w)))
    ensures Masked(w, CloseTo(Mean(w), stddev)) == Cleaned(w)
  {
    VarianceTimes(w);
    SameRatio(Sq(stddev), Variance(w), WINDOW_SIZE as real, SqDev(w, Mean(w)));
    forall x: int
      ensures CloseTo(Mean(w), stddev)(x) == Inlier(w, SQ_FACTOR)(x)
    {
      DoubleRoot(x as real - Mean(w), stddev, Variance(w));
    }
  }

  /** The text posted for a value, none when there is no value to send. */
  function PayloadFor(site: nat, sensor: string, sent: Option<int>): Option<string> {
    match sent
    case None => None
    case Some(v) =>
      Some(Payload.Snprintf(Payload.PayloadText(site, sensor, v, Parity.OddParity(v)), Payload.MAX_JSON_PAYLOAD_SIZE))
  }

  /** Rounding, parity bit and JSON text of a defined average are the payload of the value sent. */
  lemma PayloadStep(site: nat, sensor: string, written: seq<int16>, average: Option<real>)
    requires |written| == WINDOW_SIZE && average == Average(Cleaned(written))
    ensures average.None? ==> PayloadFor(site, sensor, Outgoing(written)) == None
    ensures average.Some? ==>
              var v := Rounded(average.value);
              && -32768 <= v < 32768
              && PayloadFor(site, sensor, Outgoing(written)) ==
                   Some(Payload.Snprintf(Payload.PayloadText(site, sensor, v, Parity.OddParity(v)),
                                         Payload.MAX_JSON_PAYLOAD_SIZE))
  {
    OutgoingIsInt16(written);
    hide Cleaned, Average, Rounded, Payload.PayloadText, Payload.Snprintf, Parity.OddParity;
  }

  lemma OutgoingRounds(w: seq<int>, average: Option<real>)
    requires w != [] && average == Average(Cleaned(w))
    ensures Outgoing(w) == if average.None? then None else Some(Rounded(average.value))
  {
  }

  /** The replay of the readings extended by one. */
  lemma ReplayStep(initial: int16, readings: seq<int16>, reading: int16)
    ensures After(Initially(initial), readings + [reading]) == After(Initially(initial), readings).Next(reading)
  {
    assert (readings + [reading])[..|readings|] == readings;
  }

  class Node {
    const root: real -> real
    const site: nat
    const sensor: string
    var tempList: array<int16>
    var currentIndex: int
    var sum: real
    var avgTemp: Option<real>
    var stddev: Option<real>

    /** The first temperature and the readings stored since. */
    ghost const initial: int16
    ghost var readings: seq<int16>

    /** The window is what the history of readings makes of it. */
    ghost predicate Valid()
      reads this, tempList
    {
      && IsSquareRoot(root)
      && tempList.Length == WINDOW_SIZE
      && 0 <= currentIndex < WINDOW_SIZE
      && Contents() == After(Initially(initial), readings)
    }

    ghost function Contents(): Window
      reads this, tempList
      requires 0 <= currentIndex
    {
      Window(tempList[..], currentIndex)
    }

    constructor (root: real -> real, siteName: string, sensor: string, initialTemp: int16)
      requires IsSquareRoot(root)
      ensures Valid() && fresh(tempList)
      ensures this.root == root && site == Payload.SiteCode(siteName) && this.sensor == sensor
      ensures initial == initialTemp && readings == []
    {
      this.root := root;
      this.sensor := sensor;
      var code := Payload.GetBinaryValue(Payload.LOCATION_MAP, siteName);
      this.site := code;
      currentIndex := 0;
      sum, avgTemp, stddev := 0.0, Some(0.0), Some(0.0);
      initial, readings := initialTemp, [];
      var list := new int16[WINDOW_SIZE];
      for i := 0 to WINDOW_SIZE
        invariant forall k :: 0 <= k < i ==> list[k] == initialTemp
      {
        list[i] := initialTemp;
      }
      tempList := list;
      new;
      assert tempList[..] == Initially(initial).slots;
    }

    /** The statistics before cleaning, cleaning in place, and the statistics after it. */
    method CleanWindow() returns (average: Option<real>)
      requires IsSquareRoot(root) && tempList.Length == WINDOW_SIZE
      modifies this`sum, this`avgTemp, this`stddev, tempList
      ensures tempList[..] == Cleaned(old(tempList[..]))
      ensures average == avgTemp == Average(tempList[..])
      ensures stddev.Some? <==> avgTemp.Some?
      ensures avgTemp.Some? ==>
                && stddev.value >= 0.0
                && Ratio(Sq(stddev.value), WINDOW_SIZE as real, SqDev(tempList[..], avgTemp.value))
    {
      ghost var w := tempList[..];
      sum := 0.0;
      for i := 0 to WINDOW_SIZE
        invariant sum == Sum(tempList[..i]) && tempList[..] == w
      {
        assert tempList[..i + 1][..i] == tempList[..i];
        sum := sum + tempList[i] as real;
      }
      assert tempList[..WINDOW_SIZE] == w;
      var mean := sum / WINDOW_SIZE as real;
      var deviation := CalculateStddev(root, tempList, mean);
      RemoveOutliers(tempList, mean, deviation);
      RootTest(w, deviation);
      average := CalculateAverage(tempList);
      avgTemp := average;
      stddev := None;
      if average.Some? {
        deviation := CalculateStddev(root, tempList, average.value);
        stddev := Some(deviation);
      }
    }

    /** One turn of the main loop; the reading is absent when the sensor could not be read. */
    method Sample(reading: Option<int16>) returns (payload: Option<string>)
      requires Valid()
      modifies this, tempList
      ensures Valid() && tempList == old(tempList)
      ensures reading.None? ==>
                && payload == None && readings == old(readings) && Contents() == old(Contents())
                && sum == old(sum) && avgTemp == old(avgTemp) && stddev == old(stddev)
      ensures reading.Some? ==>
                && readings == old(readings) + [reading.value]
                && payload == PayloadFor(site, sensor, old(Contents()).Sent(reading.value))
                && avgTemp == Average(tempList[..])
      ensures reading.Some? ==>
                var kept := Survivors(old(Contents()).Written(reading.value));
                && (payload.Some? <==> kept != [])
                && (payload.Some? ==>
                      exists v: int16 ::
                        Nearest(|kept|, Total(kept), v) &&
                        payload.value == Payload.Snprintf(Payload.PayloadText(site, sensor, v, Parity.OddParity(v)),
                                                          Payload.MAX_JSON_PAYLOAD_SIZE))
    {
      hide IsSquareRoot, Cleaned, Average, Rounded, Payload.PayloadText, Payload.Snprintf, Parity.OddParity, Outgoing,
        After, PayloadFor, Initially, Nearest, Total, Survivors;
      if reading.None? {
        return None;
      }
      ghost var before := Contents();
      tempList[currentIndex] := reading.value;
      currentIndex := currentIndex + 1;
      if currentIndex >= WINDOW_SIZE {
        currentIndex := 0;
      }
      ghost var written: seq<int16> := tempList[..];
      assert written == before.Written(reading.value);

      var average := CleanWindow();
      ReplayStep(initial, readings, reading.value);
      readings := readings + [reading.value];
      PayloadStep(site, sensor, written, average);
      SentIsNearestToMean(written);
      OutgoingRounds(written, average);

      payload := None;
      if average.Some? {
        var rounded: int16 := Rounded(average.value);
        assert Nearest(|Survivors(written)|, Total(Survivors(written)), rounded);
        var parity := Parity.CalculateOddParity(rounded);
        payload := Some(Payload.Snprintf(Payload.PayloadText(site, sensor, rounded, parity),
                                         Payload.MAX_JSON_PAYLOAD_SIZE));
      }
    }
  }
}
