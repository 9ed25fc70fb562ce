/** The statistics collector: summary statistics of a list of timings, the
    per-layer cost breakdown of every offloading point, and the order in
    which per-layer rows are written. */
module StatsCollector {
  import opened Wrappers
  import opened SampleStats
  import opened Decimal
  import Scenario

  // ----- analyze_times -----

  /** `StatisticsResult`, with the standard deviation carried as its square. */
  datatype StatisticsResult = StatisticsResult(
    metricName: string,
    count: nat,
    minValue: real,
    maxValue: real,
    meanValue: real,
    medianValue: real,
    stdDevSquared: real,
    sumValue: real)

  /** `analyze_times(times, metric_name)`: None for no data; a single
      sample has standard deviation 0. */
  function AnalyzeTimes(times: seq<real>, metricName: string): (r: Option<StatisticsResult>)
    ensures r.None? <==> |times| == 0
    ensures r.Some? ==> r.value.metricName == metricName && r.value.count == |times|
    ensures r.Some? ==> r.value.sumValue == Sum(times)
    ensures r.Some? ==> r.value.minValue in times && r.value.maxValue in times
    ensures r.Some? ==> forall i :: 0 <= i < |times| ==>
              r.value.minValue <= times[i] <= r.value.maxValue
    ensures r.Some? ==> r.value.stdDevSquared >= 0.0
    ensures |times| == 1 ==> r.Some? && r.value.stdDevSquared == 0.0
    ensures r.Some? ==> r.value.meanValue == Mean(times) && r.value.medianValue == Median(times)
    ensures |times| > 1 ==> r.Some? && r.value.stdDevSquared == SampleVariance(times)
  {
    if |times| == 0 then None
    else
      Some(StatisticsResult(
        metricName,
        |times|,
        Minimum(times),
        Maximum(times),
        Mean(times),
        Median(times),
        if |times| > 1 then SampleVariance(times) else 0.0,
        Sum(times)))
  }

  /** The mean and the median lie between the minimum and the maximum. */
  lemma AnalyzeTimesOrdered(times: seq<real>, metricName: string)
    requires |times| > 0
    ensures var r := AnalyzeTimes(times, metricName).value;
            && r.minValue <= r.meanValue <= r.maxValue
            && r.minValue <= r.medianValue <= r.maxValue
  {
    MeanBetweenExtremes(times);
    MedianBetweenExtremes(times);
  }

  /** Identical samples give that sample as minimum, maximum, mean, median,
      and a standard deviation of 0. */
  lemma AnalyzeConstantTimes(times: seq<real>, c: real, metricName: string)
    requires |times| > 0
    requires forall i :: 0 <= i < |times| ==> times[i] == c
    ensures var r := AnalyzeTimes(times, metricName).value;
            && r.minValue == r.maxValue == r.meanValue == r.medianValue == c
            && r.stdDevSquared == 0.0
            && r.sumValue == c * (|times| as real)
  {
    ConstantSamples(times, c);
    ConstantSum(times, c);
    AnalyzeTimesOrdered(times, metricName);
  }

  // ----- calculate_offloading_metrics -----

  /** One row of the offloading metrics: the cost of offloading after
      device layer `layer`. */
  datatype OffloadingMetric = OffloadingMetric(
    layer: nat,
    deviceCost: real,
    transmissionCost: real,
    edgeCost: real,
    totalLatency: real)

  /** `edge_times.values()[i + 1:]`; a slice past the end is empty. */
  function EdgeAfter(edge: seq<real>, i: nat): seq<real> {
    if i + 1 <= |edge| then edge[i + 1..] else []
  }

  /** The mean of the speeds, or 1 when there are none. */
  function SpeedDivisor(speeds: seq<real>): real {
    if |speeds| > 0 then Mean(speeds) else 1.0
  }

  /** `layer_sizes.get(str(i), 0)`. */
  function SizeOf(sizes: map<string, real>, i: nat): real {
    if IntToString(i) in sizes then sizes[IntToString(i)] else 0.0
  }

  /** Row `m` is the breakdown of offloading after device layer i: the
      device runs layers 0..i, the edge the layers after i, and the output
      of layer i crosses the network at the mean speed. */
  predicate DescribesLayer(m: OffloadingMetric, i: nat, device: seq<real>, edge: seq<real>,
                           sizes: map<string, real>, speeds: seq<real>)
    requires i < |device|
  {
    && m.layer == i
    && m.deviceCost == Sum(device[..i + 1])
    && m.edgeCost == Sum(EdgeAfter(edge, i))
    && m.transmissionCost * SpeedDivisor(speeds) == SizeOf(sizes, i)
    && m.totalLatency == m.deviceCost + m.transmissionCost + m.edgeCost
  }

  /** `calculate_offloading_metrics`: the dictionaries of device and edge
      times are given as their values in insertion order. One row per
      device layer, in layer order; a zero mean speed makes the first
      division raise, so only an empty device list gets through then. */
  method CalculateOffloadingMetrics(device: seq<real>, edge: seq<real>,
                                    sizes: map<string, real>, speeds: seq<real>)
    returns (r: Result<seq<OffloadingMetric>>)
    ensures r.Err? <==> |device| > 0 && SpeedDivisor(speeds) == 0.0
    ensures r.Err? ==> r.error == ZeroDivisionError
    ensures r.Ok? ==> |r.value| == |device|
    ensures r.Ok? ==> forall i :: 0 <= i < |device| ==>
              DescribesLayer(r.value[i], i, device, edge, sizes, speeds)
  {
    var metrics: seq<OffloadingMetric> := [];
    var i := 0;
    while i < |device|
      invariant 0 <= i <= |device|
      invariant i > 0 ==> SpeedDivisor(speeds) != 0.0
      invariant |metrics| == i
      invariant forall j :: 0 <= j < i ==> DescribesLayer(metrics[j], j, device, edge, sizes, speeds)
    {
      var deviceCost := Sum(device[..i + 1]);
      var edgeCost := Sum(EdgeAfter(edge, i));
      var divisor := SpeedDivisor(speeds);
      if divisor == 0.0 {
        return Err(ZeroDivisionError);
      }
      var transmissionCost := SizeOf(sizes, i) / divisor;
      QuotientTimesDivisor(SizeOf(sizes, i), divisor);
      var row := OffloadingMetric(i, deviceCost, transmissionCost, edgeCost,
                                  deviceCost + transmissionCost + edgeCost);
      assert DescribesLayer(row, i, device, edge, sizes, speeds);
      metrics := metrics + [row];
      i := i + 1;
    }
    r := Ok(metrics);
  }

  lemma QuotientTimesDivisor(a: real, d: real)
    requires d != 0.0
    ensures a / d * d == a
  {
  }

  /** With as many edge as device times, row i is the split cost of running
      layers 0..i on the device, with the transmission cost as the network
      time of that split; the last row has edge cost 0. */
  lemma MetricIsSplitCost(device: seq<real>, edge: seq<real>, net: seq<real>, i: nat)
    requires |edge| == |device| && |net| == |device| + 1 && i < |device|
    ensures Sum(device[..i + 1]) == Scenario.DevicePrefix(device)[i + 1]
    ensures Sum(EdgeAfter(edge, i)) == Scenario.EdgeSuffix(edge)[i + 1]
    ensures Sum(device[..i + 1]) + net[i + 1] + Sum(EdgeAfter(edge, i))
            == Scenario.Cost(device, edge, net, i + 1)
    ensures i == |device| - 1 ==> Sum(EdgeAfter(edge, i)) == 0.0
  {
    Scenario.DevicePrefixAt(device, i + 1);
    Scenario.EdgeSuffixAt(edge, i + 1);
  }

  // ----- the layer order of save_layer_statistics_csv -----

  /** `s.split(sep)`. */
  function Split(s: string, sep: char): (parts: seq<string>)
    ensures |parts| >= 1
    ensures forall k :: 0 <= k < |parts| ==> sep !in parts[k]
  {
    if |s| == 0 then [""]
    else
      var rest := Split(s[1..], sep);
      if s[0] == sep then [""] + rest else [[s[0]] + rest[0]] + rest[1..]
  }

  /** `sep.join(parts)`. */
  function Join(parts: seq<string>, sep: char): string
    requires |parts| >= 1
  {
    if |parts| == 1 then parts[0] else parts[0] + [sep] + Join(parts[1..], sep)
  }

  /** Joining the pieces of a split gives the text back. */
  lemma {:induction false} JoinSplit(s: string, sep: char)
    ensures Join(Split(s, sep), sep) == s
  {
    if |s| > 0 {
      JoinSplit(s[1..], sep);
      var rest := Split(s[1..], sep);
      if s[0] != sep {
        var parts := [[s[0]] + rest[0]] + rest[1..];
        assert parts[1..] == rest[1..];
        if |rest| > 1 {
          assert Join(rest, sep) == rest[0] + [sep] + Join(rest[1..], sep);
        }
        assert s == [s[0]] + s[1..];
      } else {
        assert s == [sep] + s[1..];
        assert ([""] + rest)[1..] == rest;
      }
    }
  }

  lemma {:induction false} SplitWithoutSeparator(s: string, sep: char)
    requires sep !in s
    ensures Split(s, sep) == [s]
  {
    if |s| > 0 {
      SplitWithoutSeparator(s[1..], sep);
      assert [s[0]] + s[1..] == s;
    }
  }

  lemma {:induction false} SplitAfterFirstField(p: string, sep: char, d: string)
    requires sep !in p
    ensures Split(p + [sep] + d, sep) == [p] + Split(d, sep)
  {
    if |p| == 0 {
      assert p + [sep] + d == [sep] + d;
      assert ([sep] + d)[1..] == d;
    } else {
      assert (p + [sep] + d)[1..] == p[1..] + [sep] + d;
      SplitAfterFirstField(p[1..], sep, d);
      assert [p[0]] + p[1..] == p;
    }
  }

  /** The sort key of a per-layer row: the number itself for an all-digit
      key, otherwise the integer after the first '_'. A key without '_'
      raises IndexError; a non-number after it raises ValueError. */
  function LayerSortKey(key: string): (r: Result<int>)
    ensures IsDigits(key) ==> r == Ok(DigitsValue(key))
    ensures !IsDigits(key) ==> (r == Err(IndexError) <==> '_' !in key)
    ensures !IsDigits(key) && '_' in key ==>
              |Split(key, '_')| >= 2 && r == ParseInt(Split(key, '_')[1])
    ensures r.Err? ==> r.error in {IndexError, ValueError}
  {
    if IsDigits(key) then Ok(DigitsValue(key))
    else
      var parts := Split(key, '_');
      if |parts| < 2 then
        JoinSplit(key, '_');
        Err(IndexError)
      else
        assert '_' in key by {
          JoinSplit(key, '_');
          assert key == parts[0] + ['_'] + Join(parts[1..], '_');
          assert key[|parts[0]|] == '_';
        }
        ParseInt(parts[1])
  }

  /** Keys written as `str(i)` sort by i. */
  lemma SortKeyOfIndexKey(i: nat)
    ensures LayerSortKey(NatToString(i)) == Ok(i)
  {
    NatToStringRoundTrip(i);
  }

  /** Keys written as `"layer_" + str(i)` sort by i. */
  lemma SortKeyOfLayerName(i: nat)
    ensures LayerSortKey("layer_" + NatToString(i)) == Ok(i)
  {
    var d := NatToString(i);
    var key := "layer_" + d;
    assert key == "layer" + ['_'] + d;
    assert !IsDigits(key) by { assert !IsDigit(key[0]); }
    SplitAfterFirstField("layer", '_', d);
    SplitWithoutSeparator(d, '_');
    NatToStringRoundTrip(i);
  }
}
