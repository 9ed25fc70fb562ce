/** The split-point search of the simulated scenarios: for N layers, the
    device runs the first k layers, the output of layer k-1 crosses the
    network, and the edge runs the rest; `OffloadingAlgo` picks the k in
    [0, N] of least total time. Also the network-time estimate per layer
    and the server speed-up schedule of the slow-down scenario. */
module Scenario {
  import opened Wrappers
  import opened SampleStats

  // ----- running sums as NumPy computes them -----

  /** `np.cumsum(s)`: entry i is s[0] + ... + s[i]. */
  function CumSum(s: seq<real>): (c: seq<real>)
    ensures |c| == |s|
  {
    if |s| == 0 then []
    else
      var c := CumSum(s[..|s| - 1]);
      c + [(if |c| == 0 then 0.0 else c[|c| - 1]) + s[|s| - 1]]
  }

  /** `s[::-1]`. */
  function Reverse(s: seq<real>): (r: seq<real>)
    ensures |r| == |s|
  {
    if |s| == 0 then [] else Reverse(s[1..]) + [s[0]]
  }

  lemma PrefixSumStep(s: seq<real>, k: nat)
    requires k < |s|
    ensures Sum(s[..k + 1]) == Sum(s[..k]) + s[k]
  {
    assert s[..k + 1] == s[..k] + [s[k]];
    SumConcat(s[..k], [s[k]]);
    assert Sum([s[k]]) == s[k] + Sum([]);
  }

  lemma SuffixSumStep(s: seq<real>, k: nat)
    requires k < |s|
    ensures Sum(s[k..]) == s[k] + Sum(s[k + 1..])
  {
    assert s[k..][1..] == s[k + 1..];
  }

  /** Entry i of the cumulative sum is the sum of the first i + 1 entries. */
  lemma {:induction false} CumSumAt(s: seq<real>, i: nat)
    requires i < |s|
    ensures CumSum(s)[i] == Sum(s[..i + 1])
  {
    var init := s[..|s| - 1];
    assert init[..i] == s[..i];
    if i < |s| - 1 {
      CumSumAt(init, i);
      assert init[..i + 1] == s[..i + 1];
    } else if i > 0 {
      CumSumAt(init, i - 1);
      PrefixSumStep(s, i);
    } else {
      assert s[..1] == [s[0]];
      assert Sum([s[0]]) == s[0] + Sum([]);
    }
  }

  lemma {:induction false} ReverseAt(s: seq<real>, i: nat)
    requires i < |s|
    ensures Reverse(s)[i] == s[|s| - 1 - i]
  {
    if i < |s| - 1 {
      ReverseAt(s[1..], i);
    }
  }

  lemma {:induction false} SumReverse(s: seq<real>)
    ensures Sum(Reverse(s)) == Sum(s)
  {
    if |s| > 0 {
      SumReverse(s[1..]);
      SumConcat(Reverse(s[1..]), [s[0]]);
      assert Sum([s[0]]) == s[0] + Sum([]);
    }
  }

  /** The first m entries of the reversed list sum to the last m entries. */
  lemma {:induction false} SumReversePrefix(s: seq<real>, m: nat)
    requires m <= |s|
    ensures Sum(Reverse(s)[..m]) == Sum(s[|s| - m..])
  {
    if m == |s| {
      assert Reverse(s)[..m] == Reverse(s);
      assert s[|s| - m..] == s;
      SumReverse(s);
    } else {
      assert Reverse(s)[..m] == Reverse(s[1..])[..m];
      assert s[|s| - m..] == s[1..][|s| - 1 - m..];
      SumReversePrefix(s[1..], m);
    }
  }

  // ----- the cost tables of `offloading_algo` -----

  /** `dev_prefix`: entry k is the time of the first k device layers. */
  function DevicePrefix(dev: seq<real>): (p: seq<real>)
    ensures |p| == |dev| + 1
  {
    [0.0] + CumSum(dev)
  }

  /** `edge_suffix`: entry k is the time of the edge layers k..N-1. */
  function EdgeSuffix(edge: seq<real>): (s: seq<real>)
    ensures |s| == |edge| + 1
  {
    Reverse(CumSum(Reverse(edge))) + [0.0]
  }

  lemma DevicePrefixAt(dev: seq<real>, k: nat)
    requires k <= |dev|
    ensures DevicePrefix(dev)[k] == Sum(dev[..k])
  {
    if k > 0 {
      CumSumAt(dev, k - 1);
    }
  }

  lemma EdgeSuffixAt(edge: seq<real>, k: nat)
    requires k <= |edge|
    ensures EdgeSuffix(edge)[k] == Sum(edge[k..])
  {
    var n := |edge|;
    if k < n {
      var r := Reverse(edge);
      ReverseAt(CumSum(r), k);
      CumSumAt(r, n - 1 - k);
      SumReversePrefix(edge, n - k);
    }
  }

  /** The network time for each k in [0, N]: a scalar, or a list of
      length 1, N or N + 1. */
  datatype NetworkTimes = Scalar(time: real) | Vector(times: seq<real>)

  /** The normalisation of `network_times` to one entry per split point. */
  function NormalizeNetwork(net: NetworkTimes, n: nat): (r: Result<seq<real>>)
    ensures r.Ok? ==> |r.value| == n + 1
    ensures net.Scalar? ==> r.Ok? && forall k :: 0 <= k <= n ==> r.value[k] == net.time
    ensures net.Vector? && |net.times| == n + 1 ==> r == Ok(net.times)
    ensures net.Vector? && |net.times| == n > 0 ==> r == Ok(net.times + [net.times[n - 1]])
    ensures net.Vector? && |net.times| == 1 && n >= 2 ==>
              r.Ok? && forall k :: 0 <= k <= n ==> r.value[k] == net.times[0]
    ensures net.Vector? && n == 0 && |net.times| == 0 ==> r == Err(IndexError)
    ensures net.Vector? && |net.times| != n + 1 && |net.times| != n && |net.times| != 1 ==>
              r == Err(ValueError)
  {
    match net
    case Scalar(t) => Ok(seq(n + 1, _ => t))
    case Vector(ts) =>
      if |ts| == n + 1 then Ok(ts)
      else if |ts| == n then (if n == 0 then Err(IndexError) else Ok(ts + [ts[n - 1]]))
      else if |ts| == 1 then Ok(seq(n + 1, _ => ts[0]))
      else Err(ValueError)
  }

  /** `np.argmin`: the first index of a least entry. */
  function ArgMin(s: seq<real>): (k: nat)
    requires |s| > 0
    ensures k < |s|
    ensures forall j :: 0 <= j < |s| ==> s[k] <= s[j]
    ensures forall j :: 0 <= j < k ==> s[k] < s[j]
  {
    if |s| == 1 then 0
    else
      var k := ArgMin(s[..|s| - 1]);
      assert forall j :: 0 <= j < |s| - 1 ==> s[..|s| - 1][j] == s[j];
      if s[|s| - 1] < s[k] then |s| - 1 else k
  }

  /** The time of each summand at the chosen split point. */
  datatype Components = Components(devPrefix: real, edgeSuffix: real, networkTime: real)

  datatype Split = Split(bestK: nat, components: Components)

  /** The total time of every split point k in [0, N]. */
  function Totals(dev: seq<real>, edge: seq<real>, net: seq<real>): (t: seq<real>)
    requires |edge| == |dev| && |net| == |dev| + 1
    ensures |t| == |dev| + 1
  {
    var p, s := DevicePrefix(dev), EdgeSuffix(edge);
    seq(|dev| + 1, k requires 0 <= k <= |dev| => p[k] + net[k] + s[k])
  }

  /** `offloading_algo(edge_times, device_times, network_times)`. Lists of
      different lengths are refused; otherwise the only errors are those of
      the network-time normalisation. */
  function OffloadingAlgo(edge: seq<real>, dev: seq<real>, net: NetworkTimes): (r: Result<Split>)
    ensures |edge| != |dev| ==> r == Err(ValueError)
    ensures |edge| == |dev| ==> (r.Err? <==> NormalizeNetwork(net, |dev|).Err?)
    ensures |edge| == |dev| && r.Err? ==> r.error == NormalizeNetwork(net, |dev|).error
  {
    if |edge| != |dev| then Err(ValueError)
    else
      var n := NormalizeNetwork(net, |dev|);
      if n.Err? then Err(n.error)
      else
        var totals := Totals(dev, edge, n.value);
        var k := ArgMin(totals);
        Ok(Split(k, Components(DevicePrefix(dev)[k], EdgeSuffix(edge)[k], n.value[k])))
  }

  /** The cost of running the first k layers on the device, sending the
      result, and running the rest on the edge. */
  function Cost(dev: seq<real>, edge: seq<real>, net: seq<real>, k: nat): real
    requires |edge| == |dev| && |net| == |dev| + 1 && k <= |dev|
  {
    Sum(dev[..k]) + net[k] + Sum(edge[k..])
  }

  lemma TotalsAreCosts(dev: seq<real>, edge: seq<real>, net: seq<real>, k: nat)
    requires |edge| == |dev| && |net| == |dev| + 1 && k <= |dev|
    ensures Totals(dev, edge, net)[k] == Cost(dev, edge, net, k)
  {
    DevicePrefixAt(dev, k);
    EdgeSuffixAt(edge, k);
  }

  /** The chosen split point is in [0, N], no split point is cheaper, every
      earlier one is strictly dearer, and the components are the three
      summands at that point, so they add up to its total. */
  lemma OffloadingAlgoOptimal(edge: seq<real>, dev: seq<real>, net: NetworkTimes)
    requires OffloadingAlgo(edge, dev, net).Ok?
    ensures var r := OffloadingAlgo(edge, dev, net).value;
            var times := NormalizeNetwork(net, |dev|).value;
            && |edge| == |dev| && r.bestK <= |dev|
            && r.components.devPrefix == Sum(dev[..r.bestK])
            && r.components.edgeSuffix == Sum(edge[r.bestK..])
            && r.components.networkTime == times[r.bestK]
            && r.components.devPrefix + r.components.networkTime + r.components.edgeSuffix
               == Cost(dev, edge, times, r.bestK)
            && (forall k :: 0 <= k <= |dev| ==> Cost(dev, edge, times, r.bestK) <= Cost(dev, edge, times, k))
            && (forall k :: 0 <= k < r.bestK ==> Cost(dev, edge, times, r.bestK) < Cost(dev, edge, times, k))
  {
    var times := NormalizeNetwork(net, |dev|).value;
    var r := OffloadingAlgo(edge, dev, net).value;
    var totals := Totals(dev, edge, times);
    assert r.bestK == ArgMin(totals);
    DevicePrefixAt(dev, r.bestK);
    EdgeSuffixAt(edge, r.bestK);
    forall k | 0 <= k <= |dev|
      ensures totals[k] == Cost(dev, edge, times, k)
    {
      TotalsAreCosts(dev, edge, times, k);
    }
  }

  // ----- network times and the speed-up schedule -----

  /** The time to send one layer output of `size` elements at `speed` and
      `stability`: four bytes per element, in KiB, over the effective speed. */
  function NetworkTime(size: real, speed: real, stability: real): real
    requires speed * stability != 0.0
  {
    (size * 4.0) / 1024.0 / (speed * stability)
  }

  /** `compute_network_times`: one time per layer size. A zero effective
      speed makes the first division fail, so only the empty list passes. */
  method ComputeNetworkTimes(sizes: seq<real>, speed: real, stability: real)
    returns (r: Result<seq<real>>)
    ensures r.Ok? <==> |sizes| == 0 || speed * stability != 0.0
    ensures r.Err? ==> r.error == ZeroDivisionError
    ensures r.Ok? ==> |r.value| == |sizes|
    ensures r.Ok? ==> forall i :: 0 <= i < |sizes| ==>
              r.value[i] * (speed * stability) == sizes[i] * 4.0 / 1024.0
  {
    var times: seq<real> := [];
    var i := 0;
    while i < |sizes|
      invariant 0 <= i <= |sizes|
      invariant i > 0 ==> speed * stability != 0.0
      invariant |times| == i
      invariant forall j :: 0 <= j < i ==> times[j] == NetworkTime(sizes[j], speed, stability)
    {
      if speed * stability == 0.0 {
        return Err(ZeroDivisionError);
      }
      times := times + [NetworkTime(sizes[i], speed, stability)];
      i := i + 1;
    }
    forall j | 0 <= j < |sizes|
      ensures times[j] * (speed * stability) == sizes[j] * 4.0 / 1024.0
    {
      NetworkTimeInverse(sizes[j], speed * stability);
    }
    r := Ok(times);
  }

  lemma NetworkTimeInverse(size: real, effective: real)
    requires effective != 0.0
    ensures (size * 4.0) / 1024.0 / effective * effective == size * 4.0 / 1024.0
  {
  }

  /** The if-chain choosing the server speed-up at iteration i. Its fifth
      test starts at 26 but is only reached from 36 on, so the schedule is
      the one below. */
  function ServerSpeedup(i: int): (speedup: int)
    ensures i <= 10 ==> speedup == 100
    ensures 11 <= i <= 25 ==> speedup == 10
    ensures 26 <= i <= 30 ==> speedup == 100
    ensures 31 <= i <= 35 ==> speedup == 10
    ensures 36 <= i <= 60 ==> speedup == 1
    ensures 61 <= i <= 75 ==> speedup == 10
    ensures 76 <= i <= 90 ==> speedup == 2
    ensures i > 90 ==> speedup == 100
  {
    if i <= 10 then 100
    else if i > 10 && i <= 25 then 10
    else if i > 25 && i <= 30 then 100
    else if i > 30 && i <= 35 then 10
    else if i > 25 && i <= 60 then 1
    else if i > 60 && i <= 75 then 10
    else if i > 75 && i <= 90 then 2
    else 100
  }
}
