/** The stability monitor: a bounded window of inference times per layer
    that judges its coefficient of variation against a threshold, and a
    detector that keeps one such window per layer for the device and for
    the edge, remembers which layers showed variance, and raises a
    "re-test the offloading decision" flag per side. */
module Variance {
  import opened Wrappers
  import opened SampleStats

  /** The number of samples a history needs before it judges its variance. */
  const MinSamples: nat := 3
  const DefaultWindowSize: nat := 10
  const DefaultVarianceThreshold: real := 0.15

  /** The newest `capacity` entries of `s` (all of `s` if it is shorter). */
  function Newest(s: seq<real>, capacity: nat): seq<real> {
    if |s| <= capacity then s else s[|s| - capacity..]
  }

  /** Appending `x` to a deque bounded to `capacity` entries. */
  function Push(window: seq<real>, capacity: nat, x: real): (r: seq<real>)
    requires |window| <= capacity
    ensures |r| <= capacity
    ensures |window| < capacity ==> r == window + [x]
    ensures 0 < |window| == capacity ==> r == window[1..] + [x]
    ensures capacity == 0 ==> r == []
  {
    Newest(window + [x], capacity)
  }

  /** The window after appending every sample of `xs`, in order, to an empty one. */
  function Fill(capacity: nat, xs: seq<real>): (r: seq<real>)
    ensures |r| <= capacity
  {
    if |xs| == 0 then [] else Push(Fill(capacity, xs[..|xs| - 1]), capacity, xs[|xs| - 1])
  }

  /** Trimming before an append keeps the same newest entries as trimming after it. */
  lemma NewestAppend(s: seq<real>, x: real, capacity: nat)
    ensures Newest(Newest(s, capacity) + [x], capacity) == Newest(s + [x], capacity)
  {
    if |s| > capacity && capacity > 0 {
      assert Newest(s, capacity) + [x] == (s + [x])[|s| - capacity..];
    }
  }

  /** Whatever was appended, the window holds exactly the newest `capacity`
      samples in arrival order. */
  lemma {:induction false} FillKeepsNewest(capacity: nat, xs: seq<real>)
    ensures Fill(capacity, xs) == Newest(xs, capacity)
  {
    if |xs| > 0 {
      var init := xs[..|xs| - 1];
      FillKeepsNewest(capacity, init);
      NewestAppend(init, xs[|xs| - 1], capacity);
      assert init + [xs[|xs| - 1]] == xs;
    }
  }

  /** `_has_significant_variance` on a window: at least three samples and a
      coefficient of variation above `threshold`. */
  predicate SignificantVariance(window: seq<real>, threshold: real) {
    |window| >= MinSamples && CvExceeds(Mean(window), SampleVariance(window), threshold)
  }

  /** `is_stable` on a window: at least three samples and a coefficient of
      variation at most `threshold`. */
  predicate Stable(window: seq<real>, threshold: real) {
    |window| >= MinSamples && !CvExceeds(Mean(window), SampleVariance(window), threshold)
  }

  /** With three or more samples the verdict is exactly `cv > threshold`,
      where cv is the sample standard deviation over the mean, or 0 when the
      mean is not positive; and `Stable` is its negation. */
  lemma SignificanceIsCvAboveThreshold(window: seq<real>, threshold: real, stdev: real)
    requires |window| >= MinSamples
    requires stdev >= 0.0 && stdev * stdev == SampleVariance(window)
    ensures var mean := Mean(window);
            var cv := if mean > 0.0 then stdev / mean else 0.0;
            (SignificantVariance(window, threshold) <==> cv > threshold)
            && (Stable(window, threshold) <==> cv <= threshold)
  {
    CvExceedsIsRatio(Mean(window), SampleVariance(window), stdev, threshold);
  }

  /** A window of identical samples never shows variance for a non-negative
      threshold, and is stable once it holds three samples. */
  lemma ConstantWindowIsStable(window: seq<real>, c: real, threshold: real)
    requires forall i :: 0 <= i < |window| ==> window[i] == c
    requires threshold >= 0.0
    ensures !SignificantVariance(window, threshold)
    ensures |window| >= MinSamples ==> Stable(window, threshold)
  {
    if |window| >= MinSamples {
      ConstantSamples(window, c);
      MulNonNegative(threshold, threshold);
      MulNonNegative(threshold * threshold, c * c) by { SquareNonNegative(c); }
    }
  }

  /** What `get_stats` reports. The standard deviation and the coefficient
      of variation are reported squared (`variance`, `cvSquared`). */
  datatype HistoryStats = HistoryStats(
    layerId: int,
    measurements: nat,
    mean: real,
    variance: real,
    cvSquared: real,
    isStable: bool,
    minimum: Option<real>,
    maximum: Option<real>)

  class InferenceTimeHistory {
    const layerId: int
    const windowSize: nat
    var measurements: seq<real>
    var varianceThreshold: real

    ghost predicate Valid()
      reads this
    {
      |measurements| <= windowSize
    }

    constructor (layerId: int, windowSize: nat)
      ensures Valid()
      ensures this.layerId == layerId && this.windowSize == windowSize
      ensures measurements == [] && varianceThreshold == DefaultVarianceThreshold
    {
      this.layerId := layerId;
      this.windowSize := windowSize;
      measurements := [];
      varianceThreshold := DefaultVarianceThreshold;
    }

    /** Appends `time` (dropping the oldest sample of a full window) and
        reports whether the window now shows significant variance. */
    method AddMeasurement(time: real) returns (significant: bool)
      requires Valid()
      modifies this`measurements
      ensures Valid()
      ensures measurements == Push(old(measurements), windowSize, time)
      ensures significant == SignificantVariance(measurements, varianceThreshold)
      ensures |measurements| < MinSamples ==> !significant
    {
      measurements := Push(measurements, windowSize, time);
      if |measurements| < MinSamples {
        return false;
      }
      significant := CvExceeds(Mean(measurements), SampleVariance(measurements), varianceThreshold);
    }

    /** `is_stable`: false below three samples, and otherwise the negation of
        the variance verdict `AddMeasurement` reports. */
    function IsStable(): (stable: bool)
      reads this
      ensures |measurements| < MinSamples ==> !stable
      ensures |measurements| >= MinSamples ==>
                (stable <==> !SignificantVariance(measurements, varianceThreshold))
    {
      if |measurements| < MinSamples then false
      else !CvExceeds(Mean(measurements), SampleVariance(measurements), varianceThreshold)
    }

    /** `get_stats`: all zero and not stable for an empty window; otherwise
        the sample count, mean, squared spread, extremes and the `cv <=
        threshold` verdict, where a single sample has spread 0. */
    function GetStats(): (st: HistoryStats)
      reads this
      ensures st.layerId == layerId && st.measurements == |measurements|
      ensures st.variance >= 0.0 && st.cvSquared >= 0.0
      ensures |measurements| == 0 ==>
                st == HistoryStats(layerId, 0, 0.0, 0.0, 0.0, false, None, None)
      ensures |measurements| > 0 ==>
                st.minimum.Some? && st.maximum.Some?
                && st.minimum.value in measurements && st.maximum.value in measurements
                && st.minimum.value <= st.mean <= st.maximum.value
      ensures |measurements| == 1 ==>
                st.mean == measurements[0] && st.variance == 0.0 && st.cvSquared == 0.0
                && (st.isStable <==> varianceThreshold >= 0.0)
      ensures |measurements| >= MinSamples ==> st.isStable == IsStable()
      ensures |measurements| > 0 ==>
                && st.mean == Mean(measurements)
                && st.variance == (if |measurements| > 1 then SampleVariance(measurements) else 0.0)
                && st.cvSquared == CvSquared(st.mean, st.variance)
                && st.minimum == Some(Minimum(measurements))
                && st.maximum == Some(Maximum(measurements))
                && st.isStable == !CvExceeds(st.mean, st.variance, varianceThreshold)
    {
      if |measurements| == 0 then HistoryStats(layerId, 0, 0.0, 0.0, 0.0, false, None, None)
      else
        var n := |measurements|;
        var mean := Mean(measurements);
        var variance := if n > 1 then SampleVariance(measurements) else 0.0;
        MeanBetweenExtremes(measurements);
        SingleSampleStats(measurements, varianceThreshold);
        CvSquaredNonNegative(mean, variance);
        HistoryStats(layerId, n, mean, variance, CvSquared(mean, variance),
                     !CvExceeds(mean, variance, varianceThreshold),
                     Some(Minimum(measurements)), Some(Maximum(measurements)))
    }
  }

  lemma SingleSampleStats(s: seq<real>, threshold: real)
    requires |s| > 0
    ensures |s| == 1 ==> Mean(s) == s[0]
    ensures |s| == 1 ==> (!CvExceeds(Mean(s), 0.0, threshold) <==> threshold >= 0.0)
  {
    assert Sum(s) == s[0] + Sum(s[1..]);
    if |s| == 1 && s[0] > 0.0 && threshold >= 0.0 {
      MulNonNegative(threshold, threshold);
      MulNonNegative(threshold * threshold, s[0] * s[0]) by { SquareNonNegative(s[0]); }
    }
  }

  lemma CvSquaredNonNegative(mean: real, variance: real)
    requires variance >= 0.0
    ensures CvSquared(mean, variance) >= 0.0
  {
    if mean > 0.0 {
      QuotientNonNegative(variance, mean);
      QuotientNonNegative(variance / mean, mean);
    }
  }

  /** The window of layer `l` in `windows`, empty for a layer never seen. */
  function WindowOf(windows: map<int, seq<real>>, l: int): seq<real> {
    if l in windows then windows[l] else []
  }

  /** The successor of every layer in `layers`. */
  function Successors(layers: set<int>): set<int> {
    set l | l in layers :: l + 1
  }

  /** The layers to re-test for a set of layers that showed variance: each
      such layer and the layer after it, with no upper bound. */
  function WithSuccessors(layers: set<int>): set<int> {
    layers + Successors(layers)
  }

  lemma WithSuccessorsMembers(layers: set<int>, x: int)
    ensures x in WithSuccessors(layers) <==> x in layers || x - 1 in layers
  {
    if x - 1 in layers {
      assert x == (x - 1) + 1;
    }
  }

  /** Builds the cascaded set from a copy of `layers`, adding one successor
      per layer, as `get_layers_needing_retest` does. */
  method Cascade(layers: set<int>) returns (r: set<int>)
    ensures r == WithSuccessors(layers)
  {
    r := layers;
    var todo := layers;
    ghost var done: set<int> := {};
    while todo != {}
      invariant todo <= layers && done == layers - todo
      invariant r == layers + Successors(done)
      decreases |todo|
    {
      NonEmptyHasElement(todo);
      var l :| l in todo;
      assert Successors(done + {l}) == Successors(done) + {l + 1};
      r := r + {l + 1};
      todo := todo - {l};
      done := done + {l};
    }
    assert done == layers;
  }

  predicate Increasing(s: seq<int>) {
    forall i, j :: 0 <= i < j < |s| ==> s[i] < s[j]
  }

  lemma NonEmptyHasElement(s: set<int>)
    requires s != {}
    ensures exists x :: x in s
  {
    if forall x :: x !in s {
      assert false;
    }
  }

  lemma {:induction false} HasMinimum(s: set<int>) returns (m: int)
    requires s != {}
    ensures m in s && forall x :: x in s ==> m <= x
  {
    NonEmptyHasElement(s);
    var x :| x in s;
    if s == {x} {
      m := x;
    } else {
      var rest := HasMinimum(s - {x});
      m := if x < rest then x else rest;
      forall y | y in s
        ensures m <= y
      {
        if y != x {
          assert y in s - {x};
        }
      }
    }
  }

  /** `sorted(s)` on a set of layer numbers: its elements in increasing order. */
  method SortedList(s: set<int>) returns (r: seq<int>)
    ensures Increasing(r)
    ensures forall x :: x in r <==> x in s
    ensures |r| == |s|
  {
    r := [];
    var rest := s;
    while rest != {}
      invariant rest <= s
      invariant Increasing(r)
      invariant forall x :: x in r <==> x in s && x !in rest
      invariant forall i, x :: 0 <= i < |r| && x in rest ==> r[i] < x
      invariant |r| + |rest| == |s|
      decreases |rest|
    {
      ghost var least := HasMinimum(rest);
      var m :| m in rest && forall x :: x in rest ==> m <= x;
      r := r + [m];
      rest := rest - {m};
    }
  }

  /** Every history of `histories` belongs to its key, has the given window
      size and threshold, and respects its bound. */
  ghost predicate Tracks(histories: map<int, InferenceTimeHistory>, windowSize: nat, threshold: real)
    reads histories.Values
  {
    forall l :: l in histories ==>
      histories[l].layerId == l && histories[l].windowSize == windowSize
      && histories[l].varianceThreshold == threshold && histories[l].Valid()
  }

  /** Two maps of well-formed histories that share no history object. */
  ghost predicate Separate(a: map<int, InferenceTimeHistory>, b: map<int, InferenceTimeHistory>,
                           windowSize: nat, threshold: real)
    reads a.Values, b.Values
  {
    Tracks(a, windowSize, threshold) && Tracks(b, windowSize, threshold) && a.Values !! b.Values
  }

  /** The windows of a map of histories, by layer. */
  ghost function Windows(histories: map<int, InferenceTimeHistory>): map<int, seq<real>>
    reads histories.Values
  {
    map l | l in histories :: histories[l].measurements
  }

  /** The history of `layerId`, created with an empty window and the
      detector's threshold when the layer is new. */
  method LookupOrCreate(histories: map<int, InferenceTimeHistory>, layerId: int, windowSize: nat, threshold: real)
    returns (updated: map<int, InferenceTimeHistory>, h: InferenceTimeHistory)
    requires Tracks(histories, windowSize, threshold)
    ensures Tracks(updated, windowSize, threshold)
    ensures updated == histories[layerId := h]
    ensures layerId in histories ==> h == histories[layerId]
    ensures layerId !in histories ==> fresh(h) && h.measurements == []
    ensures Windows(updated) == Windows(histories)[layerId := WindowOf(Windows(histories), layerId)]
  {
    if layerId in histories {
      h := histories[layerId];
      updated := histories;
    } else {
      h := new InferenceTimeHistory(layerId, windowSize);
      h.varianceThreshold := threshold;
      updated := histories[layerId := h];
    }
  }

  /** Appends `time` to the history of `layerId` in `histories`; the other
      windows of the map, and those of the other side (`others`), stay as
      they are. */
  method Measure(histories: map<int, InferenceTimeHistory>, ghost others: map<int, InferenceTimeHistory>,
                 layerId: int, time: real, ghost windowSize: nat, ghost threshold: real)
    returns (significant: bool)
    requires Tracks(histories, windowSize, threshold) && layerId in histories
    requires histories.Values !! others.Values
    modifies histories[layerId]
    ensures Tracks(histories, windowSize, threshold)
    ensures Windows(histories) == old(Windows(histories))[layerId :=
              Push(old(histories[layerId].measurements), windowSize, time)]
    ensures significant == SignificantVariance(Windows(histories)[layerId], threshold)
    ensures Windows(others) == old(Windows(others))
  {
    ghost var windows := Windows(histories);
    var h := histories[layerId];
    assert forall l :: l in histories && l != layerId ==> histories[l] != h;
    significant := h.AddMeasurement(time);
    assert Windows(histories) == windows[layerId := h.measurements];
  }

  /** Lines 151-157 and 183-189 of one side: finds or creates the history
      of `layerId` in `histories` and appends `time` to it. The histories of
      the other side (`others`) are not touched. */
  method Observe(histories: map<int, InferenceTimeHistory>, ghost others: map<int, InferenceTimeHistory>,
                 layerId: int, time: real, windowSize: nat, threshold: real)
    returns (updated: map<int, InferenceTimeHistory>, significant: bool)
    requires Separate(histories, others, windowSize, threshold)
    modifies histories.Values
    ensures Separate(updated, others, windowSize, threshold)
    ensures Separate(others, updated, windowSize, threshold)
    ensures updated.Keys == histories.Keys + {layerId}
    ensures Windows(updated) == old(Windows(histories))[layerId :=
              Push(WindowOf(old(Windows(histories)), layerId), windowSize, time)]
    ensures significant == SignificantVariance(Windows(updated)[layerId], threshold)
    ensures Windows(others) == old(Windows(others))
  {
    ghost var before, untouched := Windows(histories), Windows(others);
    var h: InferenceTimeHistory;
    updated, h := LookupOrCreate(histories, layerId, windowSize, threshold);
    assert h !in others.Values;
    assert h.measurements == WindowOf(before, layerId);
    assert Windows(others) == untouched;
    ghost var created := Windows(updated);
    assert updated.Values !! others.Values;
    significant := Measure(updated, others, layerId, time, windowSize, threshold);
    assert Windows(updated) == created[layerId := Push(WindowOf(before, layerId), windowSize, time)];
  }

  /** The stability verdicts `get_layer_stability` reports for one layer. */
  datatype LayerStability = LayerStability(deviceStable: bool, edgeStable: bool)

  class VarianceDetector {
    const windowSize: nat
    const varianceThreshold: real
    var deviceHistories: map<int, InferenceTimeHistory>
    var edgeHistories: map<int, InferenceTimeHistory>
    var deviceNeedsRetest: bool
    var edgeNeedsRetest: bool
    var deviceVarianceLayers: set<int>
    var edgeVarianceLayers: set<int>

    /** Every history of `histories` belongs to its key, has the detector's
        window size and threshold, and respects its bound. */
    ghost predicate Valid()
      reads this`deviceHistories, this`edgeHistories, deviceHistories.Values, edgeHistories.Values
    {
      Separate(deviceHistories, edgeHistories, windowSize, varianceThreshold)
    }

    constructor (windowSize: nat, varianceThreshold: real)
      ensures Valid()
      ensures this.windowSize == windowSize && this.varianceThreshold == varianceThreshold
      ensures deviceHistories == map[] && edgeHistories == map[]
      ensures !deviceNeedsRetest && !edgeNeedsRetest
      ensures deviceVarianceLayers == {} && edgeVarianceLayers == {}
    {
      this.windowSize := windowSize;
      this.varianceThreshold := varianceThreshold;
      deviceHistories := map[];
      edgeHistories := map[];
      deviceNeedsRetest := false;
      edgeNeedsRetest := false;
      deviceVarianceLayers := {};
      edgeVarianceLayers := {};
    }

    /** Records a device time for `layerId`, creating its history on first
        use. Only that layer's device window changes; the flag is raised and
        the layer is added to the device variance set exactly when the
        window shows variance; the edge side is untouched. */
    method AddDeviceMeasurement(layerId: int, time: real) returns (needsRetest: bool)
      requires Valid()
      modifies this`deviceHistories, this`deviceNeedsRetest, this`deviceVarianceLayers
      modifies deviceHistories.Values
      ensures Valid()
      ensures deviceHistories.Keys == old(deviceHistories.Keys) + {layerId}
      ensures Windows(deviceHistories) == old(Windows(deviceHistories))[layerId :=
                Push(WindowOf(old(Windows(deviceHistories)), layerId), windowSize, time)]
      ensures needsRetest == SignificantVariance(Windows(deviceHistories)[layerId], varianceThreshold)
      ensures deviceNeedsRetest == (old(deviceNeedsRetest) || needsRetest)
      ensures deviceVarianceLayers
              == if needsRetest then old(deviceVarianceLayers) + {layerId} else old(deviceVarianceLayers)
      ensures edgeHistories == old(edgeHistories) && Windows(edgeHistories) == old(Windows(edgeHistories))
      ensures edgeNeedsRetest == old(edgeNeedsRetest) && edgeVarianceLayers == old(edgeVarianceLayers)
    {
      deviceHistories, needsRetest :=
        Observe(deviceHistories, edgeHistories, layerId, time, windowSize, varianceThreshold);
      MarkDevice(needsRetest, layerId);
    }

    /** Lines 159-162: on a significant sample, raises the device flag and
        remembers the layer; nothing is ever removed from the set. */
    method MarkDevice(significant: bool, layerId: int)
      modifies this`deviceNeedsRetest, this`deviceVarianceLayers
      ensures deviceNeedsRetest == (old(deviceNeedsRetest) || significant)
      ensures deviceVarianceLayers
              == if significant then old(deviceVarianceLayers) + {layerId} else old(deviceVarianceLayers)
    {
      if significant {
        deviceNeedsRetest := true;
        deviceVarianceLayers := deviceVarianceLayers + {layerId};
      }
    }

    /** Records an edge time for `layerId`: the mirror image of
        `AddDeviceMeasurement`, touching only the edge side. */
    method AddEdgeMeasurement(layerId: int, time: real) returns (needsRetest: bool)
      requires Valid()
      modifies this`edgeHistories, this`edgeNeedsRetest, this`edgeVarianceLayers
      modifies edgeHistories.Values
      ensures Valid()
      ensures edgeHistories.Keys == old(edgeHistories.Keys) + {layerId}
      ensures Windows(edgeHistories) == old(Windows(edgeHistories))[layerId :=
                Push(WindowOf(old(Windows(edgeHistories)), layerId), windowSize, time)]
      ensures needsRetest == SignificantVariance(Windows(edgeHistories)[layerId], varianceThreshold)
      ensures edgeNeedsRetest == (old(edgeNeedsRetest) || needsRetest)
      ensures edgeVarianceLayers
              == if needsRetest then old(edgeVarianceLayers) + {layerId} else old(edgeVarianceLayers)
      ensures deviceHistories == old(deviceHistories) && Windows(deviceHistories) == old(Windows(deviceHistories))
      ensures deviceNeedsRetest == old(deviceNeedsRetest) && deviceVarianceLayers == old(deviceVarianceLayers)
    {
      edgeHistories, needsRetest :=
        Observe(edgeHistories, deviceHistories, layerId, time, windowSize, varianceThreshold);
      MarkEdge(needsRetest, layerId);
    }

    /** Lines 191-194: on a significant sample, raises the edge flag and
        remembers the layer; nothing is ever removed from the set. */
    method MarkEdge(significant: bool, layerId: int)
      modifies this`edgeNeedsRetest, this`edgeVarianceLayers
      ensures edgeNeedsRetest == (old(edgeNeedsRetest) || significant)
      ensures edgeVarianceLayers
              == if significant then old(edgeVarianceLayers) + {layerId} else old(edgeVarianceLayers)
    {
      if significant {
        edgeNeedsRetest := true;
        edgeVarianceLayers := edgeVarianceLayers + {layerId};
      }
    }

    /** `get_layers_needing_retest`: per side, the layers that showed
        variance together with their successors, in increasing order. */
    method GetLayersNeedingRetest() returns (device: seq<int>, edge: seq<int>)
      ensures Increasing(device) && Increasing(edge)
      ensures forall x :: x in device <==> x in deviceVarianceLayers || x - 1 in deviceVarianceLayers
      ensures forall x :: x in edge <==> x in edgeVarianceLayers || x - 1 in edgeVarianceLayers
    {
      var d := Cascade(deviceVarianceLayers);
      var e := Cascade(edgeVarianceLayers);
      device := SortedList(d);
      edge := SortedList(e);
      forall x ensures x in device <==> x in deviceVarianceLayers || x - 1 in deviceVarianceLayers {
        WithSuccessorsMembers(deviceVarianceLayers, x);
      }
      forall x ensures x in edge <==> x in edgeVarianceLayers || x - 1 in edgeVarianceLayers {
        WithSuccessorsMembers(edgeVarianceLayers, x);
      }
    }

    /** `should_retest_offloading`: reports whether either side raised its
        flag since the last query and lowers both flags; the variance sets
        and the histories are left as they are. */
    method ShouldRetestOffloading() returns (needsRetest: bool)
      requires Valid()
      modifies this`deviceNeedsRetest, this`edgeNeedsRetest
      ensures Valid()
      ensures needsRetest == (old(deviceNeedsRetest) || old(edgeNeedsRetest))
      ensures !deviceNeedsRetest && !edgeNeedsRetest
    {
      needsRetest := deviceNeedsRetest || edgeNeedsRetest;
      if needsRetest {
        deviceNeedsRetest := false;
        edgeNeedsRetest := false;
      }
    }

    /** `get_layer_stability`: a side is stable for `layerId` only when it
        has a history for that layer whose window is stable; a layer never
        seen on a side is not stable there. */
    function GetLayerStability(layerId: int): (r: LayerStability)
      reads this, deviceHistories.Values, edgeHistories.Values
      requires Valid()
      ensures r.deviceStable <==> Stable(WindowOf(Windows(deviceHistories), layerId), varianceThreshold)
      ensures r.edgeStable <==> Stable(WindowOf(Windows(edgeHistories), layerId), varianceThreshold)
    {
      LayerStability(
        layerId in deviceHistories && deviceHistories[layerId].IsStable(),
        layerId in edgeHistories && edgeHistories[layerId].IsStable())
    }
  }
}
