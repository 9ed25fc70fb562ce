/** The edge's model manager: the table of smoothed per-layer edge times
    that the timing wrapper around single-layer prediction keeps, the
    variance detector it feeds with the raw times, the save path it
    normalises, and the size of a layer's output. */
module Models {
  import opened Wrappers
  import opened Decimal
  import opened Variance

  /** The weight of a new timing in the moving average. */
  const Alpha: real := 0.2

  /** The new smoothed time of a layer: the first timing verbatim, later
      ones blended into the previous value with weight `Alpha`. */
  function Smoothed(previous: Option<real>, elapsed: real): (r: real)
    ensures previous.None? ==> r == elapsed
    ensures previous.Some? ==> r == Alpha * elapsed + (1.0 - Alpha) * previous.value
  {
    match previous
    case None => elapsed
    case Some(p) => Alpha * elapsed + (1.0 - Alpha) * p
  }

  /** A smoothed value lies between the previous value and the new timing,
      and moves strictly towards the new timing when they differ. */
  lemma SmoothedBetween(previous: real, elapsed: real)
    ensures var r := Smoothed(Some(previous), elapsed);
            && (previous <= elapsed ==> previous <= r <= elapsed)
            && (elapsed <= previous ==> elapsed <= r <= previous)
            && (previous != elapsed ==> r != previous)
  {
  }

  /** Smoothing a constant timing leaves it unchanged. */
  lemma SmoothedFixedPoint(t: real)
    ensures Smoothed(Some(t), t) == t
  {
  }

  /** The key of a layer in the table: its index relative to the offset. */
  function LayerKey(layerId: int, layerOffset: int): string {
    IntToString(layerId - layerOffset)
  }

  /** The wrapper converts the key back with `int(...)`, which gives the
      relative index. */
  lemma LayerKeyRoundTrip(layerId: int, layerOffset: int)
    ensures ParseInt(LayerKey(layerId, layerOffset)) == Ok(layerId - layerOffset)
  {
    IntToStringRoundTrip(layerId - layerOffset);
  }

  /** Keys of different relative indices differ. */
  lemma LayerKeysDistinct(a: int, b: int, layerOffset: int)
    ensures a != b ==> LayerKey(a, layerOffset) != LayerKey(b, layerOffset)
  {
    IntToStringInjective(a - layerOffset, b - layerOffset);
  }

  /** `save_path[:-1] if save_path[-1] == "/" else save_path`. */
  function StripTrailingSlash(path: string): (r: string)
    requires |path| > 0
    ensures path[|path| - 1] == '/' ==> r + "/" == path
    ensures path[|path| - 1] != '/' ==> r == path
  {
    if path[|path| - 1] == '/' then path[..|path| - 1] else path
  }

  /** The product of a shape's dimensions. */
  function Product(dims: seq<nat>): nat {
    if |dims| == 0 then 1 else dims[0] * Product(dims[1..])
  }

  lemma {:induction false} ProductConcat(a: seq<nat>, b: seq<nat>)
    ensures Product(a + b) == Product(a) * Product(b)
  {
    if |a| > 0 {
      assert (a + b)[1..] == a[1..] + b;
      ProductConcat(a[1..], b);
      assert a[0] * (Product(a[1..]) * Product(b)) == (a[0] * Product(a[1..])) * Product(b);
    } else {
      assert a + b == b;
    }
  }

  lemma {:induction false} ProductZero(dims: seq<nat>)
    ensures Product(dims) == 0 <==> 0 in dims
  {
    if |dims| > 0 {
      ProductZero(dims[1..]);
      assert dims == [dims[0]] + dims[1..];
    }
  }

  /** `get_layer_size_in_bytes`: the element count of the output shape
      times the bytes of one element. */
  function LayerSizeInBytes(shape: seq<nat>, itemSize: nat): (size: nat)
    ensures size == 0 <==> 0 in shape || itemSize == 0
    ensures |shape| == 1 ==> size == shape[0] * itemSize
  {
    ProductZero(shape);
    Product(shape) * itemSize
  }

  /** Adding one dimension multiplies the size by it. */
  lemma LayerSizeOfExtendedShape(shape: seq<nat>, d: nat, itemSize: nat)
    ensures LayerSizeInBytes(shape + [d], itemSize) == LayerSizeInBytes(shape, itemSize) * d
  {
    ProductConcat(shape, [d]);
    assert Product([d]) == d * Product([]);
  }

  /** The dictionary of smoothed edge times. It is a separate object so that
      managers built on the same dictionary see each other's updates
      (`SharedTableSeesUpdates`). */
  class TimesTable {
    var times: map<string, real>

    constructor ()
      ensures times == map[]
    {
      times := map[];
    }

    /** Lines 33-37: stores the smoothed time under `key`; no other key
        changes. */
    method Record(key: string, elapsed: real)
      modifies this
      ensures var previous := if key in old(times) then Some(old(times)[key]) else None;
              times == old(times)[key := Smoothed(previous, elapsed)]
    {
      var previous := if key in times then Some(times[key]) else None;
      times := times[key := Smoothed(previous, elapsed)];
    }
  }

  class ModelManager {
    var savePath: string
    const inferenceTimes: TimesTable
    const varianceDetector: VarianceDetector?

    ghost predicate Valid()
      reads varianceDetector
      reads if varianceDetector != null then varianceDetector.deviceHistories.Values else {}
      reads if varianceDetector != null then varianceDetector.edgeHistories.Values else {}
    {
      varianceDetector != null ==> varianceDetector.Valid()
    }

    /** The manager keeps the table it is given, not a copy. */
    constructor (savePath: string, inferenceTimes: TimesTable, varianceDetector: VarianceDetector?)
      requires varianceDetector != null ==> varianceDetector.Valid()
      ensures Valid()
      ensures this.savePath == savePath
      ensures this.inferenceTimes == inferenceTimes
      ensures this.varianceDetector == varianceDetector
    {
      this.savePath := savePath;
      this.inferenceTimes := inferenceTimes;
      this.varianceDetector := varianceDetector;
    }

    /** `save_inference_times(save_path)`: adopts a given path, then drops
      one trailing '/'. An empty path raises IndexError. Writing the file
      is not modelled. */
    method SaveInferenceTimes(newPath: Option<string>) returns (r: Result<()>)
      modifies this`savePath
      ensures var path := if newPath.Some? then newPath.value else old(savePath);
              && (r.Err? <==> |path| == 0)
              && (r.Err? ==> r.error == IndexError && savePath == path)
              && (r.Ok? ==> savePath == StripTrailingSlash(path))
    {
      if newPath.Some? {
        savePath := newPath.value;
      }
      if |savePath| == 0 {
        return Err(IndexError);
      }
      savePath := StripTrailingSlash(savePath);
      r := Ok(());
    }

    /** The bookkeeping of the timing wrapper after one layer took `elapsed`
      seconds: only the layer's key of the table changes, to the smoothed
      time; the detector, if any, receives the raw elapsed time on the edge
      side; then the times are saved. */
    method TrackInferenceTime(layerId: int, layerOffset: int, elapsed: real) returns (r: Result<()>)
      requires Valid()
      modifies inferenceTimes, this`savePath, varianceDetector
      modifies if varianceDetector != null then varianceDetector.edgeHistories.Values else {}
      ensures Valid()
      ensures var key := LayerKey(layerId, layerOffset);
              var previous := if key in old(inferenceTimes.times) then Some(old(inferenceTimes.times)[key]) else None;
              inferenceTimes.times == old(inferenceTimes.times)[key := Smoothed(previous, elapsed)]
      ensures varianceDetector != null ==>
                Windows(varianceDetector.edgeHistories) == old(Windows(varianceDetector.edgeHistories))[
                  layerId - layerOffset :=
                    Push(WindowOf(old(Windows(varianceDetector.edgeHistories)), layerId - layerOffset),
                         varianceDetector.windowSize, elapsed)]
      ensures varianceDetector != null ==>
                Windows(varianceDetector.deviceHistories) == old(Windows(varianceDetector.deviceHistories))
      ensures varianceDetector != null ==>
                var significant := SignificantVariance(
                  Push(WindowOf(old(Windows(varianceDetector.edgeHistories)), layerId - layerOffset),
                       varianceDetector.windowSize, elapsed),
                  varianceDetector.varianceThreshold);
                && varianceDetector.edgeNeedsRetest == (old(varianceDetector.edgeNeedsRetest) || significant)
                && varianceDetector.edgeVarianceLayers
                   == if significant then old(varianceDetector.edgeVarianceLayers) + {layerId - layerOffset}
                      else old(varianceDetector.edgeVarianceLayers)
      ensures varianceDetector != null ==>
                && varianceDetector.deviceNeedsRetest == old(varianceDetector.deviceNeedsRetest)
                && varianceDetector.deviceVarianceLayers == old(varianceDetector.deviceVarianceLayers)
      ensures r.Err? <==> |old(savePath)| == 0
      ensures r.Ok? ==> savePath == StripTrailingSlash(old(savePath))
      ensures r.Err? ==> r.error == IndexError
    {
      ghost var detector := varianceDetector;
      ghost var edge := if detector != null then Windows(detector.edgeHistories) else map[];
      ghost var device := if detector != null then Windows(detector.deviceHistories) else map[];
      inferenceTimes.Record(LayerKey(layerId, layerOffset), elapsed);
      assert detector != null ==>
        Windows(detector.edgeHistories) == edge && Windows(detector.deviceHistories) == device;
      ghost var times := inferenceTimes.times;
      ReportToDetector(layerId - layerOffset, elapsed);
      assert inferenceTimes.times == times;
      r := SaveInferenceTimes(None);
    }

    /** Lines 42-43: a present detector gets the raw time on the edge side. */
    method ReportToDetector(layer: int, elapsed: real)
      requires Valid()
      modifies varianceDetector
      modifies if varianceDetector != null then varianceDetector.edgeHistories.Values else {}
      ensures Valid()
      ensures varianceDetector != null ==>
                Windows(varianceDetector.edgeHistories) == old(Windows(varianceDetector.edgeHistories))[
                  layer := Push(WindowOf(old(Windows(varianceDetector.edgeHistories)), layer),
                                varianceDetector.windowSize, elapsed)]
      ensures varianceDetector != null ==>
                Windows(varianceDetector.deviceHistories) == old(Windows(varianceDetector.deviceHistories))
      ensures varianceDetector != null ==>
                var significant := SignificantVariance(
                  Push(WindowOf(old(Windows(varianceDetector.edgeHistories)), layer),
                       varianceDetector.windowSize, elapsed),
                  varianceDetector.varianceThreshold);
                && varianceDetector.edgeNeedsRetest == (old(varianceDetector.edgeNeedsRetest) || significant)
                && varianceDetector.edgeVarianceLayers
                   == if significant then old(varianceDetector.edgeVarianceLayers) + {layer}
                      else old(varianceDetector.edgeVarianceLayers)
      ensures varianceDetector != null ==>
                && varianceDetector.deviceNeedsRetest == old(varianceDetector.deviceNeedsRetest)
                && varianceDetector.deviceVarianceLayers == old(varianceDetector.deviceVarianceLayers)
    {
      if varianceDetector != null {
        var _ := varianceDetector.AddEdgeMeasurement(layer, elapsed);
      }
    }
  }

  /** Managers built without a dictionary of their own all hold the one
      default dictionary, here `defaultTable`: a timing tracked through the
      first manager is seen through the second, whose save path stays. */
  method SharedTableSeesUpdates(defaultTable: TimesTable, savePath: string,
                                layerId: int, layerOffset: int, elapsed: real)
    returns (first: ModelManager, second: ModelManager)
    modifies defaultTable
    ensures first.inferenceTimes == defaultTable && second.inferenceTimes == defaultTable
    ensures first != second
    ensures var key := LayerKey(layerId, layerOffset);
            var previous := if key in old(defaultTable.times) then Some(old(defaultTable.times)[key]) else None;
            second.inferenceTimes.times == old(defaultTable.times)[key := Smoothed(previous, elapsed)]
    ensures second.savePath == savePath
  {
    first := new ModelManager(savePath, defaultTable, null);
    second := new ModelManager(savePath, defaultTable, null);
    var _ := first.TrackInferenceTime(layerId, layerOffset, elapsed);
  }
}
