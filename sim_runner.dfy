/** The multi-client simulation runner's bookkeeping: the client id each
    simulated client gets, and the per-inference rows it records from the
    device and edge time files. Processes, files, the clock and the CSV
    text are not modelled: the rows written to the current scenario's file
    are a sequence. */
module SimRunner {
  import opened Wrappers
  import opened SampleStats
  import opened Decimal

  // ----- update_client_config -----

  /** The client id written into the configuration of client `index`:
      none for the first client, which generates its own. */
  function ClientId(index: nat): (id: Option<string>)
    ensures index == 0 <==> id.None?
  {
    if index == 0 then None else Some("sim_client_" + NatToString(index))
  }

  /** Different clients get different ids. */
  lemma ClientIdsDistinct(i: nat, j: nat)
    ensures i != j ==> ClientId(i) != ClientId(j)
  {
    if i != j && i > 0 && j > 0 && ClientId(i) == ClientId(j) {
      assert NatToString(i) == ClientId(i).value[11..];
      assert NatToString(j) == ClientId(j).value[11..];
      NatToStringInjective(i, j);
    }
  }

  // ----- _record_inference -----

  /** A value of the loaded JSON, reduced to what the runner asks of it. */
  datatype Json = Number(x: real) | Boolean(b: bool) | NonNumber

  /** `isinstance(v, (int, float))`; a JSON boolean is a Python `bool`,
      which is an `int`. */
  predicate IsNumber(v: Json) {
    v.Number? || v.Boolean?
  }

  function NumberValue(v: Json): real
    requires IsNumber(v)
  {
    match v
    case Number(x) => x
    case Boolean(b) => if b then 1.0 else 0.0
  }

  const LayerPrefix: string := "layer_"

  /** `k.startswith('layer_')`. */
  predicate IsLayerKey(k: string) {
    |k| >= |LayerPrefix| && k[..|LayerPrefix|] == LayerPrefix
  }

  /** The entries the comprehension keeps. */
  predicate Counted(entry: (string, Json)) {
    IsLayerKey(entry.0) && IsNumber(entry.1)
  }

  /** `[v for k, v in times.items() if k.startswith('layer_') and
      isinstance(v, (int, float))]`, over the entries in dictionary order. */
  function LayerValues(times: seq<(string, Json)>): seq<real> {
    if |times| == 0 then []
    else
      var last := times[|times| - 1];
      LayerValues(times[..|times| - 1]) + if Counted(last) then [NumberValue(last.1)] else []
  }

  /** Filtering two runs of entries filters each run. */
  lemma {:induction false} LayerValuesAppend(a: seq<(string, Json)>, b: seq<(string, Json)>)
    ensures LayerValues(a + b) == LayerValues(a) + LayerValues(b)
  {
    if |b| == 0 {
      assert a + b == a;
    } else {
      assert (a + b)[..|a + b| - 1] == a + b[..|b| - 1];
      LayerValuesAppend(a, b[..|b| - 1]);
    }
  }

  /** Every kept value is the value of a kept entry ... */
  lemma {:induction false} LayerValuesSound(times: seq<(string, Json)>, k: nat)
    requires k < |LayerValues(times)|
    ensures exists i :: 0 <= i < |times| && Counted(times[i]) && NumberValue(times[i].1) == LayerValues(times)[k]
  {
    var n := |times| - 1;
    var init := times[..n];
    if k < |LayerValues(init)| {
      LayerValuesSound(init, k);
      var i :| 0 <= i < |init| && Counted(init[i]) && NumberValue(init[i].1) == LayerValues(init)[k];
      assert times[i] == init[i];
    } else {
      assert Counted(times[n]);
    }
  }

  /** ... and every kept entry's value is kept. */
  lemma {:induction false} LayerValuesComplete(times: seq<(string, Json)>, i: nat)
    requires i < |times| && Counted(times[i])
    ensures NumberValue(times[i].1) in LayerValues(times)
  {
    var n := |times| - 1;
    var init := times[..n];
    if i < n {
      LayerValuesComplete(init, i);
      assert init[i] == times[i];
    }
  }

  /** Average, minimum and maximum of the kept values. */
  datatype Summary = Summary(avg: real, min: real, max: real)

  /** 0 for all three when nothing was kept; otherwise the mean, which lies
      between the smallest and the largest value. */
  function Summarize(values: seq<real>): (s: Summary)
    ensures |values| == 0 ==> s == Summary(0.0, 0.0, 0.0)
    ensures |values| > 0 ==> s.min in values && s.max in values
    ensures |values| > 0 ==> forall i :: 0 <= i < |values| ==> s.min <= values[i] <= s.max
    ensures |values| > 0 ==> s.min <= s.avg <= s.max
    ensures |values| > 0 ==> s.avg == Sum(values) / |values| as real
  {
    if |values| == 0 then Summary(0.0, 0.0, 0.0)
    else
      MeanBetweenExtremes(values);
      Summary(Mean(values), Minimum(values), Maximum(values))
  }

  /** One CSV row; the wall-clock timestamp column is not modelled. */
  datatype InferenceRow = InferenceRow(
    inferenceId: nat,
    device: Summary,
    edge: Summary,
    numDeviceLayers: nat,
    numEdgeLayers: nat)

  /** The row recorded as inference `id`. */
  function MakeRow(id: nat, deviceTimes: seq<(string, Json)>, edgeTimes: seq<(string, Json)>): (row: InferenceRow)
    ensures row.inferenceId == id
    ensures row.numDeviceLayers == |LayerValues(deviceTimes)| && row.numEdgeLayers == |LayerValues(edgeTimes)|
    ensures row.numDeviceLayers == 0 ==> row.device == Summary(0.0, 0.0, 0.0)
    ensures row.numEdgeLayers == 0 ==> row.edge == Summary(0.0, 0.0, 0.0)
    ensures row.numDeviceLayers > 0 ==> row.device.min <= row.device.avg <= row.device.max
    ensures row.numEdgeLayers > 0 ==> row.edge.min <= row.edge.avg <= row.edge.max
    ensures row.device == Summarize(LayerValues(deviceTimes))
    ensures row.edge == Summarize(LayerValues(edgeTimes))
  {
    var device, edge := LayerValues(deviceTimes), LayerValues(edgeTimes);
    InferenceRow(id, Summarize(device), Summarize(edge), |device|, |edge|)
  }

  /** The files hold only non-layer entries or non-numbers: the row is all
      zeros. */
  lemma {:induction false} NoLayersNoTimes(times: seq<(string, Json)>)
    requires forall i :: 0 <= i < |times| ==> !Counted(times[i])
    ensures LayerValues(times) == []
  {
    if |times| > 0 {
      NoLayersNoTimes(times[..|times| - 1]);
    }
  }

  /** The runner's recording state. */
  class SimulationRunner {
    var inferenceCount: nat
    var writerOpen: bool
    var rows: seq<InferenceRow>

    /** The rows of the current file are numbered 1, 2, ... and the counter
        is the number of rows. */
    predicate Valid()
      reads this
    {
      && |rows| == inferenceCount
      && forall i :: 0 <= i < |rows| ==> rows[i].inferenceId == i + 1
    }

    constructor()
      ensures Valid()
      ensures inferenceCount == 0 && !writerOpen && rows == []
    {
      inferenceCount := 0;
      writerOpen := false;
      rows := [];
    }

    /** `create_scenario_folder`: the counter restarts at 0 and a new file
        is opened. */
    method CreateScenarioFolder()
      modifies this
      ensures Valid()
      ensures inferenceCount == 0 && writerOpen && rows == []
    {
      inferenceCount := 0;
      writerOpen := true;
      rows := [];
    }

    /** `close_scenario_folder`: the file is closed; counter and rows stay. */
    method CloseScenarioFolder()
      modifies this
      ensures !writerOpen && inferenceCount == old(inferenceCount) && rows == old(rows)
    {
      writerOpen := false;
    }

    /** `_record_inference`: nothing at all without an open file; otherwise
        the counter goes up by one and a row numbered with its new value is
        written. */
    method RecordInference(deviceTimes: seq<(string, Json)>, edgeTimes: seq<(string, Json)>)
      requires Valid()
      modifies this
      ensures Valid()
      ensures !old(writerOpen) ==> unchanged(this)
      ensures old(writerOpen) ==>
                && writerOpen
                && inferenceCount == old(inferenceCount) + 1
                && rows == old(rows) + [MakeRow(inferenceCount, deviceTimes, edgeTimes)]
    {
      if !writerOpen {
        return;
      }
      inferenceCount := inferenceCount + 1;
      var row := MakeRow(inferenceCount, deviceTimes, edgeTimes);
      rows := rows + [row];
    }
  }
}
