/** The helpers of `MessageData`: latency, payload size, the synthetic
    latency factor, the link-speed estimate and the extraction of the
    offloading fields from a message's content. */
module Messages {
  import opened Wrappers
  import opened Bytes

  /** `get_latency(timestamp, received_timestamp)`: seconds between
      sending and receiving. */
  function GetLatency(sent: real, received: real): (latency: real)
    ensures sent + latency == received
  {
    received - sent
  }

  /** `get_bytes_size(payload)`: the payload length. */
  function GetBytesSize(payload: seq<byte>): (size: nat)
    ensures size == |payload|
  {
    |payload|
  }

  /** `get_synthetic_latency()`: the latency factor is always 1. */
  function GetSyntheticLatency(): (factor: real)
    ensures factor == 1.0
  {
    1.0
  }

  /** `get_avg_speed(size, latency, synthetic)`: size over the scaled
      latency; a zero scaled latency gives 0 instead of failing. */
  function GetAvgSpeed(size: real, latency: real, synthetic: real): (speed: real)
    ensures latency * synthetic == 0.0 ==> speed == 0.0
    ensures latency * synthetic != 0.0 ==> speed * (latency * synthetic) == size
  {
    var messageLatency := latency * synthetic;
    if messageLatency == 0.0 then 0.0 else size / messageLatency
  }

  /** With the synthetic factor the estimate is plain bytes per second. */
  lemma AvgSpeedIsBytesPerSecond(size: real, latency: real)
    ensures var speed := GetAvgSpeed(size, latency, GetSyntheticLatency());
            && (latency == 0.0 ==> speed == 0.0)
            && (latency != 0.0 ==> speed == size / latency)
  {
  }

  /** A speed estimate read back against its latency gives the size. */
  lemma AvgSpeedTimesLatency(size: real, latency: real)
    requires latency > 0.0 && size >= 0.0
    ensures GetAvgSpeed(size, latency, GetSyntheticLatency()) >= 0.0
    ensures GetAvgSpeed(size, latency, GetSyntheticLatency()) * latency == size
  {
  }

  /** The values a message's content holds. */
  datatype Value = Int(i: int) | Floats(values: seq<Single>)

  /** A message's content: a dictionary, or something without `.get`. */
  datatype Content = Dict(entries: map<string, Value>) | NotADict

  const IndexKey: string := "offloading_layer_index"
  const OutputKey: string := "layer_output"
  const TimesKey: string := "layers_inference_time"

  datatype OffloadingInfo = OffloadingInfo(
    offloadingLayerIndex: Option<Value>,
    layerOutput: Option<Value>,
    deviceLayersInferenceTime: Option<Value>)

  function Lookup(entries: map<string, Value>, key: string): (r: Option<Value>)
    ensures r.Some? <==> key in entries
    ensures r.Some? ==> r.value == entries[key]
  {
    if key in entries then Some(entries[key]) else None
  }

  /** `get_offloading_info(message_content)`: the layer index, the output
      and the device times, None for each missing key, and None for all
      three when the content is not a dictionary. */
  function GetOffloadingInfo(content: Content): (info: OffloadingInfo)
    ensures content.NotADict? ==> info == OffloadingInfo(None, None, None)
    ensures content.Dict? ==>
              && (info.offloadingLayerIndex.Some? <==> IndexKey in content.entries)
              && (info.layerOutput.Some? <==> OutputKey in content.entries)
              && (info.deviceLayersInferenceTime.Some? <==> TimesKey in content.entries)
    ensures content.Dict? && IndexKey in content.entries ==>
              info.offloadingLayerIndex.value == content.entries[IndexKey]
    ensures content.Dict? && OutputKey in content.entries ==>
              info.layerOutput.value == content.entries[OutputKey]
    ensures content.Dict? && TimesKey in content.entries ==>
              info.deviceLayersInferenceTime.value == content.entries[TimesKey]
  {
    match content
    case NotADict => OffloadingInfo(None, None, None)
    case Dict(entries) =>
      OffloadingInfo(Lookup(entries, IndexKey), Lookup(entries, OutputKey), Lookup(entries, TimesKey))
  }
}
