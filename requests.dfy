/** The server's request handler: the parser of the binary inference-result
    frame, the extension of a parsed message with latency and speed, the
    recording of the device's per-layer times, and the identity handlers. */
module Requests {
  import opened Wrappers
  import opened Bytes
  import opened Decimal
  import opened Messages

  /** `MessageData` after parsing, and after extension. The JSON text the
      parser also stores is not modelled. */
  datatype MessageData = MessageData(
    topic: string,
    deviceId: string,
    messageId: string,
    content: Content,
    timestamp: Double,
    receivedTimestamp: Option<real>,
    payloadSize: Option<nat>,
    syntheticLatency: Option<real>,
    latency: Option<real>,
    avgSpeed: Option<real>,
    offloadingLayerIndex: Option<Value>,
    layerOutput: Option<Value>,
    deviceLayersInferenceTime: Option<Value>)

  /** The header fields sit at fixed offsets. */
  const DeviceIdStart: nat := 8
  const MessageIdStart: nat := 17
  const LayerIndexStart: nat := 21
  const OutputSizeStart: nat := 25
  const HeaderSize: nat := 29

  /** `int(n / 4)`: the quotient truncated towards zero. */
  function TruncQuarter(n: int): int {
    if n >= 0 then n / 4 else -((-n) / 4)
  }

  /** `struct.unpack(f'<{int(size / 4)}f', b)`: a negative count is a bad
      format character, so `struct.error`. */
  function UnpackQuarter(size: int, b: seq<byte>): (r: Result<seq<Single>>)
    ensures r.Ok? <==> TruncQuarter(size) >= 0 && |b| == 4 * TruncQuarter(size)
    ensures r.Err? ==> r.error == StructError
    ensures r.Ok? ==> Flatten(r.value) == b
  {
    var count := TruncQuarter(size);
    if count < 0 then Err(StructError) else UnpackSingles(count, b)
  }

  /** The fixed-width part of the frame. */
  datatype Header = Header(timestamp: Double, deviceId: string, messageId: string,
                           layerIndex: int, outputSize: nat)

  /** The first 29 bytes: an 8-byte timestamp; 9 bytes of device id and 4
      of message id, decoded as UTF-8; a signed layer index; an unsigned
      output byte count. A short field raises `struct.error`, a bad id
      UnicodeDecodeError. */
  function ReadHeader(payload: seq<byte>): (r: Result<Header>)
    ensures r.Ok? ==> |payload| >= HeaderSize
    ensures r.Ok? ==> r.value.timestamp == payload[..8]
    ensures r.Ok? ==> Utf8Decode(payload[DeviceIdStart..MessageIdStart]) == Ok(r.value.deviceId)
    ensures r.Ok? ==> Utf8Decode(payload[MessageIdStart..LayerIndexStart]) == Ok(r.value.messageId)
    ensures r.Ok? ==> UnpackI32(payload[LayerIndexStart..OutputSizeStart]) == Ok(r.value.layerIndex)
    ensures r.Ok? ==> UnpackU32(payload[OutputSizeStart..HeaderSize]) == Ok(r.value.outputSize)
    ensures r.Err? ==> r.error in {StructError, UnicodeDecodeError}
  {
    var tsBytes := Slice(payload, 0, 8);
    if |tsBytes| != 8 then Err(StructError)
    else
      var timestamp: Double := tsBytes;
      var deviceId :- Utf8Decode(Slice(payload, DeviceIdStart, MessageIdStart));
      var messageId :- Utf8Decode(Slice(payload, MessageIdStart, LayerIndexStart));
      var layerIndex :- UnpackI32(Slice(payload, LayerIndexStart, OutputSizeStart));
      var outputSize :- UnpackU32(Slice(payload, OutputSizeStart, HeaderSize));
      Ok(Header(timestamp, deviceId, messageId, layerIndex, outputSize))
  }

  /** The variable-width part of the frame. */
  datatype Data = Data(output: seq<Single>, times: seq<Single>)

  /** After the header: `outputSize / 4` float32 outputs, a signed timing
      byte count L and L / 4 float32 timings; a count that does not match
      its bytes raises `struct.error`, and bytes after the timings are
      ignored. */
  function ReadData(payload: seq<byte>, outputSize: nat): (r: Result<Data>)
    ensures r.Ok? ==> outputSize % 4 == 0 && |payload| >= HeaderSize + outputSize + 4
    ensures r.Ok? ==> Flatten(r.value.output) == payload[HeaderSize..HeaderSize + outputSize]
    ensures r.Ok? ==> var l := UnpackI32(payload[HeaderSize + outputSize..HeaderSize + outputSize + 4]).value;
                      && TruncQuarter(l) >= 0 && |r.value.times| == TruncQuarter(l)
                      && (l >= 0 ==> |payload| >= HeaderSize + outputSize + 4 + 4 * |r.value.times|)
    ensures r.Ok? ==> var t := HeaderSize + outputSize + 4;
                      && t + 4 * |r.value.times| <= |payload|
                      && Flatten(r.value.times) == payload[t..t + 4 * |r.value.times|]
    ensures r.Err? ==> r.error == StructError
  {
    var output := UnpackQuarter(outputSize, Slice(payload, HeaderSize, HeaderSize + outputSize));
    var timesStart := HeaderSize + outputSize;
    var timesSize := UnpackI32(Slice(payload, timesStart, timesStart + 4));
    if output.Err? || timesSize.Err? then Err(StructError)
    else
      var times := UnpackQuarter(timesSize.value, Slice(payload, timesStart + 4, timesStart + 4 + timesSize.value));
      if times.Err? then Err(StructError) else Ok(Data(output.value, times.value))
  }

  /** `_from_raw(topic, payload)`: the header, then the outputs and the
      timings, gathered into the message content. */
  function FromRaw(topic: string, payload: seq<byte>): (r: Result<MessageData>)
    ensures r.Ok? ==> |payload| >= HeaderSize
    ensures r.Ok? ==> r.value.timestamp == payload[..8]
    ensures r.Ok? ==> Utf8Decode(payload[DeviceIdStart..MessageIdStart]) == Ok(r.value.deviceId)
    ensures r.Ok? ==> Utf8Decode(payload[MessageIdStart..LayerIndexStart]) == Ok(r.value.messageId)
    ensures r.Ok? ==> r.value.content.Dict?
                      && r.value.content.entries.Keys == {IndexKey, OutputKey, TimesKey}
    ensures r.Ok? ==> r.value.content.entries[IndexKey]
                      == Int(UnpackI32(payload[LayerIndexStart..OutputSizeStart]).value)
    ensures r.Ok? ==> var s := U32Value(payload[OutputSizeStart..HeaderSize]);
                      var e := r.value.content.entries;
                      && e[OutputKey].Floats? && e[TimesKey].Floats?
                      && HeaderSize + s + 4 + 4 * |e[TimesKey].values| <= |payload|
                      && Flatten(e[OutputKey].values) == payload[HeaderSize..HeaderSize + s]
                      && |e[TimesKey].values|
                         == TruncQuarter(UnpackI32(payload[HeaderSize + s..HeaderSize + s + 4]).value)
                      && Flatten(e[TimesKey].values)
                         == payload[HeaderSize + s + 4..HeaderSize + s + 4 + 4 * |e[TimesKey].values|]
    ensures r.Ok? ==> r.value.receivedTimestamp.None? && r.value.latency.None? && r.value.avgSpeed.None?
    ensures r.Ok? ==> r.value.payloadSize.None? && r.value.syntheticLatency.None?
                      && r.value.offloadingLayerIndex.None? && r.value.layerOutput.None?
                      && r.value.deviceLayersInferenceTime.None?
    ensures r.Ok? ==> r.value.topic == topic
    ensures r.Err? ==> r.error in {StructError, UnicodeDecodeError}
  {
    var header :- ReadHeader(payload);
    var data :- ReadData(payload, header.outputSize);
    OutputSizeIsField(payload, header);
    var content := Dict(map[IndexKey := Int(header.layerIndex), OutputKey := Floats(data.output),
                            TimesKey := Floats(data.times)]);
    Ok(MessageData(topic, header.deviceId, header.messageId, content, header.timestamp,
                   None, None, None, None, None, None, None, None))
  }

  lemma OutputSizeIsField(payload: seq<byte>, header: Header)
    requires ReadHeader(payload) == Ok(header)
    ensures header.outputSize == U32Value(payload[OutputSizeStart..HeaderSize])
  {
  }

  /** The fields a successful parse reads, at their offsets: S output bytes
      after the header, then the count L, then L / 4 timings. */
  lemma FromRawLayout(topic: string, payload: seq<byte>)
    requires FromRaw(topic, payload).Ok?
    ensures var s := U32Value(payload[OutputSizeStart..HeaderSize]);
            var content := FromRaw(topic, payload).value.content.entries;
            && s % 4 == 0 && |payload| >= HeaderSize + s + 4
            && Flatten(content[OutputKey].values) == payload[HeaderSize..HeaderSize + s]
            && var l := UnpackI32(payload[HeaderSize + s..HeaderSize + s + 4]).value;
               && TruncQuarter(l) >= 0 && |content[TimesKey].values| == TruncQuarter(l)
               && var n := |content[TimesKey].values|;
                  && HeaderSize + s + 4 + 4 * n <= |payload|
                  && Flatten(content[TimesKey].values) == payload[HeaderSize + s + 4..HeaderSize + s + 4 + 4 * n]
  {
    var header := ReadHeader(payload).value;
    assert header.outputSize == U32Value(payload[OutputSizeStart..HeaderSize]);
  }

  /** The latency since a sender's timestamp; None when the timestamp is
      an infinity or a NaN. */
  function LatencySince(timestamp: Double, received: real): (r: Option<real>)
    ensures r.Some? <==> DoubleValue(timestamp).Some?
    ensures r.Some? ==> DoubleValue(timestamp).value + r.value == received
  {
    var sent := DoubleValue(timestamp);
    if sent.Some? then Some(GetLatency(sent.value, received)) else None
  }

  /** The fixed-width part of a frame as the clients write it. */
  function HeaderBytes(timestamp: Double, idField: seq<byte>, midField: seq<byte>,
                       layerIndex: int, outputSize: nat): (h: seq<byte>)
    requires -TwoTo31 <= layerIndex < TwoTo31 && outputSize < TwoTo32
    ensures |h| == 16 + |idField| + |midField|
  {
    timestamp + idField + midField + PackI32(layerIndex).value + PackU32(outputSize).value
  }

  /** The outputs, the timing byte count and the timings. */
  function DataBytes(output: seq<Single>, times: seq<Single>): (d: seq<byte>)
    requires 4 * |times| < TwoTo31
    ensures |d| == 4 * |output| + 4 + 4 * |times|
  {
    Flatten(output) + PackI32(4 * |times|).value + Flatten(times)
  }

  /** The frame the clients send: timestamp, the device-id field, the
      message-id field, the layer index, the output byte count, the
      outputs, the timing byte count and the timings. */
  function Frame(timestamp: Double, idField: seq<byte>, midField: seq<byte>,
                 layerIndex: int, output: seq<Single>, times: seq<Single>): (frame: seq<byte>)
    requires -TwoTo31 <= layerIndex < TwoTo31
    requires 4 * |output| < TwoTo32 && 4 * |times| < TwoTo31
    ensures |frame| == 20 + |idField| + |midField| + 4 * |output| + 4 * |times|
  {
    HeaderBytes(timestamp, idField, midField, layerIndex, 4 * |output|) + DataBytes(output, times)
  }

  /** Parsing a frame whose id fields have their nominal widths and decode
      as UTF-8 gives back every field. */
  lemma FromRawOfFrame(topic: string, timestamp: Double, idField: seq<byte>, midField: seq<byte>,
                       layerIndex: int, output: seq<Single>, times: seq<Single>)
    requires -TwoTo31 <= layerIndex < TwoTo31
    requires 4 * |output| < TwoTo32 && 4 * |times| < TwoTo31
    requires |idField| == 9 && |midField| == 4
    requires Utf8Decode(idField).Ok? && Utf8Decode(midField).Ok?
    ensures FromRaw(topic, Frame(timestamp, idField, midField, layerIndex, output, times))
            == Ok(MessageData(topic, Utf8Decode(idField).value, Utf8Decode(midField).value,
                              Dict(map[IndexKey := Int(layerIndex), OutputKey := Floats(output),
                                       TimesKey := Floats(times)]),
                              timestamp, None, None, None, None, None, None, None, None))
  {
    var frame := Frame(timestamp, idField, midField, layerIndex, output, times);
    HeaderUnpacks(timestamp, idField, midField, layerIndex, output, times);
    ReadHeaderOf(frame, timestamp, idField, midField, layerIndex, 4 * |output|);
    DataUnpacks(timestamp, idField, midField, layerIndex, output, times);
    ReadDataOk(frame, output, times);
    ReadDataValues(frame, output, times);
  }

  lemma SliceOfLeft(a: seq<byte>, b: seq<byte>, i: nat, j: nat)
    requires i <= j <= |a|
    ensures (a + b)[i..j] == a[i..j]
  {
  }

  lemma SliceOfRight(a: seq<byte>, b: seq<byte>, i: nat, j: nat)
    requires i <= j <= |b|
    ensures (a + b)[|a| + i..|a| + j] == b[i..j]
  {
  }

  /** Where each header field sits. */
  lemma HeaderFields(timestamp: Double, idField: seq<byte>, midField: seq<byte>,
                     layerIndex: int, outputSize: nat)
    requires -TwoTo31 <= layerIndex < TwoTo31 && outputSize < TwoTo32
    requires |idField| == 9 && |midField| == 4
    ensures var h := HeaderBytes(timestamp, idField, midField, layerIndex, outputSize);
            && h[..8] == timestamp
            && h[DeviceIdStart..MessageIdStart] == idField
            && h[MessageIdStart..LayerIndexStart] == midField
            && h[LayerIndexStart..OutputSizeStart] == PackI32(layerIndex).value
            && h[OutputSizeStart..HeaderSize] == PackU32(outputSize).value
  {
    var p1 := timestamp + idField;
    var p2 := p1 + midField;
    var p3 := p2 + PackI32(layerIndex).value;
    var h := p3 + PackU32(outputSize).value;
    SliceOfLeft(p3, PackU32(outputSize).value, 0, 8);
    SliceOfLeft(p2, PackI32(layerIndex).value, 0, 8);
    SliceOfLeft(p1, midField, 0, 8);
    SliceOfLeft(p3, PackU32(outputSize).value, 8, 17);
    SliceOfLeft(p2, PackI32(layerIndex).value, 8, 17);
    SliceOfLeft(p1, midField, 8, 17);
    SliceOfLeft(p3, PackU32(outputSize).value, 17, 21);
    SliceOfLeft(p2, PackI32(layerIndex).value, 17, 21);
    SliceOfLeft(p3, PackU32(outputSize).value, 21, 25);
  }

  /** Where each data field sits. */
  lemma DataFields(output: seq<Single>, times: seq<Single>)
    requires 4 * |times| < TwoTo31
    ensures var d := DataBytes(output, times);
            var s := 4 * |output|;
            && d[..s] == Flatten(output)
            && d[s..s + 4] == PackI32(4 * |times|).value
            && d[s + 4..s + 4 + 4 * |times|] == Flatten(times)
  {
    var ob, cb, tb := Flatten(output), PackI32(4 * |times|).value, Flatten(times);
    SliceOfLeft(ob + cb, tb, 0, |ob|);
    SliceOfLeft(ob + cb, tb, |ob|, |ob| + 4);
    SliceOfRight(ob + cb, tb, 0, |tb|);
  }

  /** The header reads of a frame. */
  lemma HeaderUnpacks(timestamp: Double, idField: seq<byte>, midField: seq<byte>,
                      layerIndex: int, output: seq<Single>, times: seq<Single>)
    requires -TwoTo31 <= layerIndex < TwoTo31
    requires 4 * |output| < TwoTo32 && 4 * |times| < TwoTo31
    requires |idField| == 9 && |midField| == 4
    ensures var frame := Frame(timestamp, idField, midField, layerIndex, output, times);
            && Slice(frame, 0, 8) == timestamp
            && Slice(frame, DeviceIdStart, MessageIdStart) == idField
            && Slice(frame, MessageIdStart, LayerIndexStart) == midField
            && UnpackI32(Slice(frame, LayerIndexStart, OutputSizeStart)) == Ok(layerIndex)
            && UnpackU32(Slice(frame, OutputSizeStart, HeaderSize)) == Ok(4 * |output|)
  {
    var h := HeaderBytes(timestamp, idField, midField, layerIndex, 4 * |output|);
    var d := DataBytes(output, times);
    HeaderFields(timestamp, idField, midField, layerIndex, 4 * |output|);
    SliceOfLeft(h, d, 0, 8);
    SliceOfLeft(h, d, DeviceIdStart, MessageIdStart);
    SliceOfLeft(h, d, MessageIdStart, LayerIndexStart);
    SliceOfLeft(h, d, LayerIndexStart, OutputSizeStart);
    SliceOfLeft(h, d, OutputSizeStart, HeaderSize);
    UnpackPackI32(layerIndex);
    UnpackPackU32(4 * |output|);
  }

  /** The data reads of a frame. */
  lemma DataUnpacks(timestamp: Double, idField: seq<byte>, midField: seq<byte>,
                    layerIndex: int, output: seq<Single>, times: seq<Single>)
    requires -TwoTo31 <= layerIndex < TwoTo31
    requires 4 * |output| < TwoTo32 && 4 * |times| < TwoTo31
    requires |idField| == 9 && |midField| == 4
    ensures var frame := Frame(timestamp, idField, midField, layerIndex, output, times);
            var s := 4 * |output|;
            && UnpackQuarter(s, Slice(frame, HeaderSize, HeaderSize + s)) == Ok(output)
            && UnpackI32(Slice(frame, HeaderSize + s, HeaderSize + s + 4)) == Ok(4 * |times|)
            && UnpackQuarter(4 * |times|, Slice(frame, HeaderSize + s + 4, HeaderSize + s + 4 + 4 * |times|))
               == Ok(times)
  {
    var s := 4 * |output|;
    var h := HeaderBytes(timestamp, idField, midField, layerIndex, s);
    var d := DataBytes(output, times);
    DataFields(output, times);
    SliceOfRight(h, d, 0, s);
    SliceOfRight(h, d, s, s + 4);
    SliceOfRight(h, d, s + 4, s + 4 + 4 * |times|);
    UnpackFlatten(output);
    assert TruncQuarter(s) == |output|;
    UnpackPackI32(4 * |times|);
    UnpackFlatten(times);
    assert TruncQuarter(4 * |times|) == |times|;
  }

  lemma ReadHeaderOf(payload: seq<byte>, timestamp: Double, idField: seq<byte>,
                     midField: seq<byte>, layerIndex: int, s: nat)
    requires Utf8Decode(idField).Ok? && Utf8Decode(midField).Ok?
    requires && Slice(payload, 0, 8) == timestamp
             && Slice(payload, DeviceIdStart, MessageIdStart) == idField
             && Slice(payload, MessageIdStart, LayerIndexStart) == midField
             && UnpackI32(Slice(payload, LayerIndexStart, OutputSizeStart)) == Ok(layerIndex)
             && UnpackU32(Slice(payload, OutputSizeStart, HeaderSize)) == Ok(s)
    ensures ReadHeader(payload) == Ok(Header(timestamp, Utf8Decode(idField).value,
                                             Utf8Decode(midField).value, layerIndex, s))
  {
  }

  lemma ReadDataOk(payload: seq<byte>, output: seq<Single>, times: seq<Single>)
    requires var s := 4 * |output|;
      && UnpackQuarter(s, Slice(payload, HeaderSize, HeaderSize + s)) == Ok(output)
      && UnpackI32(Slice(payload, HeaderSize + s, HeaderSize + s + 4)) == Ok(4 * |times|)
      && UnpackQuarter(4 * |times|, Slice(payload, HeaderSize + s + 4, HeaderSize + s + 4 + 4 * |times|)) == Ok(times)
    ensures ReadData(payload, 4 * |output|).Ok?
  {
  }

  lemma ReadDataValues(payload: seq<byte>, output: seq<Single>, times: seq<Single>)
    requires var s := 4 * |output|;
      && UnpackQuarter(s, Slice(payload, HeaderSize, HeaderSize + s)) == Ok(output)
      && UnpackI32(Slice(payload, HeaderSize + s, HeaderSize + s + 4)) == Ok(4 * |times|)
      && UnpackQuarter(4 * |times|, Slice(payload, HeaderSize + s + 4, HeaderSize + s + 4 + 4 * |times|)) == Ok(times)
    requires ReadData(payload, 4 * |output|).Ok?
    ensures ReadData(payload, 4 * |output|) == Ok(Data(output, times))
  {
    var r := ReadData(payload, 4 * |output|).value;
    assert r.output == output;
    assert r.times == times;
  }

  /** `_extend_message_data(message_data, received_timestamp, payload)`:
      records the reception time and payload size, the latency since the
      sender's timestamp, the speed estimate and the offloading fields of
      the content. A timestamp that is an infinity or a NaN gives no
      latency and no speed. */
  function ExtendMessageData(m: MessageData, received: real, payload: seq<byte>): (r: MessageData)
    ensures r.topic == m.topic && r.deviceId == m.deviceId && r.messageId == m.messageId
    ensures r.content == m.content && r.timestamp == m.timestamp
    ensures r.receivedTimestamp == Some(received)
    ensures r.payloadSize == Some(|payload|)
    ensures r.syntheticLatency == Some(1.0)
    ensures r.latency.Some? <==> DoubleValue(m.timestamp).Some?
    ensures r.latency.Some? ==> DoubleValue(m.timestamp).value + r.latency.value == received
    ensures r.avgSpeed.Some? <==> r.latency.Some?
    ensures r.latency.Some? && r.latency.value != 0.0 ==>
              r.avgSpeed.value == |payload| as real / r.latency.value
    ensures r.latency.Some? && r.latency.value == 0.0 ==> r.avgSpeed.value == 0.0
    ensures var info := GetOffloadingInfo(m.content);
            && r.offloadingLayerIndex == info.offloadingLayerIndex
            && r.layerOutput == info.layerOutput
            && r.deviceLayersInferenceTime == info.deviceLayersInferenceTime
  {
    var size := GetBytesSize(payload);
    var synthetic := GetSyntheticLatency();
    var latency := LatencySince(m.timestamp, received);
    var speed :=
      if latency.Some? then
        AvgSpeedIsBytesPerSecond(size as real, latency.value);
        Some(GetAvgSpeed(size as real, latency.value, synthetic))
      else None;
    var info := GetOffloadingInfo(m.content);
    m.(receivedTimestamp := Some(received), payloadSize := Some(size),
       syntheticLatency := Some(synthetic), latency := latency, avgSpeed := speed,
       offloadingLayerIndex := info.offloadingLayerIndex, layerOutput := info.layerOutput,
       deviceLayersInferenceTime := info.deviceLayersInferenceTime)
  }

  /** After parsing, the offloading fields of the extension are exactly the
      parsed layer index, outputs and times. */
  lemma ExtendedParseHasOffloadingFields(topic: string, payload: seq<byte>, received: real)
    requires FromRaw(topic, payload).Ok?
    ensures var m := FromRaw(topic, payload).value;
            var r := ExtendMessageData(m, received, payload);
            && r.offloadingLayerIndex == Some(m.content.entries[IndexKey])
            && r.layerOutput == Some(m.content.entries[OutputKey])
            && r.deviceLayersInferenceTime == Some(m.content.entries[TimesKey])
  {
  }

  /** The key under which the device's time of layer i is stored. */
  function DeviceLayerKey(i: nat): string {
    "layer_" + NatToString(i)
  }

  lemma DeviceLayerKeysDistinct(i: nat, j: nat)
    ensures i != j ==> DeviceLayerKey(i) != DeviceLayerKey(j)
  {
    if i != j && DeviceLayerKey(i) == DeviceLayerKey(j) {
      assert NatToString(i) == DeviceLayerKey(i)[6..];
      NatToStringInjective(i, j);
    }
  }

  /** True when `key` is the device key of some layer below n. */
  predicate IsDeviceLayerKey(key: string, n: nat) {
    exists i :: 0 <= i < n && key == DeviceLayerKey(i)
  }

  /** The loop of `handle_device_inference_result` over the reported times:
      key "layer_i" gets the i-th time, every other key keeps its value. */
  method RecordDeviceTimes<V>(stored: map<string, V>, reported: seq<V>) returns (updated: map<string, V>)
    ensures forall i :: 0 <= i < |reported| ==>
              DeviceLayerKey(i) in updated && updated[DeviceLayerKey(i)] == reported[i]
    ensures forall key :: key in updated <==> key in stored || IsDeviceLayerKey(key, |reported|)
    ensures forall key :: key in stored && !IsDeviceLayerKey(key, |reported|) ==>
              updated[key] == stored[key]
  {
    updated := stored;
    var i := 0;
    while i < |reported|
      invariant 0 <= i <= |reported|
      invariant forall j :: 0 <= j < i ==>
                  DeviceLayerKey(j) in updated && updated[DeviceLayerKey(j)] == reported[j]
      invariant forall key :: key in updated <==> key in stored || IsDeviceLayerKey(key, i)
      invariant forall key :: key in stored && !IsDeviceLayerKey(key, i) ==> updated[key] == stored[key]
    {
      forall j | 0 <= j < i
        ensures DeviceLayerKey(j) != DeviceLayerKey(i)
      {
        DeviceLayerKeysDistinct(j, i);
      }
      updated := updated[DeviceLayerKey(i) := reported[i]];
      i := i + 1;
    }
  }

  /** `handle_registration(device_id)` hands the device id back. */
  function HandleRegistration<T>(deviceId: T): (r: T)
    ensures r == deviceId
  {
    deviceId
  }

  /** `handle_offloading_layer(best_offloading_layer)` hands the layer back. */
  function HandleOffloadingLayer<T>(bestOffloadingLayer: T): (r: T)
    ensures r == bestOffloadingLayer
  {
    bestOffloadingLayer
  }
}
