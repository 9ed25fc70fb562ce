/** The light HTTP client: the random message id, the RGB565 image upload,
    the choice of the split layer, the split inference loop and the binary
    inference-result frame it posts. */
module HttpClient {
  import opened Wrappers
  import opened Bytes
  import opened Images
  import opened Messages
  import Requests

  /** The client's fixed device id. */
  const DeviceId: string := "device_01"

  /** The layer used when the server gives none. */
  const FallbackLayer: int := 58

  /** Uploaded images are resized to 96 x 96 pixels. */
  const ImageSide: nat := 96

  /** `string.ascii_uppercase + string.digits`: 36 symbols. */
  const AlphabetSize: nat := 36

  /** Symbol k of the message-id alphabet: "A".."Z", then "0".."9". */
  function IdSymbol(k: nat): (c: char)
    requires k < AlphabetSize
    ensures 'A' <= c <= 'Z' || '0' <= c <= '9'
  {
    if k < 26 then ('A' as int + k) as char else ('0' as int + (k - 26)) as char
  }

  predicate IsIdSymbol(c: char) {
    'A' <= c <= 'Z' || '0' <= c <= '9'
  }

  // ----- generate_message_id -----

  /** `generate_message_id()`: four symbols picked from the alphabet;
      `draws` are the four indices the random generator picks. */
  function GenerateMessageId(draws: seq<nat>): (id: string)
    requires |draws| == 4 && forall i :: 0 <= i < 4 ==> draws[i] < AlphabetSize
    ensures |id| == 4
    ensures forall i :: 0 <= i < 4 ==> IsIdSymbol(id[i])
    ensures IsAscii(id)
  {
    seq(4, i requires 0 <= i < 4 => IdSymbol(draws[i]))
  }

  /** Different draws give different ids: the alphabet has no repeated
      symbol. */
  lemma GenerateMessageIdInjective(draws: seq<nat>, draws': seq<nat>)
    requires |draws| == 4 && forall i :: 0 <= i < 4 ==> draws[i] < AlphabetSize
    requires |draws'| == 4 && forall i :: 0 <= i < 4 ==> draws'[i] < AlphabetSize
    ensures GenerateMessageId(draws) == GenerateMessageId(draws') <==> draws == draws'
  {
    if GenerateMessageId(draws) == GenerateMessageId(draws') {
      forall i | 0 <= i < 4
        ensures draws[i] == draws'[i]
      {
        assert GenerateMessageId(draws)[i] == GenerateMessageId(draws')[i];
      }
    }
  }

  // ----- send_image -----

  /** Line 38: the top 5, 6 and 5 bits of red, green and blue, packed into
      one 16-bit word. The channels are NumPy `uint8` scalars, which NumPy
      1.x promotes to a wide integer before shifting. */
  function PackPixel(p: Pixel): bv16 {
    (((p.r >> 3) as bv16) << 11) | (((p.g >> 2) as bv16) << 5) | ((p.b >> 3) as bv16)
  }

  /** Red sits in bits 11-15, green in bits 5-10 and blue in bits 0-4. */
  lemma PackPixelFields(p: Pixel)
    ensures var w := PackPixel(p);
            && w >> 11 == (p.r >> 3) as bv16
            && (w >> 5) & 0x3F == (p.g >> 2) as bv16
            && w & 0x1F == (p.b >> 3) as bv16
  {
  }

  /** The body `send_image` posts: the words of the 96 x 96 image in
      row-major order (y outer, x inner), each high byte first. */
  method SendImagePayload(data: seq<seq<Pixel>>) returns (payload: seq<byte>)
    requires |data| == ImageSide && Rectangular(data, ImageSide)
    ensures payload == BigEndian16(RowMajor(data, PackPixel))
    ensures |payload| == 2 * ImageSide * ImageSide
  {
    var rgb565: seq<bv16> := [];
    for y := 0 to ImageSide
      invariant rgb565 == RowMajor(data[..y], PackPixel)
    {
      for x := 0 to ImageSide
        invariant rgb565 == RowMajor(data[..y], PackPixel) + RowWords(data[y][..x], PackPixel)
      {
        RowWordsAppend(data[y], x, PackPixel);
        rgb565 := rgb565 + [PackPixel(data[y][x])];
      }
      assert data[y][..ImageSide] == data[y];
      RowMajorAppend(data, y, PackPixel);
    }
    assert data[..ImageSide] == data;
    RowMajorLength(data, ImageSide, PackPixel);
    payload := BigEndian16(rgb565);
  }

  /** Pixel (y, x) is the big-endian word at bytes 2(96y + x) and
      2(96y + x) + 1 of the upload. */
  lemma SendImagePixel(data: seq<seq<Pixel>>, y: nat, x: nat)
    requires |data| == ImageSide && Rectangular(data, ImageSide)
    requires y < ImageSide && x < ImageSide
    ensures var payload := BigEndian16(RowMajor(data, PackPixel));
            var k := y * ImageSide + x;
            && 2 * k + 1 < |payload|
            && payload[2 * k] == HighByte(PackPixel(data[y][x]))
            && payload[2 * k + 1] == LowByte(PackPixel(data[y][x]))
  {
    RowMajorAt(data, ImageSide, PackPixel, y, x);
    BigEndian16At(RowMajor(data, PackPixel), y * ImageSide + x);
  }

  // ----- get_offloading_layer -----

  /** `get_offloading_layer()`: the layer the server names on a 200
      response, otherwise the fallback layer. `index` is the
      "offloading_layer_index" member of the response body, if any. */
  function GetOffloadingLayer(status: int, index: Option<int>): (layer: int)
    ensures status == 200 && index.Some? ==> layer == index.value
    ensures status != 200 || index.None? ==> layer == FallbackLayer
  {
    if status == 200 then index.GetOr(FallbackLayer) else FallbackLayer
  }

  // ----- run_split_inference -----

  /** `range(stop_layer + 1)` has this many elements. */
  function LayerCount(stopLayer: int): nat {
    if stopLayer + 1 > 0 then stopLayer + 1 else 0
  }

  /** `run_split_inference`: runs sub-models 0..stop_layer in order and
      times each. `clock` holds the two clock readings around each
      sub-model's `invoke()`; the interpreter itself is not modelled. */
  method RunSplitInference(stopLayer: int, clock: seq<(real, real)>) returns (ran: seq<nat>, times: seq<real>)
    requires |clock| >= LayerCount(stopLayer)
    ensures |ran| == LayerCount(stopLayer) && |times| == LayerCount(stopLayer)
    ensures forall i :: 0 <= i < |ran| ==> ran[i] == i
    ensures forall i :: 0 <= i < |times| ==> clock[i].0 + times[i] == clock[i].1
  {
    ran, times := [], [];
    var i := 0;
    while i < stopLayer + 1
      invariant 0 <= i <= LayerCount(stopLayer)
      invariant |ran| == i && |times| == i
      invariant forall j :: 0 <= j < i ==> ran[j] == j
      invariant forall j :: 0 <= j < i ==> clock[j].0 + times[j] == clock[j].1
    {
      var (t0, t1) := clock[i];
      ran := ran + [i];
      times := times + [t1 - t0];
      i := i + 1;
    }
  }

  // ----- send_inference_result -----

  /** The frame `send_inference_result` builds: the timestamp's 8 bytes,
      the ASCII device id NUL-padded to 9 bytes (never cut), the ASCII
      message id NUL-padded to 4, the layer index, the output byte count,
      the outputs, the timing byte count and one float32 per timing. A
      non-ASCII id raises UnicodeEncodeError and a number outside its
      32-bit range `struct.error`. */
  function HttpFrame(timestamp: Double, deviceId: string, messageId: string,
                     output: seq<Single>, times: seq<Single>, layerIndex: int): (r: Result<seq<byte>>)
    ensures r.Err? <==> !IsAscii(deviceId) || !IsAscii(messageId)
                        || !(-TwoTo31 <= layerIndex < TwoTo31)
                        || 4 * |output| >= TwoTo32 || 4 * |times| >= TwoTo31
    ensures r.Err? ==> r.error == if !IsAscii(deviceId) || !IsAscii(messageId)
                                  then UnicodeEncodeError else StructError
    ensures r.Ok? ==> |r.value| == 8 + (if |deviceId| <= 9 then 9 else |deviceId|)
                                   + (if |messageId| <= 4 then 4 else |messageId|)
                                   + 8 + 4 * |output| + 4 + 4 * |times|
    ensures r.Ok? ==> (|deviceId| <= 9 && |messageId| <= 4 <==>
                         |r.value| == Requests.HeaderSize + 4 * |output| + 4 + 4 * |times|)
  {
    var id :- AsciiEncode(deviceId);
    var mid :- AsciiEncode(messageId);
    var layer :- PackI32(layerIndex);
    var size :- PackU32(4 * |output|);
    var count :- PackI32(4 * |times|);
    Ok(timestamp + NulPad(id, 9) + NulPad(mid, 4) + layer + size + Flatten(output) + count + Flatten(times))
  }

  /** `send_inference_result`, growing the buffer field by field. */
  method SendInferenceResult(timestamp: Double, deviceId: string, messageId: string,
                             output: seq<Single>, times: seq<Single>, layerIndex: int)
    returns (r: Result<seq<byte>>)
    ensures r == HttpFrame(timestamp, deviceId, messageId, output, times, layerIndex)
  {
    var buffer: seq<byte> := [];
    buffer := buffer + timestamp;
    var id :- AsciiEncode(deviceId);
    buffer := buffer + NulPad(id, 9);
    var mid :- AsciiEncode(messageId);
    buffer := buffer + NulPad(mid, 4);
    var layer :- PackI32(layerIndex);
    buffer := buffer + layer;
    var size :- PackU32(4 * |output|);
    buffer := buffer + size;
    buffer := buffer + Flatten(output);
    var count :- PackI32(4 * |times|);
    buffer := buffer + count;
    buffer := buffer + Flatten(times);
    assert [] + timestamp == timestamp;
    r := Ok(buffer);
  }

  /** The server's parser reads back what the client sent: the layer
      index, the outputs and the timings, the device and message ids with
      their NUL padding, and the timestamp bytes. */
  lemma ParseAfterSend(topic: string, timestamp: Double, deviceId: string, messageId: string,
                       output: seq<Single>, times: seq<Single>, layerIndex: int)
    requires HttpFrame(timestamp, deviceId, messageId, output, times, layerIndex).Ok?
    requires |deviceId| <= 9 && |messageId| <= 4
    ensures Requests.FromRaw(topic, HttpFrame(timestamp, deviceId, messageId, output, times, layerIndex).value)
            == Ok(Requests.MessageData(
                    topic, deviceId + NulText(9 - |deviceId|), messageId + NulText(4 - |messageId|),
                    Dict(map[IndexKey := Int(layerIndex), OutputKey := Floats(output), TimesKey := Floats(times)]),
                    timestamp, None, None, None, None, None, None, None, None))
  {
    var id, mid := AsciiEncode(deviceId).value, AsciiEncode(messageId).value;
    var idField, midField := NulPad(id, 9), NulPad(mid, 4);
    IdFieldDecodes(deviceId, 9);
    IdFieldDecodes(messageId, 4);
    FrameIsParserFrame(timestamp, idField, midField, output, times, layerIndex);
    Requests.FromRawOfFrame(topic, timestamp, idField, midField, layerIndex, output, times);
  }

  /** A NUL-padded ASCII id decodes to the id followed by the NULs. */
  lemma IdFieldDecodes(s: string, width: nat)
    requires IsAscii(s) && |s| <= width
    ensures |NulPad(AsciiEncode(s).value, width)| == width
    ensures Utf8Decode(NulPad(AsciiEncode(s).value, width)) == Ok(s + NulText(width - |s|))
  {
    AsciiIsUtf8(s);
    DecodeNuls(width - |s|);
    Utf8DecodeAfterEncode(s, Nuls(width - |s|));
    assert NulPad(AsciiEncode(s).value, width) == Utf8Encode(s) + Nuls(width - |s|);
  }

  lemma FrameIsParserFrame(timestamp: Double, idField: seq<byte>, midField: seq<byte>,
                           output: seq<Single>, times: seq<Single>, layerIndex: int)
    requires -TwoTo31 <= layerIndex < TwoTo31
    requires 4 * |output| < TwoTo32 && 4 * |times| < TwoTo31
    ensures timestamp + idField + midField + PackI32(layerIndex).value + PackU32(4 * |output|).value
              + Flatten(output) + PackI32(4 * |times|).value + Flatten(times)
            == Requests.Frame(timestamp, idField, midField, layerIndex, output, times)
  {
    var h := Requests.HeaderBytes(timestamp, idField, midField, layerIndex, 4 * |output|);
    var ob, cb, tb := Flatten(output), PackI32(4 * |times|).value, Flatten(times);
    assert h + ob + cb + tb == h + (ob + cb + tb);
  }

  /** The client's own device id fills the 9-byte field exactly, so its
      frames have the 29-byte header the parser expects. */
  lemma DefaultDeviceIdFillsField()
    ensures IsAscii(DeviceId) && |DeviceId| == 9
    ensures NulPad(AsciiEncode(DeviceId).value, 9) == AsciiEncode(DeviceId).value
  {
  }

  /** A generated message id fills its 4-byte field, so it reaches the
      server unchanged. */
  lemma GeneratedIdTravels(topic: string, timestamp: Double, draws: seq<nat>,
                           output: seq<Single>, times: seq<Single>, layerIndex: int)
    requires |draws| == 4 && forall i :: 0 <= i < 4 ==> draws[i] < AlphabetSize
    requires HttpFrame(timestamp, DeviceId, GenerateMessageId(draws), output, times, layerIndex).Ok?
    ensures var frame := HttpFrame(timestamp, DeviceId, GenerateMessageId(draws), output, times, layerIndex).value;
            var parsed := Requests.FromRaw(topic, frame);
            && parsed.Ok?
            && parsed.value.deviceId == DeviceId
            && parsed.value.messageId == GenerateMessageId(draws)
  {
    var mid := GenerateMessageId(draws);
    DefaultDeviceIdFillsField();
    ParseAfterSend(topic, timestamp, DeviceId, mid, output, times, layerIndex);
    assert DeviceId + NulText(0) == DeviceId;
    assert mid + NulText(0) == mid;
  }
}
