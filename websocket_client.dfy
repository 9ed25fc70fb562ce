/** The WebSocket client that stands in for the ESP32 board: its message
    id, its little-endian RGB565 camera buffer, its binary inference-result
    frame and the two pieces of state its message handler keeps. */
module WebsocketClient {
  import opened Wrappers
  import opened Bytes
  import opened Images
  import opened Messages
  import Requests
  import HttpClient

  /** The client's fixed device id. */
  const DeviceId: string := "device_01"

  // ----- generate_message_uuid -----

  /** A lowercase hexadecimal digit, as `str(uuid)` writes them. */
  function HexDigit(v: nat): (c: char)
    requires v < 16
    ensures '0' <= c <= '9' || 'a' <= c <= 'f'
  {
    if v < 10 then ('0' as int + v) as char else ('a' as int + (v - 10)) as char
  }

  predicate IsHexDigit(c: char) {
    '0' <= c <= '9' || 'a' <= c <= 'f'
  }

  function HexValue(c: char): (v: nat)
    requires IsHexDigit(c)
    ensures v < 16
  {
    if c <= '9' then c as int - '0' as int else c as int - 'a' as int + 10
  }

  lemma HexDigitValue(v: nat)
    requires v < 16
    ensures HexValue(HexDigit(v)) == v
  {
  }

  /** `str(uuid.uuid4())[:4]`: the first four hex digits of a random UUID,
      which spell its top 16 bits; `draw` stands for those bits. */
  function GenerateMessageUuid(draw: nat): (id: string)
    requires draw < 0x1_0000
    ensures |id| == 4 && IsAscii(id)
    ensures forall i :: 0 <= i < 4 ==> IsHexDigit(id[i])
  {
    var high, low := draw / 0x100, draw % 0x100;
    [HexDigit(high / 0x10), HexDigit(high % 0x10), HexDigit(low / 0x10), HexDigit(low % 0x10)]
  }

  /** Reading the four digits back as a number gives the drawn bits. */
  lemma UuidPrefixSpellsDraw(draw: nat)
    requires draw < 0x1_0000
    ensures var id := GenerateMessageUuid(draw);
            (HexValue(id[0]) * 0x10 + HexValue(id[1])) * 0x100 + HexValue(id[2]) * 0x10 + HexValue(id[3]) == draw
  {
    var high, low := draw / 0x100, draw % 0x100;
    HexDigitValue(high / 0x10);
    HexDigitValue(high % 0x10);
    HexDigitValue(low / 0x10);
    HexDigitValue(low % 0x10);
    DivMod256(draw);
    DivMod16(high);
    DivMod16(low);
  }

  lemma DivMod16(x: nat)
    ensures x == x / 0x10 * 0x10 + x % 0x10
  {
  }

  // ----- convert_to_rgb565_raw -----

  /** Line 58: the channels masked in place and shifted into one word. */
  function WsPack(p: Pixel): bv16 {
    (((p.r & 0xF8) as bv16) << 8) | (((p.g & 0xFC) as bv16) << 3) | ((p.b >> 3) as bv16)
  }

  /** The masking packing and the HTTP client's shifting packing give the
      same word for every pixel. */
  lemma WsPackIsPackPixel(p: Pixel)
    ensures WsPack(p) == HttpClient.PackPixel(p)
  {
  }

  /** Both clients therefore flatten every image into the same words; only
      the byte order on the wire differs. */
  lemma SameWordsAsHttpClient(rgb: seq<seq<Pixel>>)
    ensures RowMajor(rgb, WsPack) == RowMajor(rgb, HttpClient.PackPixel)
  {
    forall p: Pixel
      ensures WsPack(p) == HttpClient.PackPixel(p)
    {
      WsPackIsPackPixel(p);
    }
    RowMajorCongruent(rgb, WsPack, HttpClient.PackPixel);
  }

  /** `convert_to_rgb565_raw`: the words of an h x w image row by row, low
      byte first. */
  method ConvertToRgb565Raw(rgb: seq<seq<Pixel>>, w: nat) returns (raw: seq<byte>)
    requires Rectangular(rgb, w)
    ensures raw == LittleEndian16(RowMajor(rgb, WsPack))
    ensures |raw| == 2 * w * |rgb|
  {
    raw := [];
    ghost var words: seq<bv16> := [];
    for y := 0 to |rgb|
      invariant words == RowMajor(rgb[..y], WsPack)
      invariant raw == LittleEndian16(words)
    {
      raw := AppendRowBytes(raw, words, rgb[y], w);
      words := words + RowWords(rgb[y], WsPack);
      RowMajorAppend(rgb, y, WsPack);
    }
    assert rgb[..|rgb|] == rgb;
    RawLength(rgb, w);
  }

  /** The inner loop: the low and then the high byte of each pixel's word
      appended, pixel by pixel along the row. */
  method AppendRowBytes(raw: seq<byte>, ghost words: seq<bv16>, row: seq<Pixel>, w: nat)
    returns (extended: seq<byte>)
    requires |row| == w && raw == LittleEndian16(words)
    ensures extended == LittleEndian16(words + RowWords(row, WsPack))
  {
    extended := raw;
    ghost var done := words;
    for x := 0 to w
      invariant done == words + RowWords(row[..x], WsPack)
      invariant extended == LittleEndian16(done)
    {
      var rgb565 := WsPack(row[x]);
      RowWordsAppend(row, x, WsPack);
      AppendWordBytes(extended, done, rgb565);
      extended := extended + [LowByte(rgb565)];
      extended := extended + [HighByte(rgb565)];
      done := done + [rgb565];
    }
    assert row[..w] == row;
  }

  lemma RawLength(rgb: seq<seq<Pixel>>, w: nat)
    requires Rectangular(rgb, w)
    ensures |LittleEndian16(RowMajor(rgb, WsPack))| == 2 * w * |rgb|
  {
    RowMajorLength(rgb, w, WsPack);
    assert 2 * (|rgb| * w) == 2 * w * |rgb|;
  }

  /** Two `append`s of a word's bytes extend the little-endian bytes by
      that word. */
  lemma AppendWordBytes(raw: seq<byte>, words: seq<bv16>, w: bv16)
    requires raw == LittleEndian16(words)
    ensures raw + [LowByte(w)] + [HighByte(w)] == LittleEndian16(words + [w])
  {
    LittleEndian16Append(words, w);
  }

  /** Pixel (y, x) is the word at bytes 2(wy + x) (low) and 2(wy + x) + 1
      (high). */
  lemma ConvertedPixel(rgb: seq<seq<Pixel>>, w: nat, y: nat, x: nat)
    requires Rectangular(rgb, w) && y < |rgb| && x < w
    ensures var raw := LittleEndian16(RowMajor(rgb, WsPack));
            var k := y * w + x;
            && 2 * k + 1 < |raw|
            && raw[2 * k] == LowByte(HttpClient.PackPixel(rgb[y][x]))
            && raw[2 * k + 1] == HighByte(HttpClient.PackPixel(rgb[y][x]))
  {
    var words := RowMajor(rgb, WsPack);
    var k := y * w + x;
    RowMajorAt(rgb, w, WsPack, y, x);
    assert k < |words| && words[k] == WsPack(rgb[y][x]);
    LittleEndian16At(words, k);
    WsPackIsPackPixel(rgb[y][x]);
  }

  // ----- post_device_inference_result -----

  /** `s.encode('utf-8')[:width].ljust(width, b'\x00')`: cut to the width,
      then NUL-padded to it. */
  function IdField(s: string, width: nat): (f: seq<byte>)
    ensures |f| == width
    ensures |Utf8Encode(s)| <= width ==> f == Utf8Encode(s) + Nuls(width - |Utf8Encode(s)|)
    ensures |Utf8Encode(s)| > width ==> f == Utf8Encode(s)[..width]
  {
    NulPad(Truncate(Utf8Encode(s), width), width)
  }

  /** The frame `post_device_inference_result` sends: the timestamp, the
      9-byte device-id field, the 4-byte message-id field, the layer, the
      output length, the output bytes, the timing byte count and one
      float32 per timing. A number outside its 32-bit range is a
      `struct.error`; the header is always 29 bytes. */
  function WsFrame(timestamp: Double, deviceId: string, messageId: string, layerIndex: int,
                   outputData: seq<byte>, times: seq<Single>): (r: Result<seq<byte>>)
    ensures r.Ok? <==> -TwoTo31 <= layerIndex < TwoTo31 && |outputData| < TwoTo32 && 4 * |times| < TwoTo31
    ensures r.Err? ==> r.error == StructError
    ensures r.Ok? ==> |r.value| == Requests.HeaderSize + |outputData| + 4 + 4 * |times|
  {
    var layer :- PackI32(layerIndex);
    var size :- PackU32(|outputData|);
    var count :- PackI32(4 * |times|);
    Ok(timestamp + IdField(deviceId, 9) + IdField(messageId, 4) + layer + size
       + outputData + count + Flatten(times))
  }

  /** Whatever the ids, the header is 29 bytes: the timestamp takes bytes
      0-7, the device-id field 8-16, the message-id field 17-20, the layer
      21-24 and the output length 25-28, and the output bytes follow. */
  lemma WsFrameHeader(timestamp: Double, deviceId: string, messageId: string, layerIndex: int,
                      outputData: seq<byte>, times: seq<Single>)
    requires WsFrame(timestamp, deviceId, messageId, layerIndex, outputData, times).Ok?
    ensures var frame := WsFrame(timestamp, deviceId, messageId, layerIndex, outputData, times).value;
            && frame[..8] == timestamp
            && frame[8..17] == IdField(deviceId, 9)
            && frame[17..21] == IdField(messageId, 4)
            && frame[21..25] == PackI32(layerIndex).value
            && frame[25..29] == PackU32(|outputData|).value
            && frame[29..29 + |outputData|] == outputData
  {
    var a, b, c := timestamp, IdField(deviceId, 9), IdField(messageId, 4);
    var d, e := PackI32(layerIndex).value, PackU32(|outputData|).value;
    var g := PackI32(4 * |times|).value;
    assert WsFrame(timestamp, deviceId, messageId, layerIndex, outputData, times).value
        == a + b + c + d + e + outputData + g + Flatten(times);
    HeaderParts(a, b, c, d, e, outputData, g, Flatten(times));
  }

  /** Where each part of a frame laid out as 8 + 9 + 4 + 4 + 4 bytes of
      header, then the output, then the rest, sits. */
  lemma HeaderParts(a: seq<byte>, b: seq<byte>, c: seq<byte>, d: seq<byte>, e: seq<byte>,
                    f: seq<byte>, g: seq<byte>, h: seq<byte>)
    requires |a| == 8 && |b| == 9 && |c| == 4 && |d| == 4 && |e| == 4
    ensures var s := a + b + c + d + e + f + g + h;
            && s[..8] == a && s[8..17] == b && s[17..21] == c
            && s[21..25] == d && s[25..29] == e && s[29..29 + |f|] == f
  {
    var s := a + b + c + d + e + f + g + h;
    assert s[..8] == a;
    assert s[8..17] == b;
    assert s[17..21] == c;
    assert s[21..25] == d;
    assert s[25..29] == e;
    assert s[29..29 + |f|] == f;
  }

  /** An output whose length is not a whole number of float32 values is
      refused by the server's parser. */
  lemma MisalignedOutputRejected(topic: string, timestamp: Double, deviceId: string, messageId: string,
                                 layerIndex: int, outputData: seq<byte>, times: seq<Single>)
    requires WsFrame(timestamp, deviceId, messageId, layerIndex, outputData, times).Ok?
    requires |outputData| % 4 != 0
    ensures Requests.FromRaw(topic, WsFrame(timestamp, deviceId, messageId, layerIndex, outputData, times).value).Err?
  {
    var frame := WsFrame(timestamp, deviceId, messageId, layerIndex, outputData, times).value;
    if Requests.FromRaw(topic, frame).Ok? {
      WsFrameHeader(timestamp, deviceId, messageId, layerIndex, outputData, times);
      Requests.FromRawLayout(topic, frame);
      assert false;
    }
  }

  /** The `for t in inf_times` loop: one float32 appended per timing. */
  method AppendTimes(buf: seq<byte>, times: seq<Single>) returns (out: seq<byte>)
    ensures out == buf + Flatten(times)
  {
    out := buf;
    for i := 0 to |times|
      invariant out == buf + Flatten(times[..i])
    {
      FlattenAppend(times[..i], times[i]);
      assert times[..i + 1] == times[..i] + [times[i]];
      out := out + times[i];
    }
    assert times[..|times|] == times;
  }

  /** `post_device_inference_result`, extending the buffer field by field. */
  method PostDeviceInferenceResult(timestamp: Double, deviceId: string, messageId: string,
                                   outputData: seq<byte>, layerIndex: int, times: seq<Single>)
    returns (r: Result<seq<byte>>)
    ensures r == WsFrame(timestamp, deviceId, messageId, layerIndex, outputData, times)
  {
    var buf: seq<byte> := [];
    buf := buf + timestamp;
    buf := buf + IdField(deviceId, 9);
    buf := buf + IdField(messageId, 4);
    var layer :- PackI32(layerIndex);
    buf := buf + layer;
    var size :- PackU32(|outputData|);
    buf := buf + size;
    buf := buf + outputData;
    var count :- PackI32(4 * |times|);
    buf := buf + count;
    buf := AppendTimes(buf, times);
    assert [] + timestamp == timestamp;
    r := Ok(buf);
  }

  /** The server's parser reads back what this client sent when the output
      is a whole number of float32 values and both ids fit their fields:
      the ids with their NUL padding, the layer index, the outputs, the
      timings and the timestamp bytes. */
  lemma ParseAfterPost(topic: string, timestamp: Double, deviceId: string, messageId: string,
                       layerIndex: int, outputData: seq<byte>, times: seq<Single>)
    requires WsFrame(timestamp, deviceId, messageId, layerIndex, outputData, times).Ok?
    requires |outputData| % 4 == 0
    requires |Utf8Encode(deviceId)| <= 9 && |Utf8Encode(messageId)| <= 4
    ensures var output := UnpackSingles(|outputData| / 4, outputData).value;
            Requests.FromRaw(topic, WsFrame(timestamp, deviceId, messageId, layerIndex, outputData, times).value)
            == Ok(Requests.MessageData(
                    topic, deviceId + NulText(9 - |Utf8Encode(deviceId)|),
                    messageId + NulText(4 - |Utf8Encode(messageId)|),
                    Dict(map[IndexKey := Int(layerIndex), OutputKey := Floats(output), TimesKey := Floats(times)]),
                    timestamp, None, None, None, None, None, None, None, None))
  {
    var output := UnpackSingles(|outputData| / 4, outputData).value;
    assert Flatten(output) == outputData;
    IdFieldDecodes(deviceId, 9);
    IdFieldDecodes(messageId, 4);
    HttpClient.FrameIsParserFrame(timestamp, IdField(deviceId, 9), IdField(messageId, 4), output, times, layerIndex);
    Requests.FromRawOfFrame(topic, timestamp, IdField(deviceId, 9), IdField(messageId, 4), layerIndex, output, times);
  }

  /** An id that fits its field decodes to the id followed by NULs. */
  lemma IdFieldDecodes(s: string, width: nat)
    requires |Utf8Encode(s)| <= width
    ensures Utf8Decode(IdField(s, width)) == Ok(s + NulText(width - |Utf8Encode(s)|))
  {
    DecodeNuls(width - |Utf8Encode(s)|);
    Utf8DecodeAfterEncode(s, Nuls(width - |Utf8Encode(s)|));
  }

  /** Ids that fill their fields exactly reach the server unchanged. */
  lemma FullIdsTravel(topic: string, timestamp: Double, deviceId: string, messageId: string,
                      layerIndex: int, outputData: seq<byte>, times: seq<Single>)
    requires |outputData| % 4 == 0
    requires |Utf8Encode(deviceId)| == 9 && |Utf8Encode(messageId)| == 4
    requires WsFrame(timestamp, deviceId, messageId, layerIndex, outputData, times).Ok?
    ensures var parsed := Requests.FromRaw(topic, WsFrame(timestamp, deviceId, messageId,
                                                          layerIndex, outputData, times).value);
            && parsed.Ok?
            && parsed.value.deviceId == deviceId
            && parsed.value.messageId == messageId
  {
    ParseAfterPost(topic, timestamp, deviceId, messageId, layerIndex, outputData, times);
    assert NulText(0) == [];
    assert deviceId + NulText(0) == deviceId;
    assert messageId + NulText(0) == messageId;
  }

  /** The client's own ids fit: "device_01" fills the 9-byte field and a
      generated message id fills the 4-byte one, so both reach the server
      unchanged. */
  lemma OwnIdsTravel(topic: string, timestamp: Double, draw: nat, layerIndex: int,
                     outputData: seq<byte>, times: seq<Single>)
    requires draw < 0x1_0000 && |outputData| % 4 == 0
    requires WsFrame(timestamp, DeviceId, GenerateMessageUuid(draw), layerIndex, outputData, times).Ok?
    ensures var parsed := Requests.FromRaw(topic, WsFrame(timestamp, DeviceId, GenerateMessageUuid(draw),
                                                          layerIndex, outputData, times).value);
            && parsed.Ok?
            && parsed.value.deviceId == DeviceId
            && parsed.value.messageId == GenerateMessageUuid(draw)
  {
    OwnIdsFit(draw);
    FullIdsTravel(topic, timestamp, DeviceId, GenerateMessageUuid(draw), layerIndex, outputData, times);
  }

  lemma OwnIdsFit(draw: nat)
    requires draw < 0x1_0000
    ensures |Utf8Encode(DeviceId)| == 9 && |Utf8Encode(GenerateMessageUuid(draw))| == 4
  {
    DeviceIdFits();
    UuidFits(GenerateMessageUuid(draw));
  }

  lemma DeviceIdFits()
    ensures |Utf8Encode(DeviceId)| == 9
  {
    assert IsAscii(DeviceId);
    AsciiIsUtf8(DeviceId);
  }

  lemma UuidFits(id: string)
    requires |id| == 4 && IsAscii(id)
    ensures |Utf8Encode(id)| == 4
  {
    AsciiIsUtf8(id);
  }

  // ----- handle_messages -----

  /** An incoming message as `handle_messages` sees it: a JSON object with
      its "channel" string and "offloading_layer_index" member, if any, or
      anything else (binary, not JSON, or JSON without `.get`). */
  datatype Incoming =
    | JsonObject(channel: Option<string>, offloadingLayerIndex: Option<int>)
    | Unreadable

  /** The two globals the handler updates. */
  datatype ClientStatus = ClientStatus(deviceRegistered: bool, bestOffloadLayer: Option<int>)

  predicate IsRegistration(m: Incoming) {
    m.JsonObject? && m.channel == Some("registration")
  }

  predicate IsLayerUpdate(m: Incoming) {
    m.JsonObject? && m.channel == Some("offloading_layer")
  }

  /** One message: a registration marks the device registered and takes
      the best layer from the message (None when absent), an offloading-layer
      message takes only the best layer, and anything else changes nothing. */
  function Step(s: ClientStatus, m: Incoming): (t: ClientStatus)
    ensures IsRegistration(m) ==> t.deviceRegistered && t.bestOffloadLayer == m.offloadingLayerIndex
    ensures IsLayerUpdate(m) ==> t.deviceRegistered == s.deviceRegistered
                                 && t.bestOffloadLayer == m.offloadingLayerIndex
    ensures !IsRegistration(m) && !IsLayerUpdate(m) ==> t == s
  {
    match m
    case Unreadable => s
    case JsonObject(channel, index) =>
      if channel == Some("registration") then ClientStatus(true, index)
      else if channel == Some("offloading_layer") then s.(bestOffloadLayer := index)
      else s
  }

  /** The state after a run of messages, handled in order. */
  function Run(s: ClientStatus, ms: seq<Incoming>): ClientStatus {
    if |ms| == 0 then s else Step(Run(s, ms[..|ms| - 1]), ms[|ms| - 1])
  }

  /** The wait loop of `run_client` ends exactly when a registration has
      arrived: the device is registered after a run of messages iff it was
      before or one of them is a registration. */
  lemma {:induction false} RegisteredIffRegistrationSeen(s: ClientStatus, ms: seq<Incoming>)
    ensures Run(s, ms).deviceRegistered <==>
              s.deviceRegistered || exists i :: 0 <= i < |ms| && IsRegistration(ms[i])
  {
    if |ms| > 0 {
      var init := ms[..|ms| - 1];
      RegisteredIffRegistrationSeen(s, init);
      if exists i :: 0 <= i < |init| && IsRegistration(init[i]) {
        var i :| 0 <= i < |init| && IsRegistration(init[i]);
        assert ms[i] == init[i];
      }
      if exists i :: 0 <= i < |ms| && IsRegistration(ms[i]) {
        var i :| 0 <= i < |ms| && IsRegistration(ms[i]);
        if i < |init| {
          assert init[i] == ms[i];
        }
      }
    }
  }

  /** The best layer is the one named by the last registration or
      offloading-layer message. */
  lemma LastUpdateWins(s: ClientStatus, ms: seq<Incoming>, k: nat)
    requires k < |ms| && (IsRegistration(ms[k]) || IsLayerUpdate(ms[k]))
    requires forall j :: k < j < |ms| ==> !IsRegistration(ms[j]) && !IsLayerUpdate(ms[j])
    ensures Run(s, ms).bestOffloadLayer == ms[k].offloadingLayerIndex
  {
    IgnoredTail(s, ms, k + 1);
    assert ms[..k + 1][..k] == ms[..k];
  }

  /** Messages that are neither registrations nor layer updates leave the
      state as it was. */
  lemma {:induction false} IgnoredTail(s: ClientStatus, ms: seq<Incoming>, n: nat)
    requires n <= |ms|
    requires forall j :: n <= j < |ms| ==> !IsRegistration(ms[j]) && !IsLayerUpdate(ms[j])
    ensures Run(s, ms) == Run(s, ms[..n])
  {
    if |ms| > n {
      var init := ms[..|ms| - 1];
      IgnoredTail(s, init, n);
      assert init[..n] == ms[..n];
    } else {
      assert ms[..n] == ms;
    }
  }

  /** The handler's globals, updated in place. */
  class Client {
    var deviceRegistered: bool
    var bestOffloadLayer: Option<int>

    /** A fresh client is unregistered and knows no best layer. */
    constructor()
      ensures Status() == ClientStatus(false, None)
    {
      deviceRegistered := false;
      bestOffloadLayer := None;
    }

    function Status(): ClientStatus
      reads this
    {
      ClientStatus(deviceRegistered, bestOffloadLayer)
    }

    /** The body of the `async for` loop for one message. */
    method HandleMessage(m: Incoming)
      modifies this
      ensures Status() == Step(old(Status()), m)
    {
      match m
      case Unreadable =>
      case JsonObject(channel, index) =>
        if channel == Some("registration") {
          deviceRegistered := true;
          bestOffloadLayer := index;
        } else if channel == Some("offloading_layer") {
          bestOffloadLayer := index;
        }
    }

    /** `handle_messages`: every message of the stream, in order. */
    method HandleMessages(ms: seq<Incoming>)
      modifies this
      ensures Status() == Run(old(Status()), ms)
    {
      for i := 0 to |ms|
        invariant Status() == Run(old(Status()), ms[..i])
      {
        assert ms[..i + 1][..i] == ms[..i];
        HandleMessage(ms[i]);
      }
      assert ms[..|ms|] == ms;
    }
  }
}
