/** Bytes and the fixed-width codes of Python's `struct` module on a
    little-endian host, NUL padding and truncation of byte strings, and the
    ASCII and UTF-8 codecs of `str.encode` and `bytes.decode`.

    float32 and float64 values travel as opaque groups of 4 and 8 bytes: a
    list of float32 values is a list of `Single`, and only timestamps are
    ever read as numbers (`DoubleValue`). */
module Bytes {
  import opened Wrappers

  type byte = x: int | 0 <= x < 256

  /** The four bytes of one float32 value, in memory order. */
  type Single = s: seq<byte> | |s| == 4 witness [0, 0, 0, 0]

  /** The eight bytes of one float64 value, in memory order. */
  type Double = s: seq<byte> | |s| == 8 witness [0, 0, 0, 0, 0, 0, 0, 0]

  // ----- lists of float32 values -----

  /** `tobytes()` of a float32 array, or the concatenation of one
      `struct.pack('<f', ...)` per value. */
  function Flatten(values: seq<Single>): (b: seq<byte>)
    ensures |b| == 4 * |values|
  {
    if |values| == 0 then [] else values[0] + Flatten(values[1..])
  }

  /** `struct.unpack(f'<{n}f', b)`: the bytes must be exactly n groups of
      four, otherwise `struct.error`. */
  function UnpackSingles(n: nat, b: seq<byte>): (r: Result<seq<Single>>)
    ensures r.Ok? <==> |b| == 4 * n
    ensures r.Err? ==> r.error == StructError
    ensures r.Ok? ==> |r.value| == n && Flatten(r.value) == b
  {
    if |b| != 4 * n then Err(StructError)
    else if n == 0 then Ok([])
    else
      var rest := UnpackSingles(n - 1, b[4..]).value;
      var first: Single := b[..4];
      assert [first] + rest == [first] + rest;
      assert ([first] + rest)[1..] == rest;
      assert b == first + b[4..];
      Ok([first] + rest)
  }

  /** Unpacking the bytes of n float32 values gives those values back. */
  lemma {:induction false} UnpackFlatten(values: seq<Single>)
    ensures UnpackSingles(|values|, Flatten(values)) == Ok(values)
  {
    if |values| > 0 {
      var b := Flatten(values);
      assert b[..4] == values[0];
      assert b[4..] == Flatten(values[1..]);
      UnpackFlatten(values[1..]);
      assert values == [values[0]] + values[1..];
    }
  }

  /** One more value appends its four bytes. */
  lemma {:induction false} FlattenAppend(values: seq<Single>, v: Single)
    ensures Flatten(values + [v]) == Flatten(values) + v
  {
    if |values| == 0 {
      assert values + [v] == [v];
    } else {
      assert (values + [v])[1..] == values[1..] + [v];
      FlattenAppend(values[1..], v);
    }
  }

  // ----- 32-bit integers, little-endian -----

  const TwoTo31: int := 0x8000_0000
  const TwoTo32: int := 0x1_0000_0000

  /** The value of four bytes read as an unsigned little-endian integer. */
  function U32Value(b: seq<byte>): (n: nat)
    requires |b| == 4
    ensures n < TwoTo32
  {
    var b0: int, b1: int, b2: int, b3: int := b[0], b[1], b[2], b[3];
    b0 + 0x100 * (b1 + 0x100 * (b2 + 0x100 * b3))
  }

  /** The four little-endian bytes of n: its base-256 digits. */
  function U32Bytes(n: nat): (b: seq<byte>)
    requires n < TwoTo32
    ensures |b| == 4
  {
    DivMod256(n);
    DivMod256(n / 0x100);
    DivMod256(n / 0x100 / 0x100);
    [n % 0x100, n / 0x100 % 0x100, n / 0x100 / 0x100 % 0x100, n / 0x100 / 0x100 / 0x100]
  }

  lemma DivMod256(x: nat)
    ensures x == x / 0x100 * 0x100 + x % 0x100 && x / 0x100 <= x
  {
  }

  /** The quotient and remainder by 256 are the only q, r with
      x == q * 256 + r and 0 <= r < 256. */
  lemma DivModUnique256(x: nat, q: nat, r: nat)
    requires r < 0x100 && x == q * 0x100 + r
    ensures x / 0x100 == q && x % 0x100 == r
  {
  }

  lemma DivMod64(x: nat)
    ensures x == x / 0x40 * 0x40 + x % 0x40 && x / 0x40 <= x
  {
  }

  lemma U32RoundTrip(n: nat)
    requires n < TwoTo32
    ensures U32Value(U32Bytes(n)) == n
  {
    DivMod256(n);
    DivMod256(n / 0x100);
    DivMod256(n / 0x100 / 0x100);
  }

  lemma U32BytesRoundTrip(b: seq<byte>)
    requires |b| == 4
    ensures U32Bytes(U32Value(b)) == b
  {
    var b0: nat, b1: nat, b2: nat, b3: nat := b[0], b[1], b[2], b[3];
    var n := U32Value(b);
    DivModUnique256(n, b1 + 0x100 * (b2 + 0x100 * b3), b0);
    DivModUnique256(n / 0x100, b2 + 0x100 * b3, b1);
    DivModUnique256(n / 0x100 / 0x100, b3, b2);
  }

  /** `struct.pack('<I', n)`: `struct.error` outside [0, 2^32). */
  function PackU32(n: int): (r: Result<seq<byte>>)
    ensures r.Ok? <==> 0 <= n < TwoTo32
    ensures r.Err? ==> r.error == StructError
    ensures r.Ok? ==> |r.value| == 4 && U32Value(r.value) == n
  {
    if 0 <= n < TwoTo32 then U32RoundTrip(n); Ok(U32Bytes(n)) else Err(StructError)
  }

  /** `struct.pack('<i', v)`: two's complement, `struct.error` outside
      [-2^31, 2^31). */
  function PackI32(v: int): (r: Result<seq<byte>>)
    ensures r.Ok? <==> -TwoTo31 <= v < TwoTo31
    ensures r.Err? ==> r.error == StructError
    ensures r.Ok? ==> |r.value| == 4
  {
    if -TwoTo31 <= v < TwoTo31 then Ok(U32Bytes(if v < 0 then v + TwoTo32 else v))
    else Err(StructError)
  }

  /** `struct.unpack('<I', b)[0]`: exactly four bytes, else `struct.error`. */
  function UnpackU32(b: seq<byte>): (r: Result<nat>)
    ensures r.Ok? <==> |b| == 4
    ensures r.Err? ==> r.error == StructError
    ensures r.Ok? ==> r.value < TwoTo32
  {
    if |b| == 4 then Ok(U32Value(b)) else Err(StructError)
  }

  /** `struct.unpack('<i', b)[0]`: exactly four bytes, else `struct.error`. */
  function UnpackI32(b: seq<byte>): (r: Result<int>)
    ensures r.Ok? <==> |b| == 4
    ensures r.Err? ==> r.error == StructError
    ensures r.Ok? ==> -TwoTo31 <= r.value < TwoTo31
  {
    if |b| != 4 then Err(StructError)
    else
      var u := U32Value(b);
      Ok(if u >= TwoTo31 then u - TwoTo32 else u)
  }

  /** Packing and unpacking an unsigned value is the identity. */
  lemma UnpackPackU32(n: int)
    requires 0 <= n < TwoTo32
    ensures UnpackU32(PackU32(n).value) == Ok(n)
  {
  }

  /** Packing and unpacking a signed value is the identity. */
  lemma UnpackPackI32(v: int)
    requires -TwoTo31 <= v < TwoTo31
    ensures UnpackI32(PackI32(v).value) == Ok(v)
  {
    U32RoundTrip(if v < 0 then v + TwoTo32 else v);
  }

  // ----- float64 timestamps -----

  function Pow2(e: nat): (p: nat)
    ensures p >= 1
  {
    if e == 0 then 1 else 2 * Pow2(e - 1)
  }

  /** The unsigned little-endian value of any number of bytes. */
  function LeValue(b: seq<byte>): nat {
    if |b| == 0 then 0 else b[0] + 0x100 * LeValue(b[1..])
  }

  /** The number an IEEE 754 binary64 value stands for, or None for an
      infinity or a NaN. */
  function DoubleValue(d: Double): (r: Option<real>)
    ensures r.None? <==> (LeValue(d) / Pow2(52)) % 2048 == 2047
  {
    var bits := LeValue(d);
    var negative := bits / Pow2(63) % 2 == 1;
    var exponent := (bits / Pow2(52)) % 2048;
    var fraction := bits % Pow2(52);
    if exponent == 2047 then None
    else
      var magnitude: real :=
        if exponent == 0 then (fraction as real) / (Pow2(1074) as real)
        else if exponent >= 1075 then ((Pow2(52) + fraction) * Pow2(exponent - 1075)) as real
        else ((Pow2(52) + fraction) as real) / (Pow2(1075 - exponent) as real);
      Some(if negative then -magnitude else magnitude)
  }

  // ----- byte strings -----

  function Nuls(n: nat): (b: seq<byte>)
    ensures |b| == n && forall i :: 0 <= i < n ==> b[i] == 0
  {
    if n == 0 then [] else [0] + Nuls(n - 1)
  }

  /** `b.ljust(width, b'\x00')`: NUL bytes appended up to `width`; a longer
      string is kept whole. */
  function NulPad(b: seq<byte>, width: nat): (r: seq<byte>)
    ensures |b| <= width ==> |r| == width && r[..|b|] == b && r[|b|..] == Nuls(width - |b|)
    ensures |b| > width ==> r == b
  {
    if |b| >= width then b else b + Nuls(width - |b|)
  }

  /** `b[:n]`. */
  function Truncate(b: seq<byte>, n: nat): (r: seq<byte>)
    ensures |r| == if |b| <= n then |b| else n
    ensures r == b[..|r|]
  {
    if |b| <= n then b else b[..n]
  }

  /** `b[start:end]` for 0 <= start: clipped to the string, empty when
      `end <= start`. */
  function Slice(b: seq<byte>, start: nat, end: int): (r: seq<byte>)
    ensures start <= end <= |b| ==> r == b[start..end]
    ensures |r| == if start >= |b| || end <= start then 0
                   else (if end <= |b| then end else |b|) - start
  {
    var e := if end <= |b| then end else |b|;
    if start >= |b| || e <= start then [] else b[start..e]
  }

  // ----- text codecs -----

  predicate IsAscii(s: string) {
    forall i :: 0 <= i < |s| ==> s[i] as int < 128
  }

  /** `s.encode("ascii")`: one byte per character, UnicodeEncodeError for
      anything beyond U+007F. */
  function AsciiEncode(s: string): (r: Result<seq<byte>>)
    ensures r.Ok? <==> IsAscii(s)
    ensures r.Err? ==> r.error == UnicodeEncodeError
    ensures r.Ok? ==> |r.value| == |s| && forall i :: 0 <= i < |s| ==> r.value[i] == s[i] as int
  {
    if |s| == 0 then Ok([])
    else if s[0] as int >= 128 then Err(UnicodeEncodeError)
    else
      var rest := AsciiEncode(s[1..]);
      if rest.Err? then Err(UnicodeEncodeError)
      else Ok([s[0] as int] + rest.value)
  }

  /** The UTF-8 encoding of one character (RFC 3629, section 3): the
      scalar value's base-64 digits behind the lead-byte and continuation
      markers. */
  function EncodeChar(c: char): (b: seq<byte>)
    ensures 1 <= |b| <= 4
  {
    var v: nat := c as int;
    var q1, q2, q3 := v / 0x40, v / 0x40 / 0x40, v / 0x40 / 0x40 / 0x40;
    DivMod64(v);
    DivMod64(q1);
    DivMod64(q2);
    if v < 0x80 then [v]
    else if v < 0x800 then [0xC0 + q1, 0x80 + v % 0x40]
    else if v < 0x1_0000 then [0xE0 + q2, 0x80 + q1 % 0x40, 0x80 + v % 0x40]
    else [0xF0 + q3, 0x80 + q2 % 0x40, 0x80 + q1 % 0x40, 0x80 + v % 0x40]
  }

  /** `s.encode("utf-8")`. */
  function Utf8Encode(s: string): seq<byte> {
    if |s| == 0 then [] else EncodeChar(s[0]) + Utf8Encode(s[1..])
  }

  predicate IsContinuation(b: byte) {
    0x80 <= b < 0xC0
  }

  /** The length of the well-formed UTF-8 sequence at the start of `b`, or
      0 when it does not start with one (RFC 3629, section 4): no overlong
      form, no surrogate, nothing above U+10FFFF. */
  function SequenceLength(b: seq<byte>): (n: nat)
    ensures n <= 4 && n <= |b|
    ensures n > 0 ==> |b| > 0
  {
    if |b| == 0 then 0
    else if b[0] < 0x80 then 1
    else if 0xC2 <= b[0] <= 0xDF then
      if |b| >= 2 && IsContinuation(b[1]) then 2 else 0
    else if 0xE0 <= b[0] <= 0xEF then
      var lo := if b[0] == 0xE0 then 0xA0 else 0x80;
      var hi := if b[0] == 0xED then 0x9F else 0xBF;
      if |b| >= 3 && lo <= b[1] <= hi && IsContinuation(b[2]) then 3 else 0
    else if 0xF0 <= b[0] <= 0xF4 then
      var lo := if b[0] == 0xF0 then 0x90 else 0x80;
      var hi := if b[0] == 0xF4 then 0x8F else 0xBF;
      if |b| >= 4 && lo <= b[1] <= hi && IsContinuation(b[2]) && IsContinuation(b[3]) then 4 else 0
    else 0
  }

  /** The scalar value of the well-formed sequence at the start of `b`. */
  function SequenceValue(b: seq<byte>): (v: int)
    requires SequenceLength(b) > 0
    ensures 0 <= v < 0xD800 || 0xE000 <= v < 0x11_0000
  {
    var n := SequenceLength(b);
    var b0: int := b[0];
    if n == 1 then b0
    else
      var b1: int := b[1];
      if n == 2 then (b0 - 0xC0) * 0x40 + (b1 - 0x80)
      else
        var b2: int := b[2];
        if n == 3 then ((b0 - 0xE0) * 0x40 + (b1 - 0x80)) * 0x40 + (b2 - 0x80)
        else
          var b3: int := b[3];
          (((b0 - 0xF0) * 0x40 + (b1 - 0x80)) * 0x40 + (b2 - 0x80)) * 0x40 + (b3 - 0x80)
  }

  /** `b.decode()` (UTF-8, strict): UnicodeDecodeError on the first
      ill-formed sequence. */
  function Utf8Decode(b: seq<byte>): (r: Result<string>)
    ensures r.Err? ==> r.error == UnicodeDecodeError
    decreases |b|
  {
    if |b| == 0 then Ok("")
    else
      var n := SequenceLength(b);
      if n == 0 then Err(UnicodeDecodeError)
      else
        var rest := Utf8Decode(b[n..]);
        if rest.Err? then rest
        else Ok([SequenceValue(b) as char] + rest.value)
  }

  /** Each encoded character starts with a well-formed sequence of its own
      length that decodes to it. */
  lemma EncodeCharDecodes(c: char, rest: seq<byte>)
    ensures var b := EncodeChar(c) + rest;
            SequenceLength(b) == |EncodeChar(c)| && SequenceValue(b) == c as int
  {
    var v: nat := c as int;
    var e := EncodeChar(c);
    var b := e + rest;
    assert b[..|e|] == e;
    DivMod64(v);
    DivMod64(v / 0x40);
    DivMod64(v / 0x40 / 0x40);
    if v < 0x80 {
    } else if v < 0x800 {
      EncodeTwo(v, b);
    } else if v < 0x1_0000 {
      EncodeThree(v, b);
    } else {
      EncodeFour(v, b);
    }
  }

  lemma EncodeTwo(v: nat, b: seq<byte>)
    requires 0x80 <= v < 0x800 && |b| >= 2
    requires b[0] == 0xC0 + v / 0x40 && b[1] == 0x80 + v % 0x40
    ensures SequenceLength(b) == 2 && SequenceValue(b) == v
  {
    DivMod64(v);
  }

  lemma EncodeThree(v: nat, b: seq<byte>)
    requires 0x800 <= v < 0x1_0000 && (v < 0xD800 || 0xE000 <= v) && |b| >= 3
    requires b[0] == 0xE0 + v / 0x40 / 0x40
    requires b[1] == 0x80 + v / 0x40 % 0x40 && b[2] == 0x80 + v % 0x40
    ensures SequenceLength(b) == 3 && SequenceValue(b) == v
  {
    DivMod64(v);
    DivMod64(v / 0x40);
  }

  lemma EncodeFour(v: nat, b: seq<byte>)
    requires 0x1_0000 <= v < 0x11_0000 && |b| >= 4
    requires b[0] == 0xF0 + v / 0x40 / 0x40 / 0x40
    requires b[1] == 0x80 + v / 0x40 / 0x40 % 0x40
    requires b[2] == 0x80 + v / 0x40 % 0x40 && b[3] == 0x80 + v % 0x40
    ensures SequenceLength(b) == 4 && SequenceValue(b) == v
  {
    DivMod64(v);
    DivMod64(v / 0x40);
    DivMod64(v / 0x40 / 0x40);
  }

  /** Decoding the UTF-8 encoding of a text followed by well-formed bytes
      gives the text followed by their decoding. */
  lemma {:induction false} Utf8DecodeAfterEncode(s: string, tail: seq<byte>)
    requires Utf8Decode(tail).Ok?
    ensures Utf8Decode(Utf8Encode(s) + tail) == Ok(s + Utf8Decode(tail).value)
  {
    var text := Utf8Decode(tail).value;
    if |s| == 0 {
      assert s == [];
      assert Utf8Encode(s) + tail == tail;
      assert s + text == text;
    } else {
      var rest := Utf8Encode(s[1..]) + tail;
      Utf8DecodeAfterEncode(s[1..], tail);
      DecodeEncodedChar(s[0], rest);
      EncodeConsTail(s, tail);
      ConsText(s, text);
    }
  }

  /** Decoding the UTF-8 encoding of a text gives the text back. */
  lemma Utf8RoundTrip(s: string)
    ensures Utf8Decode(Utf8Encode(s)) == Ok(s)
  {
    Utf8DecodeAfterEncode(s, []);
    assert Utf8Encode(s) + [] == Utf8Encode(s);
    assert s + "" == s;
  }

  /** For ASCII text the two codecs agree. */
  lemma {:induction false} AsciiIsUtf8(s: string)
    requires IsAscii(s)
    ensures AsciiEncode(s) == Ok(Utf8Encode(s))
  {
    if |s| > 0 {
      AsciiIsUtf8(s[1..]);
    }
  }

  /** NUL bytes decode to NUL characters. */
  lemma {:induction false} DecodeNuls(n: nat)
    ensures Utf8Decode(Nuls(n)) == Ok(NulText(n))
  {
    if n > 0 {
      DecodeNuls(n - 1);
      assert Nuls(n)[1..] == Nuls(n - 1);
      assert SequenceLength(Nuls(n)) == 1 && SequenceValue(Nuls(n)) == 0;
    }
  }

  /** n NUL characters. */
  function NulText(n: nat): (s: string)
    ensures |s| == n && forall i :: 0 <= i < n ==> s[i] == '\0'
  {
    if n == 0 then "" else ['\0'] + NulText(n - 1)
  }

  /** One step of decoding: a well-formed first sequence, then the rest. */
  lemma DecodeCons(b: seq<byte>)
    requires SequenceLength(b) > 0 && Utf8Decode(b[SequenceLength(b)..]).Ok?
    ensures Utf8Decode(b)
            == Ok([SequenceValue(b) as char] + Utf8Decode(b[SequenceLength(b)..]).value)
  {
  }

  /** Decoding an encoded character followed by well-formed bytes. */
  lemma DecodeEncodedChar(c: char, rest: seq<byte>)
    requires Utf8Decode(rest).Ok?
    ensures Utf8Decode(EncodeChar(c) + rest) == Ok([c] + Utf8Decode(rest).value)
  {
    var b := EncodeChar(c) + rest;
    EncodeCharDecodes(c, rest);
    assert b[|EncodeChar(c)|..] == rest;
    DecodeCons(b);
  }

  lemma EncodeConsTail(s: string, tail: seq<byte>)
    requires |s| > 0
    ensures Utf8Encode(s) + tail == EncodeChar(s[0]) + (Utf8Encode(s[1..]) + tail)
  {
  }

  lemma ConsText(s: string, t: string)
    requires |s| > 0
    ensures s + t == [s[0]] + (s[1..] + t)
  {
  }
}
