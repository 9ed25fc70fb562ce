/** The server's decoder of raw RGB565 images into 8-bit RGB pixel rows
    (`ModelInputConverter.convert_rgb565_to_nparray`), and what it makes of
    an image the HTTP client uploaded. */
module InputConverter {
  import opened Wrappers
  import opened Bytes
  import opened Images
  import HttpClient

  /** One decoded pixel: `[r, g, b]`, each an 8-bit value. */
  datatype Rgb = Rgb(r: byte, g: byte, b: byte)

  // ----- the fields of a word -----

  /** `p >> 11`, `(p >> 5) & 0x3f` and `p & 0x1f` of a 16-bit word. */
  function RedField(p: nat): nat { p / 0x800 }
  function GreenField(p: nat): nat { p / 0x20 % 0x40 }
  function BlueField(p: nat): nat { p % 0x20 }

  /** The three fields are 5, 6 and 5 bits wide and spell the word. */
  lemma FieldsSpellWord(p: nat)
    requires p < 0x1_0000
    ensures RedField(p) < 32 && GreenField(p) < 64 && BlueField(p) < 32
    ensures p == RedField(p) * 0x800 + GreenField(p) * 0x20 + BlueField(p)
  {
    var q := p / 0x20;
    assert p == q * 0x20 + p % 0x20;
    assert q == q / 0x40 * 0x40 + q % 0x40;
    assert q / 0x40 == p / 0x800 by {
      DivModUnique(p, q / 0x40, q % 0x40 * 0x20 + p % 0x20, 0x800);
    }
  }

  /** Words with given fields: the decomposition is unique. */
  lemma FieldsOf(p: nat, red: nat, green: nat, blue: nat)
    requires red < 32 && green < 64 && blue < 32
    requires p == red * 0x800 + (green * 0x20 + blue)
    ensures RedField(p) == red && GreenField(p) == green && BlueField(p) == blue
  {
    DivModUnique(p, red, green * 0x20 + blue, 0x800);
    DivModUnique(p, red * 0x40 + green, blue, 0x20);
    DivModUnique(red * 0x40 + green, red, green, 0x40);
  }

  lemma DivModUnique(x: nat, q: nat, r: nat, d: nat)
    requires d == 0x800 || d == 0x40 || d == 0x20
    requires r < d && x == q * d + r
    ensures x / d == q && x % d == r
  {
  }

  // ----- scaling a field to 8 bits -----

  /** `int(round(f * 255 / max))` for max 31 or 63, in integers: no
      quotient lies halfway between two integers, so rounding is to the
      nearest. */
  function Scale(f: nat, max: nat): nat
    requires max == 31 || max == 63
  {
    (2 * 255 * f + max) / (2 * max)
  }

  /** A field within its range scales into [0, 255], 0 to 0 and the top
      value to 255. */
  lemma ScaleRange(f: nat, max: nat)
    requires max == 31 || max == 63
    requires f <= max
    ensures Scale(f, max) <= 255
    ensures f == 0 ==> Scale(f, max) == 0
    ensures f == max ==> Scale(f, max) == 255
  {
  }

  /** Scaling is monotone in the field. */
  lemma ScaleMonotone(f: nat, f': nat, max: nat)
    requires max == 31 || max == 63
    requires f <= f'
    ensures Scale(f, max) <= Scale(f', max)
  {
  }

  /** The scaled value is less than one half away from 255 f / max, so it
      is what `round` gives: there is no tie to break. */
  lemma ScaleIsNearest(f: nat, max: nat)
    requires max == 31 || max == 63
    ensures var exact := (255 * f) as real / max as real;
            -0.5 < Scale(f, max) as real - exact < 0.5
  {
    if max == 31 {
      NearestFiveBits(f);
    } else {
      NearestSixBits(f);
    }
  }

  /** ScaleIsNearest for the 5-bit fields. */
  lemma NearestFiveBits(f: nat)
    ensures -0.5 < Scale(f, 31) as real - (255 * f) as real / 31.0 < 0.5
  {
    GapFiveBits(f);
    RealGap(Scale(f, 31), 255 * f, 31);
  }

  /** ScaleIsNearest for the 6-bit field. */
  lemma NearestSixBits(f: nat)
    ensures -0.5 < Scale(f, 63) as real - (255 * f) as real / 63.0 < 0.5
  {
    GapSixBits(f);
    RealGap(Scale(f, 63), 255 * f, 63);
  }

  /** 62 q lies within 31 of 510 f: below by the division, and not 31 above,
      an odd distance from an even number. */
  lemma GapFiveBits(f: nat)
    ensures -31 < 62 * Scale(f, 31) - 510 * f < 31
  {
    var x := 510 * f + 31;
    var q := x / 62;
    assert x == q * 62 + x % 62;
    assert q == Scale(f, 31);
    TwiceIsNot(31 * q - 255 * f, 31);
  }

  /** 126 q lies within 63 of 510 f. */
  lemma GapSixBits(f: nat)
    ensures -63 < 126 * Scale(f, 63) - 510 * f < 63
  {
    var x := 510 * f + 63;
    var q := x / 126;
    assert x == q * 126 + x % 126;
    assert q == Scale(f, 63);
    TwiceIsNot(63 * q - 255 * f, 63);
  }

  /** An integer gap of less than m / 2 between m q and n, read over the
      reals. */
  lemma RealGap(q: int, n: int, m: int)
    requires m == 31 || m == 63
    requires -m < 2 * m * q - 2 * n < m
    ensures -0.5 < q as real - n as real / m as real < 0.5
  {
    if m == 31 {
      assert -31.0 < 62.0 * q as real - 2.0 * n as real < 31.0;
    } else {
      assert -63.0 < 126.0 * q as real - 2.0 * n as real < 63.0;
    }
  }

  /** No other integer is that close. */
  lemma NearestIsUnique(f: nat, max: nat, n: int)
    requires max == 31 || max == 63
    requires var exact := (255 * f) as real / max as real;
             -0.5 < n as real - exact < 0.5
    ensures n == Scale(f, max)
  {
    ScaleIsNearest(f, max);
  }

  /** An even number equals no odd one. */
  lemma TwiceIsNot(k: int, m: int)
    requires m == 31 || m == 63
    ensures 2 * k != m
  {
  }

  /** One word decoded: each field scaled to 8 bits. */
  function DecodePixel(p: nat): (px: Rgb)
    requires p < 0x1_0000
    ensures px.r as nat == Scale(RedField(p), 31)
    ensures px.g as nat == Scale(GreenField(p), 63)
    ensures px.b as nat == Scale(BlueField(p), 31)
  {
    FieldsSpellWord(p);
    ScaleRange(RedField(p), 31);
    ScaleRange(GreenField(p), 63);
    ScaleRange(BlueField(p), 31);
    Rgb(Scale(RedField(p), 31), Scale(GreenField(p), 63), Scale(BlueField(p), 31))
  }

  // ----- unpacking and decoding -----

  /** The big-endian word at bytes 2n and 2n + 1. */
  function WordAt(image: seq<byte>, n: nat): (p: nat)
    requires 2 * n + 1 < |image|
    ensures p < 0x1_0000
  {
    image[2 * n] as int * 0x100 + image[2 * n + 1] as int
  }

  /** `struct.unpack(f'>{n}H', s)`: n big-endian words; any other length
      is `struct.error`. */
  function UnpackWords(n: nat, s: seq<byte>): (r: Result<seq<nat>>)
    ensures r.Ok? <==> |s| == 2 * n
    ensures r.Err? ==> r.error == StructError
    ensures r.Ok? ==> |r.value| == n
  {
    if |s| != 2 * n then Err(StructError)
    else Ok(seq(n, k requires 0 <= k < n => WordAt(s, k)))
  }

  /** Unpacking the bytes `struct.pack(f'>{n}H', ...)` writes gives the
      words back. */
  lemma UnpackAfterPack(words: seq<bv16>)
    ensures UnpackWords(|words|, BigEndian16(words)).Ok?
    ensures forall k :: 0 <= k < |words| ==> UnpackWords(|words|, BigEndian16(words)).value[k] == words[k] as int
  {
    forall k | 0 <= k < |words|
      ensures UnpackWords(|words|, BigEndian16(words)).value[k] == words[k] as int
    {
      BigEndian16At(words, k);
      WordBytes(words[k]);
    }
  }

  /** Row i of the decoded image: the words at 2(i * width + j); empty
      when the image ends before the row does. */
  function DecodedRow(image: seq<byte>, i: nat, width: nat): (row: seq<Rgb>)
    ensures RowEnd(i, width) <= |image| ==> |row| == width
  {
    if |image| < RowEnd(i, width) then []
    else
      seq(width, j requires 0 <= j < width =>
        CellInRow(i, j, width);
        DecodePixel(WordAt(image, i * width + j)))
  }

  lemma CellInRow(i: nat, j: nat, width: nat)
    requires j < width
    ensures 2 * (i * width + j) + 1 < RowEnd(i, width)
  {
  }

  /** What `convert_rgb565_to_nparray(image, height, width)` computes:
      struct.error when the image is shorter than height rows of width
      words, otherwise height rows of width decoded pixels; trailing bytes
      are ignored. */
  function DecodeImage(image: seq<byte>, height: nat, width: nat): (r: Result<seq<seq<Rgb>>>)
    ensures r.Ok? <==> height * width * 2 <= |image|
    ensures r.Err? ==> r.error == StructError
    ensures r.Ok? ==> |r.value| == height && Rectangular(r.value, width)
  {
    if |image| < height * width * 2 then Err(StructError)
    else
      AllRowsInImage(height, width);
      Ok(seq(height, i requires 0 <= i < height => DecodedRow(image, i, width)))
  }

  /** The first byte of row i. */
  function RowStart(i: nat, width: nat): nat {
    i * width * 2
  }

  /** The byte just after row i. */
  function RowEnd(i: nat, width: nat): nat {
    RowStart(i, width) + 2 * width
  }

  /** Row i + 1 starts where row i ends. */
  lemma NextRow(i: nat, width: nat)
    ensures RowStart(i + 1, width) == RowEnd(i, width)
  {
    assert (i + 1) * width * 2 == i * width * 2 + width * 2;
  }

  lemma AllRowsInImage(height: nat, width: nat)
    ensures forall i: nat :: i < height ==> RowEnd(i, width) <= height * width * 2
  {
    forall i: nat | i < height
      ensures RowEnd(i, width) <= height * width * 2
    {
      RowInImage(i, height, width);
    }
  }

  lemma RowInImage(i: nat, height: nat, width: nat)
    requires i < height
    ensures RowEnd(i, width) <= height * width * 2
  {
    NextRow(i, width);
    MulMonotone(i + 1, height, width * 2);
    assert (i + 1) * width * 2 == (i + 1) * (width * 2);
    assert height * width * 2 == height * (width * 2);
  }

  lemma MulMonotone(a: nat, b: nat, c: nat)
    requires a <= b
    ensures a * c <= b * c
  {
  }

  /** Pixel (i, j) of the result decodes the big-endian word at bytes
      2(i * width + j) and 2(i * width + j) + 1. */
  lemma DecodedPixelAt(image: seq<byte>, height: nat, width: nat, i: nat, j: nat)
    requires DecodeImage(image, height, width).Ok?
    requires i < height && j < width
    ensures 2 * (i * width + j) + 1 < |image|
    ensures DecodeImage(image, height, width).value[i][j] == DecodePixel(WordAt(image, i * width + j))
  {
    RowInImage(i, height, width);
    CellInRow(i, j, width);
  }


  /** `convert_rgb565_to_nparray`: one slice and one `struct.unpack` per
      row. */
  method ConvertRgb565ToArray(image: seq<byte>, height: nat, width: nat) returns (r: Result<seq<seq<Rgb>>>)
    ensures r == DecodeImage(image, height, width)
  {
    var imageArray: seq<seq<Rgb>> := [];
    for i := 0 to height
      invariant RowStart(i, width) <= |image|
      invariant |imageArray| == i
      invariant forall i' :: 0 <= i' < i ==> imageArray[i'] == DecodedRow(image, i', width)
    {
      NextRow(i, width);
      var s := Slice(image, i * width * 2, (i + 1) * width * 2);
      var pixels := UnpackWords(width, s);
      if pixels.Err? {
        ShortImage(image, i, height, width);
        return Err(StructError);
      }
      var row := DecodeRowWords(image, s, i, width);
      imageArray := imageArray + [row];
    }
    WholeImage(image, imageArray, height, width);
    r := Ok(imageArray);
  }

  /** The inner loop: one decoded pixel appended per word of the row. */
  method DecodeRowWords(image: seq<byte>, s: seq<byte>, i: nat, width: nat) returns (row: seq<Rgb>)
    requires RowEnd(i, width) <= |image|
    requires s == image[RowStart(i, width)..RowEnd(i, width)]
    ensures row == DecodedRow(image, i, width)
  {
    var pixels := UnpackWords(width, s).value;
    row := [];
    for j := 0 to width
      invariant |row| == j
      invariant forall k :: 0 <= k < j ==> row[k] == DecodedRow(image, i, width)[k]
    {
      WordInRow(image, s, i, j, width);
      row := row + [DecodePixel(pixels[j])];
    }
  }

  /** Word j of row i's slice is the word at 2(i * width + j). */
  lemma WordInRow(image: seq<byte>, s: seq<byte>, i: nat, j: nat, width: nat)
    requires RowEnd(i, width) <= |image| && j < width
    requires s == image[RowStart(i, width)..RowEnd(i, width)]
    ensures UnpackWords(width, s).Ok?
    ensures UnpackWords(width, s).value[j] == WordAt(image, i * width + j)
    ensures DecodedRow(image, i, width)[j] == DecodePixel(UnpackWords(width, s).value[j])
  {
    CellInRow(i, j, width);
    assert RowStart(i, width) + 2 * j == 2 * (i * width + j);
  }

  lemma ShortImage(image: seq<byte>, i: nat, height: nat, width: nat)
    requires i < height && |image| < RowEnd(i, width)
    ensures DecodeImage(image, height, width) == Err(StructError)
  {
    RowInImage(i, height, width);
  }

  lemma WholeImage(image: seq<byte>, rows: seq<seq<Rgb>>, height: nat, width: nat)
    requires height * width * 2 <= |image| && |rows| == height
    requires forall i :: 0 <= i < height ==> rows[i] == DecodedRow(image, i, width)
    ensures DecodeImage(image, height, width) == Ok(rows)
  {
    var decoded := DecodeImage(image, height, width).value;
    assert forall i :: 0 <= i < height ==> decoded[i] == rows[i];
    assert decoded == rows;
  }

  // ----- after the HTTP client's upload -----

  /** The fields of a word read as a number are its bit fields. */
  lemma FieldsOfWord(w: bv16)
    ensures RedField(w as int) == (w >> 11) as int
    ensures GreenField(w as int) == ((w >> 5) & 0x3F) as int
    ensures BlueField(w as int) == (w & 0x1F) as int
  {
    Split11(w);
    Split5(w);
    FieldsOf(w as int, (w >> 11) as int, ((w >> 5) & 0x3F) as int, (w & 0x1F) as int);
  }

  /** On a word the HTTP client packed, the fields are the top 5, 6 and 5
      bits of the encoder's red, green and blue. */
  lemma FieldsOfPackedPixel(p: Pixel)
    ensures var w := HttpClient.PackPixel(p) as int;
            && RedField(w) == (p.r >> 3) as int
            && GreenField(w) == (p.g >> 2) as int
            && BlueField(w) == (p.b >> 3) as int
  {
    var w := HttpClient.PackPixel(p);
    HttpClient.PackPixelFields(p);
    FieldsOfWord(w);
    Widen(p.r >> 3);
    Widen(p.g >> 2);
    Widen(p.b >> 3);
  }

  lemma Widen(x: bv8)
    ensures (x as bv16) as int == x as int
  {
  }

  lemma Split11(w: bv16)
    ensures w as int == (w >> 11) as int * 0x800 + (w & 0x7FF) as int
    ensures (w >> 11) as int < 32
  {
  }

  lemma Split5(w: bv16)
    ensures (w & 0x7FF) as int == ((w >> 5) & 0x3F) as int * 0x20 + (w & 0x1F) as int
  {
  }

  /** Decoding an upload of the HTTP client: a 96 x 96 image whose pixel
      (i, j) holds the scaled top bits of the original pixel. */
  lemma DecodeUpload(data: seq<seq<Pixel>>, i: nat, j: nat)
    requires |data| == HttpClient.ImageSide && Rectangular(data, HttpClient.ImageSide)
    requires i < HttpClient.ImageSide && j < HttpClient.ImageSide
    ensures var image := BigEndian16(RowMajor(data, HttpClient.PackPixel));
            var decoded := DecodeImage(image, HttpClient.ImageSide, HttpClient.ImageSide);
            && decoded.Ok?
            && decoded.value[i][j] == Rgb(Scale((data[i][j].r >> 3) as int, 31),
                                          Scale((data[i][j].g >> 2) as int, 63),
                                          Scale((data[i][j].b >> 3) as int, 31))
  {
    var image := BigEndian16(RowMajor(data, HttpClient.PackPixel));
    var side := HttpClient.ImageSide;
    RowMajorLength(data, side, HttpClient.PackPixel);
    HttpClient.SendImagePixel(data, i, j);
    DecodedPixelAt(image, side, side, i, j);
    var w := HttpClient.PackPixel(data[i][j]);
    WordBytes(w);
    assert WordAt(image, i * side + j) == w as int;
    FieldsOfPackedPixel(data[i][j]);
  }
}
