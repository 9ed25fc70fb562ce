/** Images as the clients hold them (rows of 8-bit RGB pixels, as a NumPy
    `uint8` array of shape height x width x 3), their row-major flattening
    into 16-bit RGB565 words, and the two byte orders those words travel
    in. */
module Images {
  import opened Bytes

  /** One pixel of an RGB image: `rgb[y, x]`. */
  datatype Pixel = Pixel(r: bv8, g: bv8, b: bv8)

  /** Every row has `width` pixels. */
  predicate Rectangular<T>(rows: seq<seq<T>>, width: nat) {
    forall y :: 0 <= y < |rows| ==> |rows[y]| == width
  }

  /** The words of one row, left to right. */
  function RowWords(row: seq<Pixel>, pack: Pixel -> bv16): (words: seq<bv16>)
    ensures |words| == |row|
    ensures forall x :: 0 <= x < |row| ==> words[x] == pack(row[x])
  {
    seq(|row|, x requires 0 <= x < |row| => pack(row[x]))
  }

  /** The words of an image, row after row (y outer, x inner). */
  function RowMajor(rows: seq<seq<Pixel>>, pack: Pixel -> bv16): seq<bv16> {
    if |rows| == 0 then []
    else RowMajor(rows[..|rows| - 1], pack) + RowWords(rows[|rows| - 1], pack)
  }

  /** One more row appends that row's words. */
  lemma RowMajorAppend(rows: seq<seq<Pixel>>, y: nat, pack: Pixel -> bv16)
    requires y < |rows|
    ensures RowMajor(rows[..y + 1], pack) == RowMajor(rows[..y], pack) + RowWords(rows[y], pack)
  {
    assert rows[..y + 1][..y] == rows[..y];
  }

  /** One more pixel appends that pixel's word. */
  lemma RowWordsAppend(row: seq<Pixel>, x: nat, pack: Pixel -> bv16)
    requires x < |row|
    ensures RowWords(row[..x + 1], pack) == RowWords(row[..x], pack) + [pack(row[x])]
  {
  }

  /** Of a rectangular image, word y * width + x is the word of pixel (y, x). */
  lemma {:induction false} RowMajorAt(rows: seq<seq<Pixel>>, width: nat, pack: Pixel -> bv16, y: nat, x: nat)
    requires Rectangular(rows, width) && y < |rows| && x < width
    ensures |RowMajor(rows, pack)| == |rows| * width
    ensures y * width + x < |rows| * width
    ensures RowMajor(rows, pack)[y * width + x] == pack(rows[y][x])
  {
    var n := |rows| - 1;
    var init := rows[..n];
    assert Rectangular(init, width);
    RowMajorLength(init, width, pack);
    assert |rows| * width == n * width + width;
    if y < n {
      RowMajorAt(init, width, pack, y, x);
      assert init[y] == rows[y];
    } else {
      assert y * width == n * width;
    }
  }

  lemma {:induction false} RowMajorLength(rows: seq<seq<Pixel>>, width: nat, pack: Pixel -> bv16)
    requires Rectangular(rows, width)
    ensures |RowMajor(rows, pack)| == |rows| * width
  {
    if |rows| > 0 {
      var n := |rows| - 1;
      assert Rectangular(rows[..n], width);
      RowMajorLength(rows[..n], width, pack);
      assert |rows| * width == n * width + width;
    }
  }

  /** Packings that agree on every pixel flatten every image alike. */
  lemma {:induction false} RowMajorCongruent(rows: seq<seq<Pixel>>, pack: Pixel -> bv16, pack': Pixel -> bv16)
    requires forall p :: pack(p) == pack'(p)
    ensures RowMajor(rows, pack) == RowMajor(rows, pack')
  {
    if |rows| > 0 {
      RowMajorCongruent(rows[..|rows| - 1], pack, pack');
    }
  }

  /** The high and the low byte of a word. */
  function HighByte(w: bv16): byte {
    (w >> 8) as int
  }

  function LowByte(w: bv16): byte {
    (w & 0xFF) as int
  }

  /** The two bytes give the word back. */
  lemma WordBytes(w: bv16)
    ensures w as int == HighByte(w) * 0x100 + LowByte(w)
  {
  }

  /** `struct.pack(f'>{n}H', *words)`: high byte first. */
  function BigEndian16(words: seq<bv16>): (b: seq<byte>)
    ensures |b| == 2 * |words|
  {
    if |words| == 0 then [] else [HighByte(words[0]), LowByte(words[0])] + BigEndian16(words[1..])
  }

  /** Low byte first, as two `append`s per word. */
  function LittleEndian16(words: seq<bv16>): (b: seq<byte>)
    ensures |b| == 2 * |words|
  {
    if |words| == 0 then [] else [LowByte(words[0]), HighByte(words[0])] + LittleEndian16(words[1..])
  }

  lemma {:induction false} BigEndian16At(words: seq<bv16>, i: nat)
    requires i < |words|
    ensures BigEndian16(words)[2 * i] == HighByte(words[i])
    ensures BigEndian16(words)[2 * i + 1] == LowByte(words[i])
  {
    if i > 0 {
      BigEndian16At(words[1..], i - 1);
    }
  }

  lemma {:induction false} LittleEndian16At(words: seq<bv16>, i: nat)
    requires i < |words|
    ensures LittleEndian16(words)[2 * i] == LowByte(words[i])
    ensures LittleEndian16(words)[2 * i + 1] == HighByte(words[i])
  {
    if i > 0 {
      LittleEndian16At(words[1..], i - 1);
    }
  }

  lemma {:induction false} LittleEndian16Append(words: seq<bv16>, w: bv16)
    ensures LittleEndian16(words + [w]) == LittleEndian16(words) + [LowByte(w), HighByte(w)]
  {
    if |words| > 0 {
      assert (words + [w])[1..] == words[1..] + [w];
      LittleEndian16Append(words[1..], w);
    } else {
      assert words + [w] == [w];
    }
  }

  /** The two byte orders of the same words are each other's pairwise
      swap. */
  lemma ByteOrdersSwapped(words: seq<bv16>, i: nat)
    requires i < |words|
    ensures LittleEndian16(words)[2 * i] == BigEndian16(words)[2 * i + 1]
    ensures LittleEndian16(words)[2 * i + 1] == BigEndian16(words)[2 * i]
  {
    LittleEndian16At(words, i);
    BigEndian16At(words, i);
  }
}
