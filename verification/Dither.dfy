/**
  dither_rgb16 of tools/directfb-csource.c: three channels are dithered at once
  inside one 32-bit word, in lanes of ten bits.
 */
module Dither {
  import opened Arithmetic

  // The lanes of a word: blue in bits 0 to 9, green in bits 10 to 19, red in bits 20 to 29.
  function Blue(word: bv32): bv32 { word & 0x3FF }
  function Green(word: bv32): bv32 { (word >> 10) & 0x3FF }
  function Red(word: bv32): bv32 { (word >> 20) & 0x3FF }

  // The channels of a source pixel in ARGB; alpha is not looked at.
  function SourceBlue(argb: bv32): bv32 { argb & 0xFF }
  function SourceGreen(argb: bv32): bv32 { (argb >> 8) & 0xFF }
  function SourceRed(argb: bv32): bv32 { (argb >> 16) & 0xFF }

  /** The dither words the lanes have room for: red and blue at most 8, green at most 4. */
  predicate Fits(dither: bv32) {
    Red(dither) <= 8 && Blue(dither) <= 8 && Green(dither) <= 4 && dither < 0x40000000
  }

  /** One channel alone, its dither value added: back into the range of a byte, then the high bits. */
  function Level5(s: bv32): bv32 {
    (s - (s >> 5)) >> 3
  }

  function Level6(s: bv32): bv32 {
    (s - (s >> 6)) >> 2
  }

  function Pack565(r: bv32, g: bv32, b: bv32): bv32 {
    (r << 11) | (g << 5) | b
  }

  /** The 5-6-5 pixel a plain computation per channel gives. */
  function DitheredPixel(argb: bv32, dither: bv32): bv32 {
    Pack565(Level5(SourceRed(argb) + Red(dither)),
            Level6(SourceGreen(argb) + Green(dither)),
            Level5(SourceBlue(argb) + Blue(dither)))
  }

  // The steps on the packed word.
  function Spread(argb: bv32): bv32 {
    (argb & 0xFF) | ((argb & 0xFF00) << 2) | ((argb & 0xFF0000) << 4)
  }

  function Correct(rgb: bv32): bv32 {
    rgb + (0x10040100 - ((rgb & 0x1e0001e0) >> 5) - ((rgb & 0x00070000) >> 6))
  }

  function Gather(rgb: bv32): bv32 {
    ((rgb & 0x0f800000) >> 12) | ((rgb & 0x0003f000) >> 7) | ((rgb & 0x000000f8) >> 3)
  }

  predicate InLanes(sum: bv32) {
    Red(sum) <= 263 && Green(sum) <= 259 && Blue(sum) <= 263 && sum < 0x40000000
  }

  /** Adding the dither word carries nothing from one lane into the next. */
  lemma SumHasNoCarry(argb: bv32, dither: bv32)
    requires Fits(dither)
    ensures Red(Spread(argb) + dither) == SourceRed(argb) + Red(dither)
    ensures Green(Spread(argb) + dither) == SourceGreen(argb) + Green(dither)
    ensures Blue(Spread(argb) + dither) == SourceBlue(argb) + Blue(dither)
  {
  }

  lemma SumStaysInLanes(argb: bv32, dither: bv32)
    requires Fits(dither)
    ensures InLanes(Spread(argb) + dither)
  {
  }

  /** Scaling back borrows nothing from one lane for the next; a bias of 256 is left in each. */
  lemma CorrectionHasNoBorrow(sum: bv32)
    requires InLanes(sum)
    ensures Red(Correct(sum)) == Red(sum) - (Red(sum) >> 5) + 256
    ensures Green(Correct(sum)) == Green(sum) - (Green(sum) >> 6) + 256
    ensures Blue(Correct(sum)) == Blue(sum) - (Blue(sum) >> 5) + 256
  {
  }

  /** The bias is dropped again when the high bits are taken, and nothing else is. */
  lemma GatherTakesHighBits(word: bv32, r: bv32, g: bv32, b: bv32)
    requires Red(word) == r - (r >> 5) + 256 && r <= 263
    requires Green(word) == g - (g >> 6) + 256 && g <= 259
    requires Blue(word) == b - (b >> 5) + 256 && b <= 263
    ensures Gather(word) == Pack565(Level5(r), Level6(g), Level5(b))
  {
  }

  lemma CorrectedWord(sum: bv32)
    requires InLanes(sum)
    ensures Gather(Correct(sum)) == Pack565(Level5(Red(sum)), Level6(Green(sum)), Level5(Blue(sum)))
  {
    CorrectionHasNoBorrow(sum);
    GatherTakesHighBits(Correct(sum), Red(sum), Green(sum), Blue(sum));
  }

  lemma SamePixel(argb: bv32, dither: bv32, r: bv32, g: bv32, b: bv32)
    requires r == SourceRed(argb) + Red(dither)
    requires g == SourceGreen(argb) + Green(dither)
    requires b == SourceBlue(argb) + Blue(dither)
    ensures Pack565(Level5(r), Level6(g), Level5(b)) == DitheredPixel(argb, dither)
  {
  }

  /** The packed computation equals three separate ones. */
  lemma PackedIsPerChannel(argb: bv32, dither: bv32)
    requires Fits(dither)
    ensures Gather(Correct(Spread(argb) + dither)) == DitheredPixel(argb, dither)
  {
    var sum := Spread(argb) + dither;
    SumHasNoCarry(argb, dither);
    SumStaysInLanes(argb, dither);
    CorrectedWord(sum);
    SamePixel(argb, dither, Red(sum), Green(sum), Blue(sum));
  }

  /** Storing a word in 16 bits; of a dithered pixel nothing is lost. */
  function Narrow(word: bv32): bv16 {
    (word & 0xFFFF) as bv16
  }

  lemma PixelFits(argb: bv32, dither: bv32)
    requires Fits(dither)
    ensures DitheredPixel(argb, dither) <= 0xFFFF
  {
  }

  /** No larger dither value has room: with 9, white already leaves the five bits of its channel. */
  lemma BoundIsTight(c: bv32, d: bv32)
    requires c <= 255 && d <= 255
    ensures d <= 8 ==> Level5(c + d) <= 31
    ensures d <= 4 ==> Level6(c + d) <= 63
    ensures d > 8 ==> Level5(255 + d) > 31
    ensures d > 4 ==> Level6(255 + d) > 63
  {
  }

  /** A dither matrix, repeated over the image in both directions. */
  datatype Matrix = Matrix(width: nat, height: nat, words: seq<bv32>) {
    ghost predicate Valid() {
      && width > 0 && height > 0 && |words| == height * width
      && forall k :: 0 <= k < |words| ==> Fits(words[k])
    }

    function Row(y: nat): (r: nat)
      requires Valid()
      ensures r + width <= |words|
    {
      RowsApart(width, y % height, height);
      y % height * width
    }

    function At(x: nat, y: nat): bv32
      requires Valid()
    {
      words[Row(y) + x % width]
    }
  }

  // The simple table of src/misc/dither565.h: four rows of four words, each twice as long and twice over.
  const ROW0: seq<bv32> := [3072, 4195332, 1051649, 5243909]
  const ROW1: seq<bv32> := [6291462, 2099202, 7340039, 3147779]
  const ROW2: seq<bv32> := [1051649, 5243909, 3072, 4195332]
  const ROW3: seq<bv32> := [7340039, 3147779, 6291462, 2099202]

  predicate AllFit(words: seq<bv32>) {
    forall k :: 0 <= k < |words| ==> Fits(words[k])
  }

  function SimpleMatrix(): (m: Matrix)
    ensures m.Valid() && m.width == 8 && m.height == 8
  {
    RowsFit();
    Matrix(8, 8, Twice(Twice(ROW0) + Twice(ROW1) + Twice(ROW2) + Twice(ROW3)))
  }

  function Twice(words: seq<bv32>): (r: seq<bv32>)
    ensures |r| == 2 * |words| && (AllFit(words) ==> AllFit(r))
  {
    words + words
  }

  lemma RowsFit()
    ensures AllFit(ROW0) && AllFit(ROW1) && AllFit(ROW2) && AllFit(ROW3)
  {
  }

  /** The table of src/misc/dither565.h, word for word. */
  lemma SimpleTable()
    ensures SimpleMatrix().words[0..8] == [3072, 4195332, 1051649, 5243909, 3072, 4195332, 1051649, 5243909]
    ensures SimpleMatrix().words[8..16] == [6291462, 2099202, 7340039, 3147779, 6291462, 2099202, 7340039, 3147779]
    ensures SimpleMatrix().words[16..24] == [1051649, 5243909, 3072, 4195332, 1051649, 5243909, 3072, 4195332]
    ensures SimpleMatrix().words[24..32] == [7340039, 3147779, 6291462, 2099202, 7340039, 3147779, 6291462, 2099202]
    ensures SimpleMatrix().words[32..40] == [3072, 4195332, 1051649, 5243909, 3072, 4195332, 1051649, 5243909]
    ensures SimpleMatrix().words[40..48] == [6291462, 2099202, 7340039, 3147779, 6291462, 2099202, 7340039, 3147779]
    ensures SimpleMatrix().words[48..56] == [1051649, 5243909, 3072, 4195332, 1051649, 5243909, 3072, 4195332]
    ensures SimpleMatrix().words[56..64] == [7340039, 3147779, 6291462, 2099202, 7340039, 3147779, 6291462, 2099202]
  {
    hide Fits, AllFit;
    TwiceIs(ROW0, 3072, 4195332, 1051649, 5243909);
    TwiceIs(ROW1, 6291462, 2099202, 7340039, 3147779);
    TwiceIs(ROW2, 1051649, 5243909, 3072, 4195332);
    TwiceIs(ROW3, 7340039, 3147779, 6291462, 2099202);
    var half := Twice(ROW0) + Twice(ROW1) + Twice(ROW2) + Twice(ROW3);
    assert SimpleMatrix().words == half + half;
  }

  lemma TwiceIs(row: seq<bv32>, a: bv32, b: bv32, c: bv32, d: bv32)
    requires row == [a, b, c, d]
    ensures Twice(row) == [a, b, c, d, a, b, c, d]
  {
  }

  /** The word for a pixel is that of its column and row, both counted round the table. */
  lemma WordAt(m: Matrix, x: nat, y: nat)
    requires m.Valid()
    ensures 0 <= y % m.height * m.width + x % m.width < |m.words|
    ensures m.At(x, y) == m.words[y % m.height * m.width + x % m.width]
  {
    hide Fits;
    RowsApart(m.width, y % m.height, m.height);
  }

  /** Every entry is the word of its own column and row, and the table repeats in both directions. */
  lemma MatrixRepeats(m: Matrix, x: nat, y: nat)
    requires m.Valid()
    ensures x < m.width && y < m.height ==> 0 <= y * m.width + x < |m.words| && m.At(x, y) == m.words[y * m.width + x]
    ensures m.At(x + m.width, y) == m.At(x, y) && m.At(x, y + m.height) == m.At(x, y)
  {
    hide Fits;
    WordAt(m, x, y);
    WordAt(m, x + m.width, y);
    WordAt(m, x, y + m.height);
    Wraps(x, m.width);
    Wraps(y, m.height);
  }

  lemma Wraps(n: nat, d: nat)
    requires d > 0
    ensures (n + d) % d == n % d && (n < d ==> n % d == n)
  {
    QuotientIs(n + d, d, n / d + 1);
  }

  // The plain computation, written out.

  lemma ChannelsWrittenOut(argb: bv32, word: bv32)
    ensures SourceRed(argb) + Red(word) == ((argb >> 16) & 0xFF) + ((word >> 20) & 0x3FF)
    ensures SourceGreen(argb) + Green(word) == ((argb >> 8) & 0xFF) + ((word >> 10) & 0x3FF)
    ensures SourceBlue(argb) + Blue(word) == (argb & 0xFF) + (word & 0x3FF)
  {
  }

  lemma LevelsWrittenOut(s: bv32)
    ensures Level5(s) == (s - (s >> 5)) >> 3 && Level6(s) == (s - (s >> 6)) >> 2
  {
  }

  lemma PixelWrittenOut(argb: bv32, word: bv32, r: bv32, g: bv32, b: bv32)
    requires r == Level5(SourceRed(argb) + Red(word))
    requires g == Level6(SourceGreen(argb) + Green(word))
    requires b == Level5(SourceBlue(argb) + Blue(word))
    ensures DitheredPixel(argb, word) == (r << 11) | (g << 5) | b
  {
    hide Level5, Level6, Red, Green, Blue, SourceRed, SourceGreen, SourceBlue;
  }

  lemma NarrowKeeps(word: bv32)
    requires word <= 0xFFFF
    ensures Narrow(word) as bv32 == word
  {
  }

  method DitherPixel(argb: bv32, dither: bv32) returns (pixel: bv16)
    requires Fits(dither)
    ensures pixel == Narrow(DitheredPixel(argb, dither))
  {
    hide DitheredPixel, Spread, Correct, Gather, Narrow, Fits;
    var rgb := Spread(argb) + dither;
    PackedIsPerChannel(argb, dither);
    rgb := Correct(rgb);
    pixel := Narrow(Gather(rgb));
  }

  /** The pixels of x of the row were dithered with the matrix word at their place. */
  ghost predicate RowDithered(matrix: Matrix, src: seq<bv32>, dest: seq<bv16>, y: nat, n: nat)
    requires matrix.Valid() && n <= |src| && n <= |dest|
  {
    forall x :: 0 <= x < n ==> dest[x] == Narrow(DitheredPixel(src[x], matrix.At(x, y)))
  }

  /** One row of pixels: every one is dithered channel by channel, and nothing behind the row is written. */
  method DitherRgb16(matrix: Matrix, src: seq<bv32>, dest: array<bv16>, y: nat, width: nat)
    requires matrix.Valid()
    requires width <= |src| && width <= dest.Length
    modifies dest
    ensures forall x, k ::
      0 <= x < width && 0 <= k < |matrix.words| && k == y % matrix.height * matrix.width + x % matrix.width ==>
        dest[x] == Narrow(DitheredPixel(src[x], matrix.words[k]))
    ensures dest[width..] == old(dest[width..])
  {
    hide DitheredPixel, Narrow, Fits;
    var dm := matrix.Row(y);
    for x := 0 to width
      invariant RowDithered(matrix, src, dest[..], y, x)
      invariant dest[width..] == old(dest[width..])
    {
      var pixel := DitherPixel(src[x], matrix.words[dm + x % matrix.width]);
      dest[x] := pixel;
    }
    forall x, k |
      0 <= x < width && 0 <= k < |matrix.words| && k == y % matrix.height * matrix.width + x % matrix.width
      ensures dest[x] == Narrow(DitheredPixel(src[x], matrix.words[k]))
    {
      WordAt(matrix, x, y);
      assert dest[..][x] == dest[x];
    }
  }
}
