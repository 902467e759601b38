/**
  merge_images of tools/directfb-csource.c: images of one pixel format are laid
  side by side in one pitch-aligned buffer and copied into it row by row.
 */
module AtlasPacker {
  import opened Arithmetic
  import opened Basics

  datatype PixelFormat = A8 | LUT8 | RGB332
                       | ARGB1555 | RGBA5551 | ARGB2554 | ARGB4444 | RGB16
                       | ARGB8565 | RGB24
                       | ARGB | RGB32

  function BytesPerPixel(format: PixelFormat): (bpp: nat)
    ensures 1 <= bpp <= 4
  {
    match format
    case A8 | LUT8 | RGB332 => 1
    case ARGB1555 | RGBA5551 | ARGB2554 | ARGB4444 | RGB16 => 2
    case ARGB8565 | RGB24 => 3
    case ARGB | RGB32 => 4
  }

  /** The sizes the formats are declared with in include/directfb.h. */
  lemma PixelSizes(format: PixelFormat)
    ensures BytesPerPixel(format) == 1 <==> format in {A8, LUT8, RGB332}
    ensures BytesPerPixel(format) == 2 <==> format in {ARGB1555, RGBA5551, ARGB2554, ARGB4444, RGB16}
    ensures BytesPerPixel(format) == 3 <==> format in {ARGB8565, RGB24}
    ensures BytesPerPixel(format) == 4 <==> format in {ARGB, RGB32}
  {
  }

  /** A surface description whose pixels are preallocated. */
  datatype Image = Image(width: nat, height: nat, format: PixelFormat, pitch: nat, data: seq<byte>) {
    function RowLength(): nat {
      width * BytesPerPixel(format)
    }

    /** There is a row, and the bytes of every row are there to be read. */
    ghost predicate Readable() {
      height > 0 && |data| >= (height - 1) * pitch + RowLength()
    }
  }

  datatype Rectangle = Rectangle(x: nat, y: nat, w: nat, h: nat)

  datatype Status = OK | INVARG | FAILURE

  /** The destination description, filled in while merging. */
  class Surface {
    var width: nat
    var height: nat
    var format: PixelFormat
    var pitch: nat
    var data: array<byte>

    constructor () {
      width, height, format, pitch := 0, 0, A8, 0;
      data := new byte[0];
    }
  }

  function Align4(n: nat): (r: nat)
    ensures n <= r < n + 4 && r % 4 == 0
  {
    (n + 3) / 4 * 4
  }

  /** The columns one image takes up: one-byte formats are padded so that every image starts on a word. */
  function Advance(image: Image, bpp: nat): (r: nat)
    ensures r >= image.width
  {
    if bpp == 1 then Align4(image.width) else image.width
  }

  /** Where the image after the given ones starts. */
  function Left(images: seq<Image>, bpp: nat): nat {
    if images == [] then 0
    else Left(images[..|images| - 1], bpp) + Advance(images[|images| - 1], bpp)
  }

  /** Where a column starts in a row of the buffer. */
  function ByteOffset(column: nat, bpp: nat): nat {
    column * bpp
  }

  function Tallest(images: seq<Image>): nat {
    if images == [] then 0
    else
      var others, last := Tallest(images[..|images| - 1]), images[|images| - 1].height;
      if others < last then last else others
  }

  /** The rectangle of every image, in one row from the left. */
  ghost predicate LaidOut(images: seq<Image>, rects: seq<Rectangle>, bpp: nat) {
    && |rects| <= |images|
    && forall k :: 0 <= k < |rects| ==>
         rects[k] == Rectangle(Left(images[..k], bpp), 0, images[k].width, images[k].height)
  }

  /** Row y of an image is at its place in the buffer, byte for byte. */
  ghost predicate RowCopied(buffer: seq<byte>, pitch: nat, offset: nat, image: Image, y: nat) {
    var to, from, n := y * pitch + offset, y * image.pitch, image.RowLength();
    && 0 <= to && to + n <= |buffer| && 0 <= from && from + n <= |image.data|
    && buffer[to..to + n] == image.data[from..from + n]
  }

  ghost predicate RowsCopied(buffer: seq<byte>, pitch: nat, offset: nat, image: Image, rows: nat) {
    forall y :: 0 <= y < rows ==> RowCopied(buffer, pitch, offset, image, y)
  }

  ghost predicate ImageCopied(buffer: seq<byte>, pitch: nat, offset: nat, image: Image) {
    RowsCopied(buffer, pitch, offset, image, image.height)
  }

  // ---- Layout ----

  lemma {:induction false} LeftMonotonic(images: seq<Image>, bpp: nat, j: nat, k: nat)
    requires j < k <= |images|
    ensures Left(images[..j], bpp) + Advance(images[j], bpp) <= Left(images[..k], bpp)
  {
    assert images[..k][..k - 1] == images[..k - 1];
    if j < k - 1 {
      LeftMonotonic(images, bpp, j, k - 1);
    }
  }

  /** Every rectangle is inside the surface, and no two of them overlap. */
  lemma LayoutIsDisjoint(images: seq<Image>, rects: seq<Rectangle>, bpp: nat)
    requires LaidOut(images, rects, bpp)
    ensures forall k :: 0 <= k < |rects| ==>
      rects[k].x + rects[k].w <= Left(images, bpp) && rects[k].y + rects[k].h <= Tallest(images)
    ensures forall j, k :: 0 <= j < k < |rects| ==> rects[j].x + rects[j].w <= rects[k].x
  {
    assert images[..|images|] == images;
    forall k | 0 <= k < |rects|
      ensures rects[k].x + rects[k].w <= Left(images, bpp) && rects[k].y + rects[k].h <= Tallest(images)
    {
      LeftMonotonic(images, bpp, k, |images|);
      TallestIsMaximum(images, k);
    }
    forall j, k | 0 <= j < k < |rects| ensures rects[j].x + rects[j].w <= rects[k].x {
      LeftMonotonic(images, bpp, j, k);
    }
  }

  /** Where the images stand: without gaps from two bytes per pixel on, and on the next word boundary with one. */
  lemma RectanglesFollow(images: seq<Image>, rects: seq<Rectangle>, bpp: nat, k: nat)
    requires LaidOut(images, rects, bpp) && k < |rects| && |rects| == |images|
    ensures rects[0].x == 0
    ensures
      var end, next := rects[k].x + rects[k].w, if k + 1 < |rects| then rects[k + 1].x else Left(images, bpp);
      if bpp == 1 then next % 4 == 0 && end <= next < end + 4 else next == end
  {
    assert images[..k + 1][..k] == images[..k];
    assert images[..|images|] == images;
    LeftAligned(images[..k]);
    LeftAligned(images[..k + 1]);
    Sides(Left(images[..k], 1), images[k].width);
  }

  /** From a word boundary on, padding a width is padding its end. */
  lemma Sides(x: nat, w: nat)
    requires x % 4 == 0
    ensures x + w <= x + Align4(w) < x + w + 4
  {
  }

  lemma {:induction false} TallestIsMaximum(images: seq<Image>, k: nat)
    requires k < |images|
    ensures images[k].height <= Tallest(images)
    ensures exists j :: 0 <= j < |images| && images[j].height == Tallest(images)
  {
    var n := |images| - 1;
    if k < n {
      TallestIsMaximum(images[..n], k);
      var j :| 0 <= j < n && images[..n][j].height == Tallest(images[..n]);
      assert images[j].height == Tallest(images[..n]);
    } else if n > 0 {
      TallestIsMaximum(images[..n], 0);
      var j :| 0 <= j < n && images[..n][j].height == Tallest(images[..n]);
      assert images[j].height == Tallest(images[..n]);
    }
  }

  lemma SumAligned(a: nat, b: nat)
    requires a % 4 == 0 && b % 4 == 0
    ensures (a + b) % 4 == 0
  {
    assert a + b == 4 * (a / 4 + b / 4);
  }

  lemma {:induction false} LeftAligned(images: seq<Image>)
    ensures Left(images, 1) % 4 == 0
  {
    if images != [] {
      var n := |images| - 1;
      LeftAligned(images[..n]);
      SumAligned(Left(images[..n], 1), Advance(images[n], 1));
    }
  }

  // ---- Addressing ----

  /** Spans inside the pitch do not overlap when they are in different rows or side by side in one. */
  lemma SpansDisjoint(pitch: nat, y: nat, o: nat, n: nat, y': nat, o': nat, n': nat)
    requires o + n <= pitch && o' + n' <= pitch
    requires y != y' || o + n <= o'
    ensures y * pitch + o + n <= y' * pitch + o' || y' * pitch + o' + n' <= y * pitch + o
  {
    if y < y' {
      RowsApart(pitch, y, y');
    } else if y' < y {
      RowsApart(pitch, y', y);
    }
  }

  method MemCpy(dest: array<byte>, to: nat, src: seq<byte>, from: nat, n: nat)
    requires to + n <= dest.Length && from + n <= |src|
    modifies dest
    ensures dest[..] == old(dest[..to]) + src[from..from + n] + old(dest[to + n..])
  {
    forall i | to <= i < to + n {
      dest[i] := src[from + i - to];
    }
  }

  /** A copy elsewhere in the pitch, or in another row, does not disturb a row already copied. */
  lemma RowUndisturbed(before: seq<byte>, after: seq<byte>, pitch: nat, offset: nat, image: Image, y: nat,
                       o: nat, row: seq<byte>, y': nat)
    requires 0 <= y' * pitch && y' * pitch + o + |row| <= |before|
    requires after == before[..y' * pitch + o] + row + before[y' * pitch + o + |row|..]
    requires RowCopied(before, pitch, offset, image, y)
    requires offset + image.RowLength() <= pitch && o + |row| <= pitch
    requires y != y' || offset + image.RowLength() <= o
    ensures RowCopied(after, pitch, offset, image, y)
  {
    var at, n := y * pitch + offset, image.RowLength();
    SpansDisjoint(pitch, y, offset, n, y', o, |row|);
    assert after[at..at + n] == before[at..at + n];
  }

  /** Rows of any image that ends left of the offset are in the new buffer if they were in the old. */
  ghost predicate KeepsLeft(before: seq<byte>, after: seq<byte>, pitch: nat, offset: nat) {
    forall other: Image, o: nat, y: nat ::
      o + other.RowLength() <= offset && RowCopied(before, pitch, o, other, y) ==> RowCopied(after, pitch, o, other, y)
  }

  lemma RowArrived(before: seq<byte>, after: seq<byte>, pitch: nat, offset: nat, image: Image, y: nat, to: nat,
                   from: nat)
    requires to == y * pitch + offset && from == y * image.pitch
    requires from + image.RowLength() <= |image.data| && to + image.RowLength() <= |before|
    requires after == before[..to] + image.data[from..from + image.RowLength()] + before[to + image.RowLength()..]
    ensures RowCopied(after, pitch, offset, image, y) && 0 <= y * pitch
  {
    var row := image.data[from..from + image.RowLength()];
    assert after[to..to + |row|] == row;
    assert 0 <= y * pitch;
  }

  /** One more row copied: the row is there, earlier rows and images to the left still are. */
  lemma RowAdded(before: seq<byte>, after: seq<byte>, pitch: nat, offset: nat, image: Image, y: nat, to: nat, from: nat)
    requires to == y * pitch + offset && from == y * image.pitch
    requires from + image.RowLength() <= |image.data| && to + image.RowLength() <= |before|
    requires offset + image.RowLength() <= pitch
    requires after == before[..to] + image.data[from..from + image.RowLength()] + before[to + image.RowLength()..]
    requires RowsCopied(before, pitch, offset, image, y)
    ensures KeepsLeft(before, after, pitch, offset) && RowsCopied(after, pitch, offset, image, y + 1)
  {
    var row := image.data[from..from + image.RowLength()];
    RowArrived(before, after, pitch, offset, image, y, to, from);
    hide RowCopied;
    forall other: Image, o: nat, z: nat | o + other.RowLength() <= offset && RowCopied(before, pitch, o, other, z)
      ensures RowCopied(after, pitch, o, other, z)
    {
      RowUndisturbed(before, after, pitch, o, other, z, offset, row, y);
    }
    forall z | 0 <= z < y ensures RowCopied(after, pitch, offset, image, z) {
      RowUndisturbed(before, after, pitch, offset, image, z, offset, row, y);
    }
  }

  lemma RowsInBounds(buffer: nat, pitch: nat, rows: nat, offset: nat, image: Image, y: nat)
    requires image.Readable() && y < image.height <= rows
    requires offset + image.RowLength() <= pitch && buffer == rows * pitch
    ensures 0 <= y * pitch && y * pitch + offset + image.RowLength() <= buffer
    ensures 0 <= y * image.pitch && y * image.pitch + image.RowLength() <= |image.data|
    ensures (y + 1) * pitch == y * pitch + pitch && (y + 1) * image.pitch == y * image.pitch + image.pitch
  {
    RowsApart(pitch, y, rows);
    if y < image.height - 1 {
      RowsApart(image.pitch, y, image.height - 1);
    } else {
      RowsApart(image.pitch, y, y + 1);
    }
  }

  /** Copies the rows of one image to the given byte offset of the buffer. */
  method CopyRows(buffer: array<byte>, pitch: nat, rows: nat, offset: nat, image: Image)
    requires image.Readable() && image.height <= rows
    requires offset + image.RowLength() <= pitch && buffer.Length == rows * pitch
    modifies buffer
    ensures ImageCopied(buffer[..], pitch, offset, image)
    ensures KeepsLeft(old(buffer[..]), buffer[..], pitch, offset)
  {
    ghost var y := 0;
    var dest, src, height := offset, 0, image.height;
    while true
      invariant y + height == image.height && 0 < height
      invariant dest == y * pitch + offset && src == y * image.pitch
      invariant RowsCopied(buffer[..], pitch, offset, image, y)
      invariant KeepsLeft(old(buffer[..]), buffer[..], pitch, offset)
      decreases height
    {
      RowsInBounds(buffer.Length, pitch, rows, offset, image, y);
      ghost var before := buffer[..];
      MemCpy(buffer, dest, image.data, src, image.RowLength());
      RowAdded(before, buffer[..], pitch, offset, image, y, dest, src);
      src := src + image.pitch;
      dest := dest + pitch;
      y := y + 1;
      height := height - 1;
      if height == 0 {
        break;
      }
    }
  }

  lemma ByteOffsetsApart(x: nat, w: nat, limit: nat, bpp: nat)
    requires x + w <= limit
    ensures ByteOffset(x, bpp) + w * bpp <= ByteOffset(limit, bpp)
  {
    assert (limit - x - w) * bpp >= 0;
  }

  /** All bytes of the first n images are in place. */
  ghost predicate Merged(buffer: seq<byte>, pitch: nat, images: seq<Image>, rects: seq<Rectangle>, bpp: nat, n: nat)
    requires n <= |images| && n <= |rects|
  {
    forall k :: 0 <= k < n ==> ImageCopied(buffer, pitch, ByteOffset(rects[k].x, bpp), images[k])
  }

  lemma MergedStep(before: seq<byte>, after: seq<byte>, pitch: nat, images: seq<Image>, rects: seq<Rectangle>,
                   bpp: nat, n: nat)
    requires n < |images| && |rects| == |images| && LaidOut(images, rects, bpp)
    requires forall k :: 0 <= k < |images| ==> BytesPerPixel(images[k].format) == bpp
    requires Merged(before, pitch, images, rects, bpp, n)
    requires KeepsLeft(before, after, pitch, ByteOffset(rects[n].x, bpp))
    requires ImageCopied(after, pitch, ByteOffset(rects[n].x, bpp), images[n])
    ensures Merged(after, pitch, images, rects, bpp, n + 1)
  {
    LayoutIsDisjoint(images, rects, bpp);
    forall k | 0 <= k < n ensures ImageCopied(after, pitch, ByteOffset(rects[k].x, bpp), images[k]) {
      ByteOffsetsApart(rects[k].x, images[k].width, rects[n].x, bpp);
      assert ImageCopied(before, pitch, ByteOffset(rects[k].x, bpp), images[k]);
    }
  }

  /** A byte of a row, in the buffer and in the image. */
  lemma BytesArrive(buffer: seq<byte>, pitch: nat, images: seq<Image>, rects: seq<Rectangle>, bpp: nat,
                    k: nat, y: nat, b: nat)
    requires k < |images| && k < |rects| && BytesPerPixel(images[k].format) == bpp
    requires ImageCopied(buffer, pitch, ByteOffset(rects[k].x, bpp), images[k])
    requires y < images[k].height && b < images[k].width * bpp
    ensures 0 <= y * pitch + rects[k].x * bpp + b < |buffer| && 0 <= y * images[k].pitch + b < |images[k].data|
    ensures buffer[y * pitch + rects[k].x * bpp + b] == images[k].data[y * images[k].pitch + b]
  {
    var to, from, n := y * pitch + rects[k].x * bpp, y * images[k].pitch, images[k].width * bpp;
    assert RowCopied(buffer, pitch, ByteOffset(rects[k].x, bpp), images[k], y);
    assert buffer[to..to + n][b] == images[k].data[from..from + n][b];
  }

  lemma LayoutStep(images: seq<Image>, rects: seq<Rectangle>, bpp: nat, i: nat)
    requires i < |images| && |rects| == i && LaidOut(images, rects, bpp)
    ensures LaidOut(images, rects + [Rectangle(Left(images[..i], bpp), 0, images[i].width, images[i].height)], bpp)
    ensures Left(images[..i + 1], bpp) == Left(images[..i], bpp) + Advance(images[i], bpp)
    ensures Tallest(images[..i + 1]) ==
      if Tallest(images[..i]) < images[i].height then images[i].height else Tallest(images[..i])
  {
    assert images[..i + 1][..i] == images[..i];
  }

  /** Lays the images out: sets the rectangles and the size of the destination. */
  method LayOut(images: seq<Image>, dest: Surface) returns (ok: bool, rects: seq<Rectangle>)
    requires images != []
    modifies dest
    ensures ok <==> forall k :: 0 <= k < |images| ==> images[k].format == images[0].format
    ensures dest.format == images[0].format
    ensures LaidOut(images, rects, BytesPerPixel(images[0].format))
    ensures ok ==> |rects| == |images|
    ensures ok ==> dest.width == Left(images, BytesPerPixel(images[0].format)) && dest.height == Tallest(images)
  {
    var bpp := BytesPerPixel(images[0].format);
    rects := [Rectangle(0, 0, images[0].width, images[0].height)];
    dest.format := images[0].format;
    dest.width := Advance(images[0], bpp);
    dest.height := images[0].height;
    LayoutStep(images, [], bpp, 0);
    for i := 1 to |images|
      invariant dest.format == images[0].format
      invariant forall k :: 0 <= k < i ==> images[k].format == images[0].format
      invariant |rects| == i && LaidOut(images, rects, bpp)
      invariant dest.width == Left(images[..i], bpp) && dest.height == Tallest(images[..i])
    {
      if images[i].format != dest.format {
        return false, rects;
      }
      LayoutStep(images, rects, bpp, i);
      rects := rects + [Rectangle(dest.width, 0, images[i].width, images[i].height)];
      dest.width := dest.width + Advance(images[i], bpp);
      if dest.height < images[i].height {
        dest.height := images[i].height;
      }
    }
    assert images[..|images|] == images;
    return true, rects;
  }

  method CopyImages(images: seq<Image>, rects: seq<Rectangle>, bpp: nat, data: array<byte>, pitch: nat, rows: nat)
    requires |rects| == |images| && LaidOut(images, rects, bpp)
    requires forall k :: 0 <= k < |images| ==>
      images[k].Readable() && images[k].height <= rows && BytesPerPixel(images[k].format) == bpp
    requires ByteOffset(Left(images, bpp), bpp) <= pitch && data.Length == rows * pitch
    modifies data
    ensures Merged(data[..], pitch, images, rects, bpp, |images|)
  {
    for i := 0 to |images|
      invariant Merged(data[..], pitch, images, rects, bpp, i)
    {
      ghost var before := data[..];
      LeftMonotonic(images, bpp, i, |images|);
      assert images[..|images|] == images;
      ByteOffsetsApart(rects[i].x, images[i].width, Left(images, bpp), bpp);
      CopyRows(data, pitch, rows, ByteOffset(rects[i].x, bpp), images[i]);
      MergedStep(before, data[..], pitch, images, rects, bpp, i);
    }
  }

  /** Merges the images into one surface.  `memory` says whether the allocation succeeds. */
  method MergeImages(images: seq<Image>, dest: Surface, memory: bool) returns (status: Status, rects: seq<Rectangle>)
    requires images != []
    requires forall k :: 0 <= k < |images| ==> images[k].Readable()
    modifies dest
    ensures status == INVARG <==> !forall k :: 0 <= k < |images| ==> images[k].format == images[0].format
    ensures status == FAILURE <==> status != INVARG && !memory
    // where the images stand
    ensures status == OK ==> dest.format == images[0].format && |rects| == |images| && rects[0].x == 0
    ensures status == OK ==> forall k :: 0 <= k < |rects| ==>
      rects[k].y == 0 && rects[k].w == images[k].width && rects[k].h == images[k].height
    ensures status == OK && BytesPerPixel(images[0].format) >= 2 ==>
      && (forall j, k :: 0 <= j < |rects| && 0 <= k < |rects| && k == j + 1 ==> rects[k].x == rects[j].x + rects[j].w)
      && dest.width == rects[|rects| - 1].x + rects[|rects| - 1].w
    ensures status == OK && BytesPerPixel(images[0].format) == 1 ==>
      && (forall j, k :: 0 <= j < |rects| && 0 <= k < |rects| && k == j + 1 ==>
            rects[k].x % 4 == 0 && 0 <= rects[k].x - rects[j].x - rects[j].w < 4)
      && dest.width % 4 == 0 && 0 <= dest.width - rects[|rects| - 1].x - rects[|rects| - 1].w < 4
    ensures status == OK ==>
      && (forall k :: 0 <= k < |images| ==> images[k].height <= dest.height)
      && (exists k :: 0 <= k < |images| && images[k].height == dest.height)
    // what is in the buffer
    ensures status == OK ==>
      var row := dest.width * BytesPerPixel(images[0].format);
      fresh(dest.data) && dest.pitch % 4 == 0 && row <= dest.pitch < row + 4
    ensures status == OK ==>
      && dest.data.Length == dest.height * dest.pitch
      && Merged(dest.data[..], dest.pitch, images, rects, BytesPerPixel(images[0].format), |images|)
  {
    var ok;
    ok, rects := LayOut(images, dest);
    if !ok {
      return INVARG, rects;
    }
    var bpp := BytesPerPixel(images[0].format);
    var pitch := Align4(ByteOffset(dest.width, bpp));
    if !memory {
      return FAILURE, rects;
    }
    var rows := dest.height;
    var data := new byte[BufferSize(rows, pitch)];
    forall k | 0 <= k < |images| ensures images[k].height <= rows {
      TallestIsMaximum(images, k);
    }
    CopyImages(images, rects, bpp, data, pitch, rows);
    dest.pitch := pitch;
    dest.data := data;
    Placed(images, rects, bpp);
    TallestIsMaximum(images, 0);
    hide LaidOut, Left, Tallest, Align4, Merged;
    return OK, rects;
  }

  /** The places of all images. */
  lemma Placed(images: seq<Image>, rects: seq<Rectangle>, bpp: nat)
    requires LaidOut(images, rects, bpp) && |rects| == |images| > 0
    ensures rects[0].x == 0
    ensures forall k :: 0 <= k < |rects| ==>
      rects[k].y == 0 && rects[k].w == images[k].width && rects[k].h == images[k].height
    ensures bpp != 1 ==>
      && (forall j, k :: 0 <= j < |rects| && 0 <= k < |rects| && k == j + 1 ==> rects[k].x == rects[j].x + rects[j].w)
      && Left(images, bpp) == rects[|rects| - 1].x + rects[|rects| - 1].w
    ensures bpp == 1 ==>
      && (forall j, k :: 0 <= j < |rects| && 0 <= k < |rects| && k == j + 1 ==>
            rects[k].x % 4 == 0 && 0 <= rects[k].x - rects[j].x - rects[j].w < 4)
      && Left(images, bpp) % 4 == 0 && 0 <= Left(images, bpp) - rects[|rects| - 1].x - rects[|rects| - 1].w < 4
  {
    RectanglesFollow(images, rects, bpp, |rects| - 1);
    assert forall k :: 0 <= k < |rects| ==>
      rects[k].y == 0 && rects[k].w == images[k].width && rects[k].h == images[k].height;
    hide Left, LaidOut, Align4;
    forall j, k | 0 <= j < |rects| && 0 <= k < |rects| && k == j + 1
      ensures bpp != 1 ==> rects[k].x == rects[j].x + rects[j].w
      ensures bpp == 1 ==> rects[k].x % 4 == 0 && 0 <= rects[k].x - rects[j].x - rects[j].w < 4
    {
      RectanglesFollow(images, rects, bpp, j);
    }
  }

  function BufferSize(rows: nat, pitch: nat): nat {
    rows * pitch
  }
}
