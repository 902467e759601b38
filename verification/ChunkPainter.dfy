/**
  chunk_callback of tools/dfbsummon.c: a chunk of video memory is scaled to a
  range of screen pixels, and the range is painted as spans of single rows.
 */
module ChunkPainter {
  import opened Arithmetic

  const TWO_32 := 0x1_0000_0000

  /** A rectangle of height one. */
  datatype Span = Span(x: nat, y: nat, w: nat)

  datatype Chunk = Chunk(offset: nat, length: nat)

  /** Scaled in 64 bits, then stored as an unsigned int. */
  function Scale(v: nat, screenTotal: nat, videoTotal: nat): nat
    requires videoTotal > 0
  {
    v * screenTotal / videoTotal % TWO_32
  }

  /** How many of the spans cover the pixel at column px of row py. */
  function Covers(spans: seq<Span>, px: nat, py: nat): nat {
    if spans == [] then 0
    else
      var s := spans[|spans| - 1];
      Covers(spans[..|spans| - 1], px, py) + if s.y == py && s.x <= px < s.x + s.w then 1 else 0
  }

  ghost predicate OnScreen(spans: seq<Span>, width: nat, height: nat) {
    forall k :: 0 <= k < |spans| ==> 0 < spans[k].w && spans[k].x + spans[k].w <= width && spans[k].y < height
  }

  lemma CoversSnoc(spans: seq<Span>, s: Span, px: nat, py: nat)
    ensures Covers(spans + [s], px, py) ==
      Covers(spans, px, py) + if s.y == py && s.x <= px < s.x + s.w then 1 else 0
  {
    assert (spans + [s])[..|spans|] == spans;
  }

  lemma {:induction false} CoversAppend(a: seq<Span>, b: seq<Span>, px: nat, py: nat)
    ensures Covers(a + b, px, py) == Covers(a, px, py) + Covers(b, px, py)
  {
    if b == [] {
      assert a + b == a;
    } else {
      assert (a + b)[..|a + b| - 1] == a + b[..|b| - 1];
      CoversAppend(a, b[..|b| - 1], px, py);
    }
  }

  /** The linear index of a pixel. */
  function Linear(px: nat, py: nat, width: nat): nat {
    py * width + px
  }

  /** The spans cover every pixel of the linear range from..to once and no other pixel. */
  ghost predicate Paints(spans: seq<Span>, width: nat, from: nat, to: nat) {
    forall px: nat, py: nat :: px < width ==>
      Covers(spans, px, py) == if from <= Linear(px, py, width) < to then 1 else 0
  }

  /** A span covers the pixels between the linear indices of its ends. */
  lemma RowRange(width: nat, s: Span, px: nat, py: nat)
    requires px < width && s.x + s.w <= width
    ensures
      var o := Linear(s.x, s.y, width);
      o <= Linear(px, py, width) < o + s.w <==> py == s.y && s.x <= px < s.x + s.w
  {
    if py < s.y {
      RowsApart(width, py, s.y);
    } else if s.y < py {
      RowsApart(width, s.y, py);
    }
  }

  /** The part of a linear range that lies in its first row. */
  ghost predicate FirstSpan(s: Span, o: nat, length: nat, width: nat, height: nat) {
    && 0 < s.w <= length && s.x + s.w <= width && s.y < height
    && o == Linear(s.x, s.y, width) && (s.w == length || s.x + s.w == width)
  }

  /** The next span starts on the screen and has at least one pixel. */
  lemma SpanFits(width: nat, height: nat, o: nat, length: nat)
    requires 0 < length && o + length <= Linear(0, height, width)
    ensures 0 < width && o / width < height && o % width < width && o == Linear(o % width, o / width, width)
  {
    if width > 0 {
      QuotientBelow(o, width, height);
    }
  }

  method NextSpan(o: nat, length: nat, width: nat, height: nat) returns (s: Span)
    requires 0 < length && o + length <= Linear(0, height, width)
    ensures FirstSpan(s, o, length, width, height)
  {
    SpanFits(width, height, o, length);
    hide Linear;
    var x := o % width;
    var y := o / width;
    s := Span(x, y, if length < width - x then length else width - x);
  }

  /** Paints a linear range of the screen row by row. */
  method PaintRange(offset: nat, length: nat, width: nat, height: nat) returns (spans: seq<Span>)
    requires offset + length <= Linear(0, height, width)
    ensures Paints(spans, width, offset, offset + length)
    ensures OnScreen(spans, width, height)
  {
    spans := [];
    var screenLength, screenOffset := length, offset;
    while screenLength > 0
      invariant offset <= screenOffset && 0 <= screenLength && screenOffset + screenLength == offset + length
      invariant Paints(spans, width, offset, screenOffset)
      invariant OnScreen(spans, width, height)
    {
      hide Paints, Linear, OnScreen;
      var s := NextSpan(screenOffset, screenLength, width, height);
      PaintsNext(spans, width, height, offset, screenOffset, screenLength, s);
      OnScreenNext(spans, s, width, height);
      spans := spans + [s];
      screenLength := screenLength - s.w;
      screenOffset := screenOffset + s.w;
    }
  }

  lemma OnScreenNext(spans: seq<Span>, s: Span, width: nat, height: nat)
    requires OnScreen(spans, width, height) && 0 < s.w && s.x + s.w <= width && s.y < height
    ensures OnScreen(spans + [s], width, height)
  {
  }

  lemma PaintsNext(spans: seq<Span>, width: nat, height: nat, from: nat, o: nat, length: nat, s: Span)
    requires from <= o && FirstSpan(s, o, length, width, height) && Paints(spans, width, from, o)
    ensures Paints(spans + [s], width, from, o + s.w)
  {
    forall px: nat, py: nat | px < width
      ensures Covers(spans + [s], px, py) == if from <= Linear(px, py, width) < o + s.w then 1 else 0
    {
      CoversSnoc(spans, s, px, py);
      RowRange(width, s, px, py);
    }
  }

  // ---- Scaling ----

  /** Chunks of one video memory, in increasing order and without overlap. */
  ghost predicate Ordered(chunks: seq<Chunk>, videoTotal: nat) {
    && (forall k :: 0 <= k < |chunks| ==> chunks[k].offset + chunks[k].length <= videoTotal)
    && (forall j, k :: 0 <= j < k < |chunks| ==> chunks[j].offset + chunks[j].length <= chunks[k].offset)
  }

  /** Inside the video memory the 32 bits are never exceeded. */
  lemma ScaleIsExact(v: nat, screenTotal: nat, videoTotal: nat)
    requires videoTotal > 0 && v <= videoTotal && screenTotal < TWO_32
    ensures Scale(v, screenTotal, videoTotal) == v * screenTotal / videoTotal <= screenTotal
  {
    MulMonotonic(screenTotal, v, videoTotal);
    QuotientMonotonic(v * screenTotal, videoTotal * screenTotal, videoTotal);
    QuotientIs(videoTotal * screenTotal, videoTotal, screenTotal);
    MulMonotonic(screenTotal, 0, v);
    QuotientMonotonic(0, v * screenTotal, videoTotal);
  }

  /** Scaling offset and length apart loses at most one pixel against scaling the end. */
  lemma ScaleSum(a: nat, b: nat, screenTotal: nat, videoTotal: nat)
    requires videoTotal > 0 && a + b <= videoTotal && screenTotal < TWO_32
    ensures var start, length := Scale(a, screenTotal, videoTotal), Scale(b, screenTotal, videoTotal);
      start + length <= Scale(a + b, screenTotal, videoTotal) <= start + length + 1
  {
    ScaleIsExact(a, screenTotal, videoTotal);
    ScaleIsExact(b, screenTotal, videoTotal);
    ScaleIsExact(a + b, screenTotal, videoTotal);
    var m, n := a * screenTotal, b * screenTotal;
    assert (a + b) * screenTotal == m + n;
    SumOfQuotients(m, n, videoTotal);
  }

  lemma SumOfQuotients(m: nat, n: nat, d: nat)
    requires d > 0
    ensures m / d + n / d <= (m + n) / d <= m / d + n / d + 1
  {
    var q, r := m / d + n / d, m % d + n % d;
    assert m + n == q * d + r;
    if r < d {
      QuotientIs(m + n, d, q);
    } else {
      QuotientIs(m + n, d, q + 1);
    }
  }

  lemma ScaleMonotonic(a: nat, b: nat, screenTotal: nat, videoTotal: nat)
    requires videoTotal > 0 && a <= b <= videoTotal && screenTotal < TWO_32
    ensures Scale(a, screenTotal, videoTotal) <= Scale(b, screenTotal, videoTotal)
  {
    ScaleIsExact(a, screenTotal, videoTotal);
    ScaleIsExact(b, screenTotal, videoTotal);
    MulMonotonic(screenTotal, a, b);
    QuotientMonotonic(a * screenTotal, b * screenTotal, videoTotal);
  }

  function Start(c: Chunk, screenTotal: nat, videoTotal: nat): nat
    requires videoTotal > 0
  {
    Scale(c.offset, screenTotal, videoTotal)
  }

  function End(c: Chunk, screenTotal: nat, videoTotal: nat): nat
    requires videoTotal > 0
  {
    Start(c, screenTotal, videoTotal) + Scale(c.length, screenTotal, videoTotal)
  }

  /** Chunks that do not overlap are painted apart, and chunks that touch leave at most one pixel between them. */
  lemma ChunksStayApart(a: Chunk, b: Chunk, screenTotal: nat, videoTotal: nat)
    requires videoTotal > 0 && screenTotal < TWO_32
    requires a.offset + a.length <= b.offset && b.offset + b.length <= videoTotal
    ensures End(a, screenTotal, videoTotal) <= Start(b, screenTotal, videoTotal)
    ensures End(b, screenTotal, videoTotal) <= screenTotal
    ensures a.offset + a.length == b.offset ==>
      Start(b, screenTotal, videoTotal) <= End(a, screenTotal, videoTotal) + 1
  {
    ScaleSum(a.offset, a.length, screenTotal, videoTotal);
    ScaleMonotonic(a.offset + a.length, b.offset, screenTotal, videoTotal);
    ScaleSum(b.offset, b.length, screenTotal, videoTotal);
    ScaleIsExact(b.offset + b.length, screenTotal, videoTotal);
  }

  /** The chunks lie one behind the other and fill the video memory. */
  ghost predicate Tiles(chunks: seq<Chunk>, videoTotal: nat) {
    && chunks != [] && chunks[0].offset == 0
    && chunks[|chunks| - 1].offset + chunks[|chunks| - 1].length == videoTotal
    && forall k :: 0 < k < |chunks| ==> chunks[k].offset == chunks[k - 1].offset + chunks[k - 1].length
  }

  /** The pixel right behind the range of each of the chunks. */
  function Ends(chunks: seq<Chunk>, screenTotal: nat, videoTotal: nat): set<nat>
    requires videoTotal > 0
  {
    if chunks == [] then {}
    else
      var n := |chunks| - 1;
      Ends(chunks[..n], screenTotal, videoTotal) + {End(chunks[n], screenTotal, videoTotal)}
  }

  lemma {:induction false} EndsAreFew(chunks: seq<Chunk>, screenTotal: nat, videoTotal: nat)
    requires videoTotal > 0
    ensures |Ends(chunks, screenTotal, videoTotal)| <= |chunks|
    ensures forall k :: 0 <= k < |chunks| ==>
      End(chunks[k], screenTotal, videoTotal) in Ends(chunks, screenTotal, videoTotal)
  {
    hide End;
    if chunks != [] {
      EndsAreFew(chunks[..|chunks| - 1], screenTotal, videoTotal);
    }
  }

  /** Which of the chunks the pixel at a linear index belongs to, if any. */
  ghost predicate InSome(chunks: seq<Chunk>, n: nat, screenTotal: nat, videoTotal: nat, pixel: nat)
    requires videoTotal > 0 && n <= |chunks|
  {
    exists k :: 0 <= k < n &&
      Start(chunks[k], screenTotal, videoTotal) <= pixel < End(chunks[k], screenTotal, videoTotal)
  }

  /** Inside the first n of chunks that follow each other, a pixel is missed only right behind one of them. */
  lemma {:induction false} MissedBehindChunk(chunks: seq<Chunk>, n: nat, screenTotal: nat, videoTotal: nat, pixel: nat)
    requires videoTotal > 0 && screenTotal < TWO_32 && Tiles(chunks, videoTotal) && 0 < n <= |chunks|
    requires chunks[n - 1].offset + chunks[n - 1].length <= videoTotal
    requires pixel < Scale(chunks[n - 1].offset + chunks[n - 1].length, screenTotal, videoTotal)
    requires !InSome(chunks, n, screenTotal, videoTotal, pixel)
    ensures exists k :: 0 <= k < n && pixel == End(chunks[k], screenTotal, videoTotal)
  {
    var last := chunks[n - 1];
    ScaleSum(last.offset, last.length, screenTotal, videoTotal);
    ScaleIsExact(0, screenTotal, videoTotal);
    if n > 1 && pixel < Start(last, screenTotal, videoTotal) {
      MissedBehindChunk(chunks, n - 1, screenTotal, videoTotal, pixel);
    } else {
      assert !(Start(last, screenTotal, videoTotal) <= pixel < End(last, screenTotal, videoTotal));
      assert pixel == End(chunks[n - 1], screenTotal, videoTotal);
    }
  }

  /** Of chunks that fill the video memory no more pixels stay unpainted than there are chunks. */
  lemma FewStayUnpainted(chunks: seq<Chunk>, screenTotal: nat, videoTotal: nat, missed: set<nat>)
    requires videoTotal > 0 && screenTotal < TWO_32 && Tiles(chunks, videoTotal)
    requires forall pixel :: pixel in missed ==>
      pixel < screenTotal && !InSome(chunks, |chunks|, screenTotal, videoTotal, pixel)
    ensures |missed| <= |chunks|
  {
    var ends := Ends(chunks, screenTotal, videoTotal);
    EndsAreFew(chunks, screenTotal, videoTotal);
    WholeScreen(screenTotal, videoTotal);
    forall pixel | pixel in missed ensures pixel in ends {
      MissedBehindChunk(chunks, |chunks|, screenTotal, videoTotal, pixel);
    }
    SubsetIsSmaller(missed, ends);
  }

  lemma WholeScreen(screenTotal: nat, videoTotal: nat)
    requires videoTotal > 0 && screenTotal < TWO_32
    ensures Scale(videoTotal, screenTotal, videoTotal) == screenTotal
  {
    ScaleIsExact(videoTotal, screenTotal, videoTotal);
    QuotientIs(videoTotal * screenTotal, videoTotal, screenTotal);
  }

  lemma {:induction false} SubsetIsSmaller(xs: set<nat>, ys: set<nat>)
    requires xs <= ys
    ensures |xs| <= |ys|
  {
    if x :| x in xs {
      SubsetIsSmaller(xs - {x}, ys - {x});
    }
  }

  method ChunkCallback(chunk: Chunk, width: nat, height: nat, videoTotal: nat) returns (spans: seq<Span>)
    requires videoTotal > 0 && chunk.offset + chunk.length <= videoTotal
    requires Linear(0, height, width) < TWO_32
    ensures var total := Linear(0, height, width);
      Paints(spans, width, Start(chunk, total, videoTotal), End(chunk, total, videoTotal))
    ensures OnScreen(spans, width, height)
    // the range in plain arithmetic: offset and length are scaled apart
    ensures forall px: nat, py: nat :: px < width ==>
      var from := chunk.offset * (height * width) / videoTotal;
      var to := from + chunk.length * (height * width) / videoTotal;
      Covers(spans, px, py) == if from <= py * width + px < to then 1 else 0
  {
    var screenTotal := Linear(0, height, width);
    ScaleSum(chunk.offset, chunk.length, screenTotal, videoTotal);
    ScaleIsExact(chunk.offset + chunk.length, screenTotal, videoTotal);
    var screenLength := Scale(chunk.length, screenTotal, videoTotal);
    var screenOffset := Scale(chunk.offset, screenTotal, videoTotal);
    spans := PaintRange(screenOffset, screenLength, width, height);
    ScaledApart(chunk, spans, width, height, videoTotal);
  }

  lemma ScaledApart(chunk: Chunk, spans: seq<Span>, width: nat, height: nat, videoTotal: nat)
    requires videoTotal > 0 && chunk.offset + chunk.length <= videoTotal && Linear(0, height, width) < TWO_32
    requires var total := Linear(0, height, width);
      Paints(spans, width, Start(chunk, total, videoTotal), End(chunk, total, videoTotal))
    ensures forall px: nat, py: nat :: px < width ==>
      var from := chunk.offset * (height * width) / videoTotal;
      var to := from + chunk.length * (height * width) / videoTotal;
      Covers(spans, px, py) == if from <= py * width + px < to then 1 else 0
  {
    ScaleIsExact(chunk.offset, Linear(0, height, width), videoTotal);
    ScaleIsExact(chunk.length, Linear(0, height, width), videoTotal);
    hide Scale, Covers;
  }

  /** A whole frame: every pixel is painted at most once, and exactly when some chunk's range holds it. */
  method UpdateDisplay(chunks: seq<Chunk>, width: nat, height: nat, videoTotal: nat) returns (spans: seq<Span>)
    requires videoTotal > 0 && Ordered(chunks, videoTotal) && Linear(0, height, width) < TWO_32
    ensures OnScreen(spans, width, height)
    ensures forall px: nat, py: nat :: px < width ==>
      Covers(spans, px, py) ==
        if InSome(chunks, |chunks|, Linear(0, height, width), videoTotal, Linear(px, py, width)) then 1 else 0
  {
    spans := [];
    ghost var total := Linear(0, height, width);
    for i := 0 to |chunks|
      invariant OnScreen(spans, width, height)
      invariant forall px: nat, py: nat :: px < width ==>
        Covers(spans, px, py) == if InSome(chunks, i, total, videoTotal, Linear(px, py, width)) then 1 else 0
    {
      var next := ChunkCallback(chunks[i], width, height, videoTotal);
      forall px: nat, py: nat | px < width
        ensures Covers(spans + next, px, py) ==
          if InSome(chunks, i + 1, total, videoTotal, Linear(px, py, width)) then 1 else 0
      {
        CoversAppend(spans, next, px, py);
        InSomeNext(chunks, i, total, videoTotal, Linear(px, py, width));
      }
      spans := spans + next;
    }
  }

  lemma InSomeNext(chunks: seq<Chunk>, n: nat, screenTotal: nat, videoTotal: nat, pixel: nat)
    requires videoTotal > 0 && Ordered(chunks, videoTotal) && n < |chunks| && screenTotal < TWO_32
    ensures
      var now := Start(chunks[n], screenTotal, videoTotal) <= pixel < End(chunks[n], screenTotal, videoTotal);
      var before := InSome(chunks, n, screenTotal, videoTotal, pixel);
      InSome(chunks, n + 1, screenTotal, videoTotal, pixel) == (before || now) && !(before && now)
  {
    forall k | 0 <= k < n
      ensures End(chunks[k], screenTotal, videoTotal) <= Start(chunks[n], screenTotal, videoTotal)
    {
      ChunksStayApart(chunks[k], chunks[n], screenTotal, videoTotal);
    }
  }
}
