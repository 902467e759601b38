/**
  The reference blender of tools/dfbfx.c: one pixel goes through colour keying,
  modulation, premultiplication, blending, demultiplication and exclusive or.
 */
module Blitter {
  import opened Arithmetic
  import opened Basics
  import opened Bits
  import opened Permutations

  datatype Color = Color(a: byte, r: byte, g: byte, b: byte)

  datatype Flag = BLEND_ALPHACHANNEL | BLEND_COLORALPHA | COLORIZE | SRC_COLORKEY | DST_COLORKEY
                | SRC_PREMULTIPLY | DST_PREMULTIPLY | DEMULTIPLY | SRC_PREMULTCOLOR | XOR
                | OTHER(bit: nat)  // a flag the blender does not look at

  datatype BlendFunction = UNKNOWN | ZERO | ONE | SRCCOLOR | INVSRCCOLOR | SRCALPHA | INVSRCALPHA
                         | DESTALPHA | INVDESTALPHA | DESTCOLOR | INVDESTCOLOR | SRCALPHASAT

  datatype CardState = CardState(flags: set<Flag>, color: Color, srcBlend: BlendFunction, dstBlend: BlendFunction,
                                 srcKey: nat, dstKey: nat)

  // ---- Specification ----

  /** A factor for MODULATE: -1 weighs nothing, 255 weighs everything. */
  type factor = f: int | -1 <= f <= 255

  datatype Factors = Factors(a: factor, r: factor, g: factor, b: factor)

  function Modulate(x: byte, f: factor): (y: byte)
    ensures y <= x && (f >= 0 ==> y <= f)
  {
    ModulateBounds(x, f);
    x * (f + 1) / 256
  }

  lemma ModulateBounds(x: byte, f: factor)
    ensures 0 <= x * (f + 1) / 256 <= x
    ensures f >= 0 ==> x * (f + 1) / 256 <= f
  {
    MulMonotonic(x, 0, f + 1);
    MulMonotonic(x, f + 1, 256);
    QuotientMonotonic(0, x * (f + 1), 256);
    QuotientMonotonic(x * (f + 1), x * 256, 256);
    if f >= 0 {
      MulMonotonic(f + 1, x, 255);
      QuotientMonotonic(x * (f + 1), 255 * (f + 1), 256);
      assert 255 * (f + 1) / 256 <= f;
    }
  }

  lemma ModulateMonotonic(x: byte, y: byte, f: factor, g: factor)
    requires x <= y && f <= g
    ensures Modulate(x, f) <= Modulate(y, g)
  {
    MulMonotonic(f + 1, x, y);
    MulMonotonic(y, f + 1, g + 1);
    QuotientMonotonic(x * (f + 1), y * (g + 1), 256);
  }

  lemma ModulateEnds(x: byte)
    ensures Modulate(x, 255) == x && Modulate(x, -1) == 0 && Modulate(255, x) == x
  {
  }

  function Inverse(x: byte): byte {
    255 - x
  }

  /** The source inverts its factors by exclusive or. */
  lemma InverseIsXor(x: byte)
    ensures Inverse(x) == Xor(x, 255)
  {
    XorFF(x);
  }

  function Weigh(c: Color, f: Factors): Color {
    Color(Modulate(c.a, f.a), Modulate(c.r, f.r), Modulate(c.g, f.g), Modulate(c.b, f.b))
  }

  /** Modulates the colours by one factor; alpha stays. */
  function Tint(c: Color, f: factor): Color {
    Weigh(c, Factors(255, f, f, f)).(a := c.a)
  }

  function Same(f: factor): Factors {
    Factors(f, f, f, f)
  }

  function Colors(c: Color): Factors {
    Factors(c.a, c.r, c.g, c.b)
  }

  function InverseColors(c: Color): Factors {
    Factors(Inverse(c.a), Inverse(c.r), Inverse(c.g), Inverse(c.b))
  }

  /** Every channel of c is taken so many 256ths, rounded down. */
  predicate Weighted(x: Color, c: Color, a: int, r: int, g: int, b: int) {
    x.a == c.a * a / 256 && x.r == c.r * r / 256 && x.g == c.g * g / 256 && x.b == c.b * b / 256
  }

  lemma WeighIs(c: Color, f: Factors)
    ensures Weighted(Weigh(c, f), c, f.a + 1, f.r + 1, f.g + 1, f.b + 1)
  {
  }

  /** What a blend function multiplies with, given the source and destination it is applied to. */
  function FactorsOf(f: BlendFunction, s: Color, d: Color): Factors {
    match f
    case ZERO => Same(-1)
    case ONE | UNKNOWN => Same(255)
    case SRCCOLOR => Colors(s)
    case INVSRCCOLOR => InverseColors(s)
    case SRCALPHA => Same(s.a)
    case INVSRCALPHA => Same(Inverse(s.a))
    case DESTALPHA => Same(d.a)
    case INVDESTALPHA => Same(Inverse(d.a))
    case DESTCOLOR => Colors(d)
    case INVDESTCOLOR => InverseColors(d)
    case SRCALPHASAT => var m := if s.a < Inverse(d.a) then s.a else Inverse(d.a); Factors(255, m, m, m)
  }

  /** Every blend function in plain arithmetic, for any colour it is applied to. */
  lemma BlendArithmetic(f: BlendFunction, c: Color, s: Color, d: Color)
    ensures f == ZERO ==> Weighted(Weigh(c, FactorsOf(f, s, d)), c, 0, 0, 0, 0)
    ensures f == ONE ==> Weighted(Weigh(c, FactorsOf(f, s, d)), c, 256, 256, 256, 256)
    ensures f == UNKNOWN ==> Weighted(Weigh(c, FactorsOf(f, s, d)), c, 256, 256, 256, 256)
    ensures f == SRCCOLOR ==> Weighted(Weigh(c, FactorsOf(f, s, d)), c, s.a + 1, s.r + 1, s.g + 1, s.b + 1)
    ensures f == INVSRCCOLOR ==> Weighted(Weigh(c, FactorsOf(f, s, d)), c, 256 - s.a, 256 - s.r, 256 - s.g, 256 - s.b)
    ensures f == SRCALPHA ==> Weighted(Weigh(c, FactorsOf(f, s, d)), c, s.a + 1, s.a + 1, s.a + 1, s.a + 1)
    ensures f == INVSRCALPHA ==> Weighted(Weigh(c, FactorsOf(f, s, d)), c, 256 - s.a, 256 - s.a, 256 - s.a, 256 - s.a)
    ensures f == DESTALPHA ==> Weighted(Weigh(c, FactorsOf(f, s, d)), c, d.a + 1, d.a + 1, d.a + 1, d.a + 1)
    ensures f == INVDESTALPHA ==> Weighted(Weigh(c, FactorsOf(f, s, d)), c, 256 - d.a, 256 - d.a, 256 - d.a, 256 - d.a)
    ensures f == DESTCOLOR ==> Weighted(Weigh(c, FactorsOf(f, s, d)), c, d.a + 1, d.r + 1, d.g + 1, d.b + 1)
    ensures f == INVDESTCOLOR ==> Weighted(Weigh(c, FactorsOf(f, s, d)), c, 256 - d.a, 256 - d.r, 256 - d.g, 256 - d.b)
    ensures f == SRCALPHASAT && s.a <= 255 - d.a ==>
      Weighted(Weigh(c, FactorsOf(f, s, d)), c, 256, s.a + 1, s.a + 1, s.a + 1)
    ensures f == SRCALPHASAT && s.a > 255 - d.a ==>
      Weighted(Weigh(c, FactorsOf(f, s, d)), c, 256, 256 - d.a, 256 - d.a, 256 - d.a)
  {
    BlendBySource(f, c, s, d);
    BlendByDestination(f, c, s, d);
    hide Weigh, FactorsOf, Weighted;
  }

  lemma BlendBySource(f: BlendFunction, c: Color, s: Color, d: Color)
    ensures f == ZERO ==> Weighted(Weigh(c, FactorsOf(f, s, d)), c, 0, 0, 0, 0)
    ensures f == ONE ==> Weighted(Weigh(c, FactorsOf(f, s, d)), c, 256, 256, 256, 256)
    ensures f == UNKNOWN ==> Weighted(Weigh(c, FactorsOf(f, s, d)), c, 256, 256, 256, 256)
    ensures f == SRCCOLOR ==> Weighted(Weigh(c, FactorsOf(f, s, d)), c, s.a + 1, s.r + 1, s.g + 1, s.b + 1)
    ensures f == INVSRCCOLOR ==> Weighted(Weigh(c, FactorsOf(f, s, d)), c, 256 - s.a, 256 - s.r, 256 - s.g, 256 - s.b)
    ensures f == SRCALPHA ==> Weighted(Weigh(c, FactorsOf(f, s, d)), c, s.a + 1, s.a + 1, s.a + 1, s.a + 1)
    ensures f == INVSRCALPHA ==> Weighted(Weigh(c, FactorsOf(f, s, d)), c, 256 - s.a, 256 - s.a, 256 - s.a, 256 - s.a)
  {
    WeighIs(c, FactorsOf(f, s, d));
    hide Weigh, Weighted;
    match f
    case ZERO =>
    case UNKNOWN | ONE =>
    case SRCCOLOR | INVSRCCOLOR =>
    case SRCALPHA | INVSRCALPHA =>
    case _ =>
  }

  lemma BlendByDestination(f: BlendFunction, c: Color, s: Color, d: Color)
    ensures f == DESTALPHA ==> Weighted(Weigh(c, FactorsOf(f, s, d)), c, d.a + 1, d.a + 1, d.a + 1, d.a + 1)
    ensures f == INVDESTALPHA ==> Weighted(Weigh(c, FactorsOf(f, s, d)), c, 256 - d.a, 256 - d.a, 256 - d.a, 256 - d.a)
    ensures f == DESTCOLOR ==> Weighted(Weigh(c, FactorsOf(f, s, d)), c, d.a + 1, d.r + 1, d.g + 1, d.b + 1)
    ensures f == INVDESTCOLOR ==> Weighted(Weigh(c, FactorsOf(f, s, d)), c, 256 - d.a, 256 - d.r, 256 - d.g, 256 - d.b)
    ensures f == SRCALPHASAT && s.a <= 255 - d.a ==>
      Weighted(Weigh(c, FactorsOf(f, s, d)), c, 256, s.a + 1, s.a + 1, s.a + 1)
    ensures f == SRCALPHASAT && s.a > 255 - d.a ==>
      Weighted(Weigh(c, FactorsOf(f, s, d)), c, 256, 256 - d.a, 256 - d.a, 256 - d.a)
  {
    WeighIs(c, FactorsOf(f, s, d));
    hide Weigh, Weighted;
    match f
    case DESTALPHA | INVDESTALPHA =>
    case DESTCOLOR | INVDESTCOLOR =>
    case SRCALPHASAT =>
    case _ =>
  }

  function Clamp(x: int): byte {
    if x < 0 then 0 else if x > 255 then 255 else x
  }

  function Saturate(x: Color, y: Color): Color {
    Color(Clamp(x.a + y.a), Clamp(x.r + y.r), Clamp(x.g + y.g), Clamp(x.b + y.b))
  }

  function Quotient(x: byte, a: byte): nat {
    x * 256 / (a + 1)
  }

  /** The quotient is stored in a byte, so only its low eight bits are kept. */
  function DemultiplyByte(x: byte, a: byte): byte {
    Quotient(x, a) % 256
  }

  function Demultiply(x: Color): Color {
    Color(x.a, DemultiplyByte(x.r, x.a), DemultiplyByte(x.g, x.a), DemultiplyByte(x.b, x.a))
  }

  function XorColor(x: Color, y: Color): Color {
    Color(Xor(x.a, y.a), Xor(x.r, y.r), Xor(x.g, y.g), Xor(x.b, y.b))
  }

  /** The key of a pixel: its colours below a full alpha byte. */
  function PixelRgb32(c: Color): nat {
    0xFF000000 + c.r * 0x10000 + c.g * 0x100 + c.b
  }

  predicate Blends(state: CardState) {
    BLEND_ALPHACHANNEL in state.flags || BLEND_COLORALPHA in state.flags
  }

  predicate Keyed(state: CardState, src: Color, dst: Color) {
    || (SRC_COLORKEY in state.flags && PixelRgb32(src) == state.srcKey)
    || (DST_COLORKEY in state.flags && PixelRgb32(dst) != state.dstKey)
  }

  function Modulated(state: CardState, src: Color): Color {
    var alpha :=
      if BLEND_COLORALPHA !in state.flags then src.a
      else if BLEND_ALPHACHANNEL in state.flags then Modulate(src.a, state.color.a)
      else state.color.a;
    var c := if COLORIZE in state.flags then Weigh(src, Colors(state.color)) else src;
    c.(a := alpha)
  }

  /** The source after modulation and premultiplication; it does not depend on the destination. */
  function SourceColor(state: CardState, src: Color): Color {
    var m := Modulated(state, src);
    var p := if SRC_PREMULTIPLY in state.flags then Tint(m, m.a) else m;
    if SRC_PREMULTCOLOR in state.flags then Tint(p, state.color.a) else p
  }

  function DestinationColor(state: CardState, dst: Color): Color {
    if DST_PREMULTIPLY in state.flags then Tint(dst, dst.a) else dst
  }

  function Blended(state: CardState, s: Color, d: Color): Color {
    if Blends(state)
    then Saturate(Weigh(s, FactorsOf(state.srcBlend, s, d)), Weigh(d, FactorsOf(state.dstBlend, s, d)))
    else s
  }

  function Finished(state: CardState, x: Color, dst: Color): Color {
    var y := if DEMULTIPLY in state.flags then Demultiply(x) else x;
    if XOR in state.flags then XorColor(y, dst) else y
  }

  function Blit(state: CardState, src: Color, dst: Color): Color {
    if state.flags == {} then src
    else if Keyed(state, src, dst) then dst
    else Finished(state, Blended(state, SourceColor(state, src), DestinationColor(state, dst)), dst)
  }

  /** One blit: the state may be another one every time. */
  datatype Operation = Operation(state: CardState, source: Color)

  /** One destination pixel under a sequence of blits. */
  function BlitAll(ops: seq<Operation>, dst: Color): Color {
    if ops == [] then dst else BlitAll(ops[1..], Blit(ops[0].state, ops[0].source, dst))
  }

  lemma {:induction false} BlitAllSnoc(ops: seq<Operation>, last: Operation, dst: Color)
    ensures BlitAll(ops + [last], dst) == Blit(last.state, last.source, BlitAll(ops, dst))
  {
    hide Blit;
    if ops == [] {
      assert ops + [last] == [last];
    } else {
      assert (ops + [last])[1..] == ops[1..] + [last];
      BlitAllSnoc(ops[1..], last, Blit(ops[0].state, ops[0].source, dst));
    }
  }

  // ---- The pixel pipeline, updating its pixels in place ----

  method SourceBlend(f: BlendFunction, src: Color, dst: Color) returns (x: Color)
    ensures x == Weigh(src, FactorsOf(f, src, dst))
  {
    x := src;
    ModulateEnds(src.a);
    ModulateEnds(src.r);
    ModulateEnds(src.g);
    ModulateEnds(src.b);
    hide Modulate, Weighted;
    match f
    case ZERO =>
      x := Color(0, 0, 0, 0);
    case ONE | UNKNOWN =>
    case SRCCOLOR =>
      x := x.(a := Modulate(x.a, src.a));
      x := x.(r := Modulate(x.r, src.r));
      x := x.(g := Modulate(x.g, src.g));
      x := x.(b := Modulate(x.b, src.b));
    case INVSRCCOLOR =>
      x := x.(a := Modulate(x.a, Inverse(src.a)));
      x := x.(r := Modulate(x.r, Inverse(src.r)));
      x := x.(g := Modulate(x.g, Inverse(src.g)));
      x := x.(b := Modulate(x.b, Inverse(src.b)));
    case SRCALPHA =>
      x := ModulateAll(x, src.a);
    case INVSRCALPHA =>
      x := ModulateAll(x, Inverse(src.a));
    case DESTALPHA =>
      x := ModulateAll(x, dst.a);
    case INVDESTALPHA =>
      x := ModulateAll(x, Inverse(dst.a));
    case DESTCOLOR =>
      x := x.(a := Modulate(x.a, dst.a));
      x := x.(r := Modulate(x.r, dst.r));
      x := x.(g := Modulate(x.g, dst.g));
      x := x.(b := Modulate(x.b, dst.b));
    case INVDESTCOLOR =>
      x := x.(a := Modulate(x.a, Inverse(dst.a)));
      x := x.(r := Modulate(x.r, Inverse(dst.r)));
      x := x.(g := Modulate(x.g, Inverse(dst.g)));
      x := x.(b := Modulate(x.b, Inverse(dst.b)));
    case SRCALPHASAT =>
      var m := if src.a < Inverse(dst.a) then src.a else Inverse(dst.a);
      x := x.(r := Modulate(x.r, m));
      x := x.(g := Modulate(x.g, m));
      x := x.(b := Modulate(x.b, m));
  }

  /** The source side of the blend, by every blend function in plain arithmetic. */
  method ApplySourceBlend(f: BlendFunction, src: Color, dst: Color) returns (x: Color)
    ensures x == Weigh(src, FactorsOf(f, src, dst))
    ensures f == ZERO ==> Weighted(x, src, 0, 0, 0, 0)
    ensures f == ONE ==> Weighted(x, src, 256, 256, 256, 256)
    ensures f == UNKNOWN ==> Weighted(x, src, 256, 256, 256, 256)
    ensures f == SRCCOLOR ==> Weighted(x, src, src.a + 1, src.r + 1, src.g + 1, src.b + 1)
    ensures f == INVSRCCOLOR ==> Weighted(x, src, 256 - src.a, 256 - src.r, 256 - src.g, 256 - src.b)
    ensures f == SRCALPHA ==> Weighted(x, src, src.a + 1, src.a + 1, src.a + 1, src.a + 1)
    ensures f == INVSRCALPHA ==> Weighted(x, src, 256 - src.a, 256 - src.a, 256 - src.a, 256 - src.a)
    ensures f == DESTALPHA ==> Weighted(x, src, dst.a + 1, dst.a + 1, dst.a + 1, dst.a + 1)
    ensures f == INVDESTALPHA ==> Weighted(x, src, 256 - dst.a, 256 - dst.a, 256 - dst.a, 256 - dst.a)
    ensures f == DESTCOLOR ==> Weighted(x, src, dst.a + 1, dst.r + 1, dst.g + 1, dst.b + 1)
    ensures f == INVDESTCOLOR ==> Weighted(x, src, 256 - dst.a, 256 - dst.r, 256 - dst.g, 256 - dst.b)
    ensures f == SRCALPHASAT && src.a <= 255 - dst.a ==>
      Weighted(x, src, 256, src.a + 1, src.a + 1, src.a + 1)
    ensures f == SRCALPHASAT && src.a > 255 - dst.a ==>
      Weighted(x, src, 256, 256 - dst.a, 256 - dst.a, 256 - dst.a)
  {
    x := SourceBlend(f, src, dst);
    BlendArithmetic(f, src, src, dst);
    hide Weigh, FactorsOf, Weighted;
  }

  method ModulateAll(c: Color, f: byte) returns (x: Color)
    ensures x == Weigh(c, Same(f))
  {
    x := c;
    x := x.(a := Modulate(x.a, f));
    x := x.(r := Modulate(x.r, f));
    x := x.(g := Modulate(x.g, f));
    x := x.(b := Modulate(x.b, f));
  }

  /** The destination is its own factor here, so its alpha has to be the last to change. */
  method DestinationBlend(f: BlendFunction, src: Color, dst0: Color) returns (dst: Color)
    ensures dst == Weigh(dst0, FactorsOf(f, src, dst0))
  {
    dst := dst0;
    ModulateEnds(dst.a);
    ModulateEnds(dst.r);
    ModulateEnds(dst.g);
    ModulateEnds(dst.b);
    hide Modulate, Weighted;
    match f
    case ZERO =>
      dst := Color(0, 0, 0, 0);
    case ONE | UNKNOWN =>
    case SRCCOLOR =>
      dst := dst.(a := Modulate(dst.a, src.a));
      dst := dst.(r := Modulate(dst.r, src.r));
      dst := dst.(g := Modulate(dst.g, src.g));
      dst := dst.(b := Modulate(dst.b, src.b));
    case INVSRCCOLOR =>
      dst := dst.(a := Modulate(dst.a, Inverse(src.a)));
      dst := dst.(r := Modulate(dst.r, Inverse(src.r)));
      dst := dst.(g := Modulate(dst.g, Inverse(src.g)));
      dst := dst.(b := Modulate(dst.b, Inverse(src.b)));
    case SRCALPHA =>
      dst := ModulateAll(dst, src.a);
    case INVSRCALPHA =>
      dst := ModulateAll(dst, Inverse(src.a));
    case DESTALPHA =>
      dst := dst.(r := Modulate(dst.r, dst.a));
      dst := dst.(g := Modulate(dst.g, dst.a));
      dst := dst.(b := Modulate(dst.b, dst.a));
      dst := dst.(a := Modulate(dst.a, dst.a));
    case INVDESTALPHA =>
      dst := dst.(r := Modulate(dst.r, Inverse(dst.a)));
      dst := dst.(g := Modulate(dst.g, Inverse(dst.a)));
      dst := dst.(b := Modulate(dst.b, Inverse(dst.a)));
      dst := dst.(a := Modulate(dst.a, Inverse(dst.a)));
    case DESTCOLOR =>
      dst := dst.(r := Modulate(dst.r, dst.r));
      dst := dst.(g := Modulate(dst.g, dst.g));
      dst := dst.(b := Modulate(dst.b, dst.b));
      dst := dst.(a := Modulate(dst.a, dst.a));
    case INVDESTCOLOR =>
      dst := dst.(r := Modulate(dst.r, Inverse(dst.r)));
      dst := dst.(g := Modulate(dst.g, Inverse(dst.g)));
      dst := dst.(b := Modulate(dst.b, Inverse(dst.b)));
      dst := dst.(a := Modulate(dst.a, Inverse(dst.a)));
    case SRCALPHASAT =>
      dst := dst.(r := Modulate(dst.r, if src.a < Inverse(dst.a) then src.a else Inverse(dst.a)));
      dst := dst.(g := Modulate(dst.g, if src.a < Inverse(dst.a) then src.a else Inverse(dst.a)));
      dst := dst.(b := Modulate(dst.b, if src.a < Inverse(dst.a) then src.a else Inverse(dst.a)));
  }

  /** The destination side of the blend, by every blend function in plain arithmetic. */
  method ApplyDestinationBlend(f: BlendFunction, src: Color, dst0: Color) returns (dst: Color)
    ensures dst == Weigh(dst0, FactorsOf(f, src, dst0))
    ensures f == ZERO ==> Weighted(dst, dst0, 0, 0, 0, 0)
    ensures f == ONE ==> Weighted(dst, dst0, 256, 256, 256, 256)
    ensures f == UNKNOWN ==> Weighted(dst, dst0, 256, 256, 256, 256)
    ensures f == SRCCOLOR ==> Weighted(dst, dst0, src.a + 1, src.r + 1, src.g + 1, src.b + 1)
    ensures f == INVSRCCOLOR ==> Weighted(dst, dst0, 256 - src.a, 256 - src.r, 256 - src.g, 256 - src.b)
    ensures f == SRCALPHA ==> Weighted(dst, dst0, src.a + 1, src.a + 1, src.a + 1, src.a + 1)
    ensures f == INVSRCALPHA ==> Weighted(dst, dst0, 256 - src.a, 256 - src.a, 256 - src.a, 256 - src.a)
    ensures f == DESTALPHA ==> Weighted(dst, dst0, dst0.a + 1, dst0.a + 1, dst0.a + 1, dst0.a + 1)
    ensures f == INVDESTALPHA ==> Weighted(dst, dst0, 256 - dst0.a, 256 - dst0.a, 256 - dst0.a, 256 - dst0.a)
    ensures f == DESTCOLOR ==> Weighted(dst, dst0, dst0.a + 1, dst0.r + 1, dst0.g + 1, dst0.b + 1)
    ensures f == INVDESTCOLOR ==> Weighted(dst, dst0, 256 - dst0.a, 256 - dst0.r, 256 - dst0.g, 256 - dst0.b)
    ensures f == SRCALPHASAT && src.a <= 255 - dst0.a ==>
      Weighted(dst, dst0, 256, src.a + 1, src.a + 1, src.a + 1)
    ensures f == SRCALPHASAT && src.a > 255 - dst0.a ==>
      Weighted(dst, dst0, 256, 256 - dst0.a, 256 - dst0.a, 256 - dst0.a)
  {
    dst := DestinationBlend(f, src, dst0);
    BlendArithmetic(f, dst0, src, dst0);
    hide Weigh, FactorsOf, Weighted;
  }

  method TintInPlace(c: Color, f: byte) returns (x: Color)
    ensures x == Tint(c, f)
  {
    x := c;
    x := x.(r := Modulate(x.r, f));
    x := x.(g := Modulate(x.g, f));
    x := x.(b := Modulate(x.b, f));
  }

  method ModulateSource(state: CardState, src0: Color) returns (src: Color)
    ensures src == Modulated(state, src0)
  {
    src := src0;
    if BLEND_COLORALPHA in state.flags {
      if BLEND_ALPHACHANNEL in state.flags {
        src := src.(a := Modulate(src.a, state.color.a));
      } else {
        src := src.(a := state.color.a);
      }
    }
    if COLORIZE in state.flags {
      src := src.(r := Modulate(src.r, state.color.r));
      src := src.(g := Modulate(src.g, state.color.g));
      src := src.(b := Modulate(src.b, state.color.b));
    }
  }

  method Add(x0: Color, dst: Color) returns (x: Color)
    ensures x == Saturate(x0, dst)
  {
    x := x0;
    x := x.(a := Clamp(x.a + dst.a));
    x := x.(r := Clamp(x.r + dst.r));
    x := x.(g := Clamp(x.g + dst.g));
    x := x.(b := Clamp(x.b + dst.b));
  }

  method DemultiplyInPlace(x0: Color) returns (x: Color)
    ensures x == Demultiply(x0)
  {
    x := x0;
    x := x.(r := DemultiplyByte(x.r, x.a));
    x := x.(g := DemultiplyByte(x.g, x.a));
    x := x.(b := DemultiplyByte(x.b, x.a));
  }

  method BlitPixel(state: CardState, src0: Color, dst0: Color) returns (x: Color)
    ensures x == Blit(state, src0, dst0)
  {
    hide Modulated, Tint, Weigh, FactorsOf, Saturate, Demultiply, XorColor, PixelRgb32;
    var src, dst := src0, dst0;
    if state.flags == {} {
      return src;
    }
    if SRC_COLORKEY in state.flags {
      if PixelRgb32(src) == state.srcKey {
        return dst;
      }
    }
    if DST_COLORKEY in state.flags {
      if PixelRgb32(dst) != state.dstKey {
        return dst;
      }
    }
    // Modulation and premultiplication
    src := ModulateSource(state, src);
    if SRC_PREMULTIPLY in state.flags {
      src := TintInPlace(src, src.a);
    }
    if SRC_PREMULTCOLOR in state.flags {
      src := TintInPlace(src, state.color.a);
    }
    if DST_PREMULTIPLY in state.flags {
      dst := TintInPlace(dst, dst.a);
    }
    // Blending
    x := src;
    if BLEND_ALPHACHANNEL in state.flags || BLEND_COLORALPHA in state.flags {
      x := ApplySourceBlend(state.srcBlend, src, dst);
      dst := ApplyDestinationBlend(state.dstBlend, src, dst);
      x := Add(x, dst);
    }
    if DEMULTIPLY in state.flags {
      x := DemultiplyInPlace(x);
    }
    if XOR in state.flags {
      x := XorColor(x, dst0);
    }
  }

  // ---- The order of the stages ----

  /** A colour key compares colours, not alpha. */
  lemma KeyIsColors(c: Color, d: Color)
    ensures PixelRgb32(c) == PixelRgb32(d) <==> c.r == d.r && c.g == d.g && c.b == d.b
    ensures PixelRgb32(c) == 0xFF000000 + 65536 * c.r + 256 * c.g + c.b
  {
  }

  /** A key keeps the destination: the source key when it matches, the destination key when it does not. */
  lemma KeysKeepDestination(state: CardState, src: Color, dst: Color)
    ensures SRC_COLORKEY in state.flags && PixelRgb32(src) == state.srcKey ==> Blit(state, src, dst) == dst
    ensures DST_COLORKEY in state.flags && PixelRgb32(dst) != state.dstKey ==> Blit(state, src, dst) == dst
  {
  }

  predicate PassesKeys(state: CardState, src: Color, dst: Color) {
    && (SRC_COLORKEY in state.flags ==> PixelRgb32(src) != state.srcKey)
    && (DST_COLORKEY in state.flags ==> PixelRgb32(dst) == state.dstKey)
  }

  /** XOR comes last and takes the destination as it was before any stage. */
  lemma XorComesLast(state: CardState, src: Color, dst: Color)
    requires XOR in state.flags && PassesKeys(state, src, dst)
    ensures
      var y := Blit(state.(flags := state.flags - {XOR}), src, dst);
      Blit(state, src, dst) == Color(Xor(y.a, dst.a), Xor(y.r, dst.r), Xor(y.g, dst.g), Xor(y.b, dst.b))
  {
    XorIsOutermost(state, src, dst);
    hide Blit, Xor;
  }

  lemma XorIsOutermost(state: CardState, src: Color, dst: Color)
    requires XOR in state.flags && PassesKeys(state, src, dst)
    ensures Blit(state, src, dst) == XorColor(Blit(state.(flags := state.flags - {XOR}), src, dst), dst)
  {
    var without := state.(flags := state.flags - {XOR});
    FlagsDecide(state, without, src, dst);
    StagesDecide(state, src, dst);
    StagesDecide(without, src, dst);
    hide Blit, Blended, SourceColor, DestinationColor, Demultiply, PixelRgb32, XorColor;
  }

  /** Demultiplication comes after everything but XOR. */
  lemma DemultiplyComesAfterBlend(state: CardState, src: Color, dst: Color)
    requires DEMULTIPLY in state.flags && XOR !in state.flags && PassesKeys(state, src, dst)
    ensures Blit(state, src, dst) == Demultiply(Blit(state.(flags := state.flags - {DEMULTIPLY}), src, dst))
  {
    var without := state.(flags := state.flags - {DEMULTIPLY});
    FlagsDecide(state, without, src, dst);
    StagesDecide(state, src, dst);
    StagesDecide(without, src, dst);
    hide Blit, Blended, SourceColor, DestinationColor, Demultiply, PixelRgb32, XorColor;
  }

  /** Past the keys, a pixel goes through all stages, also when no flag is set. */
  lemma StagesDecide(state: CardState, src: Color, dst: Color)
    requires PassesKeys(state, src, dst)
    ensures Blit(state, src, dst) ==
      Finished(state, Blended(state, SourceColor(state, src), DestinationColor(state, dst)), dst)
  {
    if state.flags == {} {
      NoFlags(state, src, DestinationColor(state, dst));
    }
    hide Blended, SourceColor, DestinationColor, PixelRgb32;
  }

  /** The stages before the last two only look at their own flags. */
  lemma FlagsDecide(state: CardState, other: CardState, src: Color, dst: Color)
    requires other == state.(flags := other.flags)
    requires forall f :: f != XOR && f != DEMULTIPLY ==> (f in state.flags <==> f in other.flags)
    ensures PassesKeys(state, src, dst) ==> PassesKeys(other, src, dst)
    ensures Blended(state, SourceColor(state, src), DestinationColor(state, dst)) ==
      Blended(other, SourceColor(other, src), DestinationColor(other, dst))
  {
    hide Weigh, Saturate, FactorsOf, Tint, PixelRgb32;
  }

  lemma NoFlags(state: CardState, src: Color, dst: Color)
    requires state.flags == {}
    ensures SourceColor(state, src) == src && Blended(state, src, dst) == src
  {
  }

  /** Modulation, in plain arithmetic: what a state without premultiplication makes of a source. */
  lemma SourceModulated(state: CardState, src: Color)
    requires SRC_PREMULTIPLY !in state.flags && SRC_PREMULTCOLOR !in state.flags
    ensures
      var alpha := if BLEND_COLORALPHA !in state.flags then 256 else state.color.a + 1;
      if BLEND_COLORALPHA in state.flags && BLEND_ALPHACHANNEL !in state.flags
      then SourceColor(state, src).a == state.color.a
      else SourceColor(state, src).a == src.a * alpha / 256
    ensures COLORIZE !in state.flags ==> Weighted(SourceColor(state, src).(a := src.a), src, 256, 256, 256, 256)
    ensures COLORIZE in state.flags ==>
      Weighted(SourceColor(state, src).(a := src.a), src, 256, state.color.r + 1, state.color.g + 1, state.color.b + 1)
  {
  }

  /** Premultiplication weighs colours only: with the alpha that modulation left, and after that with the global one. */
  lemma SourcePremultiplied(state: CardState, src: Color)
    ensures SRC_PREMULTCOLOR in state.flags ==>
      var s, k := SourceColor(state.(flags := state.flags - {SRC_PREMULTCOLOR}), src), state.color.a;
      Weighted(SourceColor(state, src), s, 256, k + 1, k + 1, k + 1)
    ensures SRC_PREMULTIPLY in state.flags && SRC_PREMULTCOLOR !in state.flags ==>
      var s := SourceColor(state.(flags := state.flags - {SRC_PREMULTIPLY}), src);
      Weighted(SourceColor(state, src), s, 256, s.a + 1, s.a + 1, s.a + 1)
  {
    assert Modulated(state, src) == Modulated(state.(flags := state.flags - {SRC_PREMULTCOLOR}), src);
    assert Modulated(state, src) == Modulated(state.(flags := state.flags - {SRC_PREMULTIPLY}), src);
    hide Modulated;
  }

  lemma DestinationPremultiplied(state: CardState, dst: Color)
    ensures DST_PREMULTIPLY !in state.flags ==> DestinationColor(state, dst) == dst
    ensures DST_PREMULTIPLY in state.flags ==>
      Weighted(DestinationColor(state, dst), dst, 256, dst.a + 1, dst.a + 1, dst.a + 1)
  {
  }

  /** The blend adds both sides and stops at 255. */
  lemma BlendSaturates(state: CardState, s: Color, d: Color)
    requires Blends(state)
    ensures
      var x, y := Weigh(s, FactorsOf(state.srcBlend, s, d)), Weigh(d, FactorsOf(state.dstBlend, s, d));
      var z := Blended(state, s, d);
      && z.a == Least(255, x.a + y.a) && z.r == Least(255, x.r + y.r)
      && z.g == Least(255, x.g + y.g) && z.b == Least(255, x.b + y.b)
  {
    hide Weigh, FactorsOf;
  }

  function Least(a: int, b: int): int { if a < b then a else b }

  /** A quotient is stored modulo 256. */
  lemma DemultiplyArithmetic(x: Color)
    ensures
      var y := Demultiply(x);
      && y.a == x.a && y.r == x.r * 256 / (x.a + 1) % 256
      && y.g == x.g * 256 / (x.a + 1) % 256 && y.b == x.b * 256 / (x.a + 1) % 256
  {
  }

  /** Alpha blending: an opaque source is stored as it is, a transparent one leaves the destination. */
  lemma AlphaBlend(state: CardState, src: Color, dst: Color)
    requires Blends(state) && state.srcBlend == SRCALPHA && state.dstBlend == INVSRCALPHA
    requires XOR !in state.flags && DEMULTIPLY !in state.flags && PassesKeys(state, src, dst)
    ensures SourceColor(state, src).a == 255 ==> Blit(state, src, dst) == SourceColor(state, src)
    ensures SourceColor(state, src).a == 0 ==> Blit(state, src, dst) == DestinationColor(state, dst)
  {
    var s, d := SourceColor(state, src), DestinationColor(state, dst);
    EndsOfWeight(s);
    EndsOfWeight(d);
    hide SourceColor, DestinationColor, Weigh, PixelRgb32;
  }

  /** Full weight changes nothing; the least weight that is not nothing leaves nothing either. */
  lemma EndsOfWeight(c: Color)
    ensures Weigh(c, Same(255)) == c && Weigh(c, Same(0)) == Color(0, 0, 0, 0)
  {
  }

  // ---- Premultiplied blending ----

  /** Each colour is at most alpha. */
  predicate Premultiplied(c: Color) {
    c.r <= c.a && c.g <= c.a && c.b <= c.a
  }

  /** Source over destination on premultiplied colours: functions ONE and INVSRCALPHA. */
  predicate IsOver(state: CardState) {
    Blends(state) && state.srcBlend == ONE && state.dstBlend == INVSRCALPHA && XOR !in state.flags
  }

  /** Blits over a premultiplied destination, of sources that are premultiplied when they are blended. */
  predicate AllOver(ops: seq<Operation>) {
    forall k :: 0 <= k < |ops| ==>
      && IsOver(ops[k].state) && DEMULTIPLY !in ops[k].state.flags
      && Premultiplied(SourceColor(ops[k].state, ops[k].source))
  }

  /**
    Which states turn every premultiplied source into a premultiplied one: the
    alpha that BLEND_COLORALPHA lowers or replaces has to be applied to the colours too.
   */
  predicate KeepsSourcesPremultiplied(state: CardState) {
    || SRC_PREMULTIPLY in state.flags
    || SRC_PREMULTCOLOR in state.flags
    || BLEND_COLORALPHA !in state.flags
    || state.color.a == 255
    || (COLORIZE in state.flags && Premultiplied(state.color))
  }

  lemma SourceStaysPremultiplied(state: CardState, src: Color)
    requires KeepsSourcesPremultiplied(state) && Premultiplied(src)
    ensures Premultiplied(SourceColor(state, src))
  {
    ChannelStays(state, src.r, src.a, state.color.r);
    ChannelStays(state, src.g, src.a, state.color.g);
    ChannelStays(state, src.b, src.a, state.color.b);
  }

  /** One colour and alpha of the source, through the stages SourceColor runs them through. */
  lemma ChannelStays(state: CardState, c: byte, a: byte, tint: byte)
    requires c <= a
    requires KeepsSourcesPremultiplied(state) && (Premultiplied(state.color) ==> tint <= state.color.a)
    ensures
      var alpha := if BLEND_COLORALPHA !in state.flags then a
                   else if BLEND_ALPHACHANNEL in state.flags then Modulate(a, state.color.a) else state.color.a;
      var m := if COLORIZE in state.flags then Modulate(c, tint) else c;
      var p := if SRC_PREMULTIPLY in state.flags then Modulate(m, alpha) else m;
      (if SRC_PREMULTCOLOR in state.flags then Modulate(p, state.color.a) else p) <= alpha
  {
    var k := state.color.a;
    ModulateEnds(a);
    var m := if COLORIZE in state.flags then Modulate(c, tint) else c;
    ModulateMonotonic(m, a, k, k);
    ModulateMonotonic(c, a, tint, if tint <= k then k else 255);
  }

  /** The condition is exact: without it a white opaque source is no longer premultiplied. */
  lemma PremultipliedSourcesExactly(state: CardState)
    ensures KeepsSourcesPremultiplied(state) <==>
      forall src :: Premultiplied(src) ==> Premultiplied(SourceColor(state, src))
  {
    if KeepsSourcesPremultiplied(state) {
      forall src | Premultiplied(src) ensures Premultiplied(SourceColor(state, src)) {
        SourceStaysPremultiplied(state, src);
      }
    } else {
      var white := Color(255, 255, 255, 255);
      ModulateEnds(state.color.a);
      ModulateEnds(state.color.r);
      ModulateEnds(state.color.g);
      ModulateEnds(state.color.b);
      assert Premultiplied(white) && !Premultiplied(SourceColor(state, white));
    }
  }

  /** One channel of source over destination: never above alpha, and alpha never above 255. */
  lemma OverChannel(sc: byte, sa: byte, dc: byte, da: byte)
    requires sc <= sa && dc <= da
    ensures sc + Modulate(dc, Inverse(sa)) <= sa + Modulate(da, Inverse(sa)) <= 255
  {
    ModulateMonotonic(dc, da, Inverse(sa), Inverse(sa));
  }

  lemma TintStaysPremultiplied(c: Color, f: byte)
    requires Premultiplied(c)
    ensures Premultiplied(Tint(c, f))
  {
  }

  /** Neither operand of the final sum can push a channel past a byte: CLAMP changes nothing. */
  predicate SumFits(x: Color, y: Color) {
    x.a + y.a <= 255 && x.r + y.r <= 255 && x.g + y.g <= 255 && x.b + y.b <= 255
  }

  lemma OverBlends(state: CardState, s: Color, d: Color)
    requires IsOver(state) && Premultiplied(s) && Premultiplied(d)
    ensures SumFits(Weigh(s, FactorsOf(ONE, s, d)), Weigh(d, FactorsOf(INVSRCALPHA, s, d)))
    ensures Premultiplied(Blended(state, s, d))
    ensures d.a == 255 ==> Blended(state, s, d).a == 255
  {
    OverChannel(s.r, s.a, d.r, d.a);
    OverChannel(s.g, s.a, d.g, d.a);
    OverChannel(s.b, s.a, d.b, d.a);
    ModulateEnds(s.a);
    ModulateEnds(s.r);
    ModulateEnds(s.g);
    ModulateEnds(s.b);
    ModulateEnds(Inverse(s.a));
  }

  /** DEMULTIPLY keeps every quotient whole exactly on premultiplied pixels. */
  lemma DemultiplyIsExact(x: Color)
    ensures Premultiplied(x) <==>
      && Demultiply(x).r == Quotient(x.r, x.a) && Demultiply(x).g == Quotient(x.g, x.a)
      && Demultiply(x).b == Quotient(x.b, x.a)
  {
    QuotientFits(x.r, x.a);
    QuotientFits(x.g, x.a);
    QuotientFits(x.b, x.a);
    hide Quotient;
  }

  /** A pixel that is not premultiplied: of the quotient 256 nothing is left. */
  lemma DemultiplyTruncates()
    ensures Quotient(1, 0) == 256 && Demultiply(Color(0, 1, 0, 0)) == Color(0, 0, 0, 0)
  {
  }

  lemma QuotientFits(c: byte, a: byte)
    ensures Quotient(c, a) < 256 <==> c <= a
  {
    QuotientBelow(c * 256, a + 1, 256);
  }

  /**
    Source over destination, for any sequence of blits: a premultiplied
    destination stays premultiplied and an opaque one exactly opaque.
   */
  lemma {:induction false} OverKeepsPremultiplied(ops: seq<Operation>, dst: Color)
    requires AllOver(ops) && Premultiplied(dst)
    ensures Premultiplied(BlitAll(ops, dst))
    ensures dst.a == 255 ==> BlitAll(ops, dst).a == 255
  {
    if ops != [] {
      var state := ops[0].state;
      var next := Blit(state, ops[0].source, dst);
      var s, d := SourceColor(state, ops[0].source), DestinationColor(state, dst);
      TintStaysPremultiplied(dst, dst.a);
      OverBlends(state, s, d);
      hide SourceColor, Blended;
      OverKeepsPremultiplied(ops[1..], next);
    }
  }

  /** What a blit blends, before it demultiplies. */
  function BlendOf(op: Operation, dst: Color): Color {
    Blended(op.state, SourceColor(op.state, op.source), DestinationColor(op.state, dst))
  }

  /** On a premultiplied pixel DEMULTIPLY stores whole quotients, and on an opaque one it changes nothing. */
  lemma DemultiplyIsWhole(x: Color)
    requires Premultiplied(x)
    ensures
      var y := Demultiply(x);
      && y.a == x.a && y.r == Quotient(x.r, x.a) && y.g == Quotient(x.g, x.a) && y.b == Quotient(x.b, x.a)
      && (x.a == 255 ==> y == x)
  {
    DemultiplyIsExact(x);
  }

  lemma OverThenDemultiply(op: Operation, dst: Color)
    requires IsOver(op.state) && DEMULTIPLY in op.state.flags && !Keyed(op.state, op.source, dst)
    requires Premultiplied(SourceColor(op.state, op.source)) && Premultiplied(dst)
    ensures Blit(op.state, op.source, dst) == Demultiply(BlendOf(op, dst))
    ensures Premultiplied(BlendOf(op, dst)) && (dst.a == 255 ==> BlendOf(op, dst).a == 255)
  {
    TintStaysPremultiplied(dst, dst.a);
    OverBlends(op.state, SourceColor(op.state, op.source), DestinationColor(op.state, dst));
    hide SourceColor, Blended, Demultiply, Tint;
  }

  /**
    After any sequence of blits over a premultiplied destination, a last one
    that demultiplies never truncates: every colour it stores is the whole
    quotient of a premultiplied pixel.  On an opaque destination it is the
    blended pixel itself.
   */
  lemma DemultiplyNeverTruncates(ops: seq<Operation>, last: Operation, dst: Color)
    requires AllOver(ops) && Premultiplied(dst)
    requires IsOver(last.state) && DEMULTIPLY in last.state.flags && Premultiplied(SourceColor(last.state, last.source))
    requires !Keyed(last.state, last.source, BlitAll(ops, dst))
    ensures
      var x, y := BlendOf(last, BlitAll(ops, dst)), BlitAll(ops + [last], dst);
      && Premultiplied(x) && y.a == x.a
      && y.r == Quotient(x.r, x.a) && y.g == Quotient(x.g, x.a) && y.b == Quotient(x.b, x.a)
      && (dst.a == 255 ==> y == x)
  {
    hide SourceColor, Blended, BlendOf, Demultiply, Quotient, Blit, Keyed;
    OverKeepsPremultiplied(ops, dst);
    BlitAllSnoc(ops, last, dst);
    OverThenDemultiply(last, BlitAll(ops, dst));
    DemultiplyIsWhole(BlendOf(last, BlitAll(ops, dst)));
  }

  // ---- Exclusive or ----

  const BLACK := Color(0, 0, 0, 0)

  /** What a blit that neither blends nor looks at the destination's key adds by exclusive or. */
  function Delta(op: Operation): Color {
    if SRC_COLORKEY in op.state.flags && PixelRgb32(op.source) == op.state.srcKey then BLACK
    else if DEMULTIPLY in op.state.flags then Demultiply(SourceColor(op.state, op.source))
    else SourceColor(op.state, op.source)
  }

  function Sum(ops: seq<Operation>): Color {
    if ops == [] then BLACK else XorColor(Delta(ops[0]), Sum(ops[1..]))
  }

  lemma XorColorLaws(x: Color, y: Color, z: Color)
    ensures XorColor(XorColor(x, y), z) == XorColor(x, XorColor(y, z))
    ensures XorColor(x, y) == XorColor(y, x)
    ensures XorColor(x, BLACK) == x && XorColor(x, x) == BLACK
  {
    XorLaws(x.a, y.a, z.a);
    XorLaws(x.r, y.r, z.r);
    XorLaws(x.g, y.g, z.g);
    XorLaws(x.b, y.b, z.b);
  }

  predicate OnlyXors(state: CardState) {
    XOR in state.flags && !Blends(state) && DST_COLORKEY !in state.flags
  }

  predicate AllXor(ops: seq<Operation>) {
    forall k :: 0 <= k < |ops| ==> OnlyXors(ops[k].state)
  }

  lemma {:induction false} BlitAllIsSum(ops: seq<Operation>, dst: Color)
    requires AllXor(ops)
    ensures BlitAll(ops, dst) == XorColor(Sum(ops), dst)
  {
    hide SourceColor, XorColor, Demultiply, PixelRgb32;
    if ops == [] {
      XorColorLaws(dst, BLACK, BLACK);
    } else {
      var delta, rest := Delta(ops[0]), Sum(ops[1..]);
      XorColorLaws(dst, BLACK, BLACK);
      assert Blit(ops[0].state, ops[0].source, dst) == XorColor(delta, dst);
      BlitAllIsSum(ops[1..], XorColor(delta, dst));
      XorColorLaws(rest, delta, dst);
    }
  }

  lemma {:induction false} SumSplits(xs: seq<Operation>, ys: seq<Operation>)
    ensures Sum(xs + ys) == XorColor(Sum(xs), Sum(ys))
  {
    hide Delta, XorColor;
    if xs == [] {
      assert xs + ys == ys;
      XorColorLaws(Sum(ys), BLACK, BLACK);
    } else {
      assert (xs + ys)[1..] == xs[1..] + ys;
      SumSplits(xs[1..], ys);
      XorColorLaws(Delta(xs[0]), Sum(xs[1..]), Sum(ys));
    }
  }

  lemma SumTakesOut(xs: seq<Operation>, k: nat)
    requires k < |xs|
    ensures Sum(xs) == XorColor(Delta(xs[k]), Sum(xs[..k] + xs[k + 1..]))
  {
    hide Delta, XorColor;
    var before, after := xs[..k], xs[k + 1..];
    SumSplits(before, after);
    SumSplits(before, xs[k..]);
    assert xs == before + xs[k..];
    var d, p, q := Delta(xs[k]), Sum(before), Sum(after);
    XorColorLaws(d, p, q);
    XorColorLaws(p, d, q);
  }

  /** The order of the blits does not matter. */
  lemma {:induction false} SumIgnoresOrder(xs: seq<Operation>, ys: seq<Operation>)
    requires multiset(xs) == multiset(ys)
    ensures Sum(xs) == Sum(ys)
    decreases |xs|
  {
    if xs == [] {
      assert |multiset(ys)| == |ys|;
    } else {
      hide Delta, XorColor;
      var k := TakeOutFirst(xs, ys);
      SumIgnoresOrder(xs[1..], ys[..k] + ys[k + 1..]);
      SumTakesOut(ys, k);
    }
  }

  /** Any list of blits and then the same blits in any order restore the destination. */
  lemma XorTwiceRestores(xs: seq<Operation>, ys: seq<Operation>, dst: Color)
    requires AllXor(xs) && multiset(xs) == multiset(ys)
    ensures BlitAll(ys, BlitAll(xs, dst)) == dst
  {
    hide XorColor, Sum;
    SameElements(xs, ys);
    BlitAllIsSum(xs, dst);
    BlitAllIsSum(ys, BlitAll(xs, dst));
    SumIgnoresOrder(xs, ys);
    XorColorLaws(Sum(xs), Sum(xs), dst);
    XorColorLaws(dst, BLACK, BLACK);
  }
}
