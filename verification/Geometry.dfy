/**
  The rectangles, regions and boxes of include/directfb_util.h.  The three forms
  (position and size, closed corners, half-open corners) are views of one set of
  points; every operation is specified on that set.
 */
module Geometry {
  import opened Permutations

  datatype Point = Point(x: int, y: int)

  datatype Size = Size(w: int, h: int)

  /** Half-open corners: the points with x1 <= x < x2 and y1 <= y < y2. */
  datatype Area = Area(x1: int, y1: int, x2: int, y2: int) {
    predicate Valid() {
      x1 <= x2 && y1 <= y2
    }

    predicate Empty() {
      x1 == x2 || y1 == y2
    }

    predicate Has(p: Point) {
      x1 <= p.x < x2 && y1 <= p.y < y2
    }

    predicate Covers(other: Area) {
      x1 <= other.x1 && y1 <= other.y1 && other.x2 <= x2 && other.y2 <= y2
    }
  }

  function Min(a: int, b: int): int { if a < b then a else b }
  function Max(a: int, b: int): int { if a < b then b else a }

  // ---- Rotation ----

  predicate IsRotation(r: int) {
    r == 0 || r == 90 || r == 180 || r == 270
  }

  function RotatePoint(p: Point, size: Size, rotation: int): Point {
    match rotation
    case 90 => Point(p.y, size.w - 1 - p.x)
    case 180 => Point(size.w - 1 - p.x, size.h - 1 - p.y)
    case 270 => Point(size.h - 1 - p.y, p.x)
    case _ => p
  }

  /** Which way points turn: the right end of the top row is what comes to the top left corner by 90 degrees. */
  lemma CornersTurn(size: Size)
    ensures
      var (w, h) := (size.w - 1, size.h - 1);
      && RotatePoint(Point(w, 0), size, 90) == Point(0, 0) && RotatePoint(Point(0, 0), size, 90) == Point(0, w)
      && RotatePoint(Point(w, h), size, 180) == Point(0, 0) && RotatePoint(Point(0, 0), size, 180) == Point(w, h)
      && RotatePoint(Point(0, h), size, 270) == Point(0, 0) && RotatePoint(Point(0, 0), size, 270) == Point(h, 0)
      && RotatePoint(Point(0, 0), size, 0) == Point(0, 0) && RotatePoint(Point(w, h), size, 0) == Point(w, h)
  {
  }

  /** Points keep their distances along the axes they come to lie on. */
  lemma NeighboursTurn(p: Point, q: Point, size: Size, r: int)
    requires IsRotation(r)
    ensures
      var (a, b) := (RotatePoint(p, size, r), RotatePoint(q, size, r));
      var (dx, dy) := (q.x - p.x, q.y - p.y);
      (b.x - a.x, b.y - a.y) ==
        if r == 0 then (dx, dy) else if r == 90 then (dy, -dx) else if r == 180 then (-dx, -dy) else (-dy, dx)
  {
  }

  function RotateSize(size: Size, rotation: int): Size {
    if rotation == 90 || rotation == 270 then Size(size.h, size.w) else size
  }

  /** The area whose points are the rotated points. */
  ghost predicate IsRotated(from: Area, to: Area, size: Size, rotation: int) {
    && (from.Valid() ==> to.Valid())
    && forall p: Point :: to.Has(RotatePoint(p, size, rotation)) <==> from.Has(p)
  }

  function RotateArea(a: Area, size: Size, rotation: int): (r: Area)
    ensures IsRotated(a, r, size, rotation)
  {
    match rotation
    case 90 => Area(a.y1, size.w - a.x2, a.y2, size.w - a.x1)
    case 180 => Area(size.w - a.x2, size.h - a.y2, size.w - a.x1, size.h - a.y1)
    case 270 => Area(size.h - a.y2, a.x1, size.h - a.y1, a.x2)
    case _ => a
  }

  /** The sum of two rotations, less than a full turn. */
  function Turn(r: int, s: int): (t: int)
    ensures (t - r - s) % 360 == 0 && (0 <= r < 360 && 0 <= s < 360 ==> 0 <= t < 360)
  {
    if r + s >= 360 then r + s - 360 else r + s
  }

  /** Rotating twice, the second time on the turned surface, is one rotation by the sum. */
  lemma RotationsCompose(a: Area, size: Size, r: int, s: int)
    requires IsRotation(r) && IsRotation(s)
    ensures IsRotation(Turn(r, s)) && RotateSize(RotateSize(size, r), s) == RotateSize(size, Turn(r, s))
    ensures RotateArea(RotateArea(a, size, r), RotateSize(size, r), s) == RotateArea(a, size, Turn(r, s))
  {
  }

  lemma PointRotationsCompose(p: Point, size: Size, r: int, s: int)
    requires IsRotation(r) && IsRotation(s)
    ensures RotatePoint(RotatePoint(p, size, r), RotateSize(size, r), s) == RotatePoint(p, size, Turn(r, s))
  {
  }

  /** Every rotation can be undone. */
  lemma RotationUndone(a: Area, size: Size, r: int)
    requires IsRotation(r)
    ensures RotateArea(RotateArea(a, size, r), RotateSize(size, r), Turn(360 - r, 0)) == a
  {
    var back := Turn(360 - r, 0);
    RotationsCompose(a, size, r, back);
    hide RotateArea, RotateSize;
    assert Turn(r, back) == 0;
    NoRotation(a, size);
  }

  lemma NoRotation(a: Area, size: Size)
    ensures RotateArea(a, size, 0) == a
  {
  }

  // ---- Intersection ----

  function Meet(a: Area, b: Area): Area {
    Area(Max(a.x1, b.x1), Max(a.y1, b.y1), Min(a.x2, b.x2), Min(a.y2, b.y2))
  }

  ghost predicate Overlap(a: Area, b: Area) {
    exists p: Point :: a.Has(p) && b.Has(p)
  }

  lemma MeetIsIntersection(a: Area, b: Area, p: Point)
    ensures Meet(a, b).Has(p) <==> a.Has(p) && b.Has(p)
  {
  }

  lemma OverlapTest(a: Area, b: Area)
    ensures Overlap(a, b) <==> Meet(a, b).x1 < Meet(a, b).x2 && Meet(a, b).y1 < Meet(a, b).y2
  {
    var corner := Point(Meet(a, b).x1, Meet(a, b).y1);
    if Meet(a, b).x1 < Meet(a, b).x2 && Meet(a, b).y1 < Meet(a, b).y2 {
      assert a.Has(corner) && b.Has(corner);
    }
  }

  /** An area without points whose sides still reach into the other one. */
  predicate Crosses(a: Area, b: Area) {
    a.Empty() && !b.Empty() && a.x1 < b.x2 && b.x1 < a.x2 && a.y1 < b.y2 && b.y1 < a.y2
  }

  lemma CrossingIsNoOverlap(a: Area, b: Area)
    requires Crosses(a, b)
    ensures !Overlap(a, b)
  {
  }

  lemma RotationKeepsMeet(a: Area, b: Area, size: Size, r: int)
    ensures RotateArea(Meet(a, b), size, r) == Meet(RotateArea(a, size, r), RotateArea(b, size, r))
  {
  }

  // ---- Union ----

  /** The smallest area around both; empty areas do not count. */
  function Join(a: Area, b: Area): Area {
    if b.Empty() then a
    else if a.Empty() then b
    else Area(Min(a.x1, b.x1), Min(a.y1, b.y1), Max(a.x2, b.x2), Max(a.y2, b.y2))
  }

  function JoinAll(start: Area, areas: seq<Area>): Area {
    if areas == [] then start
    else Join(JoinAll(start, areas[..|areas| - 1]), areas[|areas| - 1])
  }

  predicate AllValid(areas: seq<Area>) {
    forall i :: 0 <= i < |areas| ==> areas[i].Valid()
  }

  predicate CoversAll(bound: Area, areas: seq<Area>) {
    forall i :: 0 <= i < |areas| ==> areas[i].Empty() || bound.Covers(areas[i])
  }

  predicate AllEmpty(areas: seq<Area>) {
    forall i :: 0 <= i < |areas| ==> areas[i].Empty()
  }

  /** Joining from an empty area gives the least area around all that are not empty. */
  lemma {:induction false} JoinAllIsLeast(start: Area, areas: seq<Area>)
    requires start.Valid() && start.Empty() && AllValid(areas)
    ensures JoinAll(start, areas).Valid() && CoversAll(JoinAll(start, areas), areas)
    ensures AllEmpty(areas) ==> JoinAll(start, areas) == start
    ensures !AllEmpty(areas) ==> !JoinAll(start, areas).Empty()
    ensures forall bound: Area :: CoversAll(bound, areas) && !AllEmpty(areas) ==> bound.Covers(JoinAll(start, areas))
  {
    if areas != [] {
      var n := |areas| - 1;
      JoinAllIsLeast(start, areas[..n]);
      var before, last := JoinAll(start, areas[..n]), areas[n];
      forall bound: Area | CoversAll(bound, areas) && !AllEmpty(areas) ensures bound.Covers(JoinAll(start, areas)) {
        assert CoversAll(bound, areas[..n]);
      }
      if AllEmpty(areas) {
        assert AllEmpty(areas[..n]);
      } else {
        assert last.Empty() ==> !AllEmpty(areas[..n]);
      }
    }
  }

  /** The order of the areas does not matter. */
  lemma JoinAllIgnoresOrder(start: Area, xs: seq<Area>, ys: seq<Area>)
    requires start.Valid() && start.Empty() && AllValid(xs) && multiset(xs) == multiset(ys)
    ensures JoinAll(start, xs) == JoinAll(start, ys)
  {
    SameElements(xs, ys);
    assert AllValid(ys);
    JoinAllIsLeast(start, xs);
    JoinAllIsLeast(start, ys);
    assert AllEmpty(xs) == AllEmpty(ys);
    assert CoversAll(JoinAll(start, xs), ys) && CoversAll(JoinAll(start, ys), xs);
  }

  // ---- The three forms ----

  class DFBRectangle {
    var x: int
    var y: int
    var w: int
    var h: int

    constructor (x: int, y: int, w: int, h: int)
      ensures AsArea() == Area(x, y, x + w, y + h)
    {
      this.x, this.y, this.w, this.h := x, y, w, h;
    }

    function AsArea(): Area
      reads this
    {
      Area(x, y, x + w, y + h)
    }

    method FromRegion(region: DFBRegion)
      modifies this
      ensures AsArea() == region.AsArea()
    {
      x := region.x1;
      y := region.y1;
      w := region.x2 - region.x1 + 1;
      h := region.y2 - region.y1 + 1;
    }

    method FromBox(box: DFBBox)
      modifies this
      ensures AsArea() == box.AsArea()
    {
      x := box.x1;
      y := box.y1;
      w := box.x2 - box.x1;
      h := box.y2 - box.y1;
    }

    /** The rectangles that can be rotated in place: components are read after they were written. */
    predicate RotatesInPlace(size: Size, rotation: int)
      reads this
    {
      match rotation
      case 90 => x == y && w == h
      case 270 => x + y + h == size.h && w == h
      case _ => true
    }

    method FromRotated(from: DFBRectangle, size: Size, rotation: int)
      modifies this
      ensures AsArea() == RotateArea(old(from.AsArea()), size, rotation)
        <==> this != from || old(RotatesInPlace(size, rotation))
    {
      match rotation {
        case 90 =>
          x := from.y;
          y := size.w - from.x - from.w;
          w := from.h;
          h := from.w;
        case 180 =>
          x := size.w - from.x - from.w;
          y := size.h - from.y - from.h;
          w := from.w;
          h := from.h;
        case 270 =>
          x := size.h - from.y - from.h;
          y := from.x;
          w := from.h;
          h := from.w;
        case _ =>
          x, y, w, h := from.x, from.y, from.w, from.h;
      }
    }

    /** Unlike the other forms this one does not look whether the rectangle itself is empty. */
    method BoxIntersect(box: DFBBox) returns (hit: bool)
      requires AsArea().Valid() && box.AsArea().Valid()
      modifies this
      ensures hit <==> Overlap(old(AsArea()), box.AsArea()) || Crosses(old(AsArea()), box.AsArea())
      ensures hit ==> AsArea() == Meet(old(AsArea()), box.AsArea())
      ensures !hit ==> x == old(x) && y == old(y) && w == 0 && h == 0
    {
      OverlapTest(AsArea(), box.AsArea());
      if box.AsArea().Empty() || box.x2 <= x || box.y2 <= y || box.x1 >= x + w || box.y1 >= y + h {
        w, h := 0, 0;
        return false;
      }
      if x < box.x1 {
        w := w - (box.x1 - x);
        x := box.x1;
      }
      if y < box.y1 {
        h := h - (box.y1 - y);
        y := box.y1;
      }
      if x + w > box.x2 {
        w := box.x2 - x;
      }
      if y + h > box.y2 {
        h := box.y2 - y;
      }
      return true;
    }
  }

  class DFBRegion {
    var x1: int
    var y1: int
    var x2: int
    var y2: int

    constructor (x1: int, y1: int, x2: int, y2: int)
      ensures AsArea() == Area(x1, y1, x2 + 1, y2 + 1)
    {
      this.x1, this.y1, this.x2, this.y2 := x1, y1, x2, y2;
    }

    function AsArea(): Area
      reads this
    {
      Area(x1, y1, x2 + 1, y2 + 1)
    }

    /** A region always has a point. */
    predicate Valid()
      reads this
    {
      x1 <= x2 && y1 <= y2
    }

    method FromRectangle(rect: DFBRectangle)
      modifies this
      ensures AsArea() == rect.AsArea()
    {
      x1 := rect.x;
      y1 := rect.y;
      x2 := rect.x + rect.w - 1;
      y2 := rect.y + rect.h - 1;
    }

    /** The regions that can be rotated in place. */
    predicate RotatesInPlace(size: Size, rotation: int)
      reads this
    {
      match rotation
      case 90 => x1 == y1
      case 180 => x1 + x2 + 1 == size.w && y1 + y2 + 1 == size.h
      case 270 => y1 + y2 + 1 == size.h && x1 == y1 && x2 == y2
      case _ => true
    }

    method FromRotated(from: DFBRegion, size: Size, rotation: int)
      modifies this
      ensures AsArea() == RotateArea(old(from.AsArea()), size, rotation)
        <==> this != from || old(RotatesInPlace(size, rotation))
    {
      match rotation {
        case 90 =>
          x1 := from.y1;
          y1 := size.w - from.x2 - 1;
          x2 := from.y2;
          y2 := size.w - from.x1 - 1;
        case 180 =>
          x1 := size.w - from.x2 - 1;
          y1 := size.h - from.y2 - 1;
          x2 := size.w - from.x1 - 1;
          y2 := size.h - from.y1 - 1;
        case 270 =>
          x1 := size.h - from.y2 - 1;
          y1 := from.x1;
          x2 := size.h - from.y1 - 1;
          y2 := from.x2;
        case _ =>
          x1, y1, x2, y2 := from.x1, from.y1, from.x2, from.y2;
      }
    }

    method RegionIntersect(clip: DFBRegion) returns (hit: bool)
      requires Valid() && clip.Valid()
      modifies this
      ensures hit <==> Overlap(old(AsArea()), old(clip.AsArea()))
      ensures AsArea() == if hit then Meet(old(AsArea()), old(clip.AsArea())) else old(AsArea())
    {
      OverlapTest(AsArea(), clip.AsArea());
      if x2 < clip.x1 || y2 < clip.y1 || x1 > clip.x2 || y1 > clip.y2 {
        return false;
      }
      if x1 < clip.x1 { x1 := clip.x1; }
      if y1 < clip.y1 { y1 := clip.y1; }
      if x2 > clip.x2 { x2 := clip.x2; }
      if y2 > clip.y2 { y2 := clip.y2; }
      return true;
    }

    method RegionUnion(other: DFBRegion)
      requires Valid() && other.Valid()
      modifies this
      ensures Valid() && AsArea() == Join(old(AsArea()), old(other.AsArea()))
    {
      if x1 > other.x1 { x1 := other.x1; }
      if y1 > other.y1 { y1 := other.y1; }
      if x2 < other.x2 { x2 := other.x2; }
      if y2 < other.y2 { y2 := other.y2; }
    }
  }

  class DFBBox {
    var x1: int
    var y1: int
    var x2: int
    var y2: int

    constructor (x1: int, y1: int, x2: int, y2: int)
      ensures AsArea() == Area(x1, y1, x2, y2)
    {
      this.x1, this.y1, this.x2, this.y2 := x1, y1, x2, y2;
    }

    function AsArea(): Area
      reads this
    {
      Area(x1, y1, x2, y2)
    }

    method FromRectangle(rect: DFBRectangle)
      modifies this
      ensures AsArea() == rect.AsArea()
    {
      x1 := rect.x;
      y1 := rect.y;
      x2 := rect.x + rect.w;
      y2 := rect.y + rect.h;
    }

    /** The boxes that can be rotated in place. */
    predicate RotatesInPlace(size: Size, rotation: int)
      reads this
    {
      match rotation
      case 90 => x1 == y1
      case 180 => x1 + x2 == size.w && y1 + y2 == size.h
      case 270 => y1 + y2 == size.h && x1 == y1 && x2 == y2
      case _ => true
    }

    method FromRotated(from: DFBBox, size: Size, rotation: int)
      modifies this
      ensures AsArea() == RotateArea(old(from.AsArea()), size, rotation)
        <==> this != from || old(RotatesInPlace(size, rotation))
    {
      match rotation {
        case 90 =>
          x1 := from.y1;
          y1 := size.w - from.x2;
          x2 := from.y2;
          y2 := size.w - from.x1;
        case 180 =>
          x1 := size.w - from.x2;
          y1 := size.h - from.y2;
          x2 := size.w - from.x1;
          y2 := size.h - from.y1;
        case 270 =>
          x1 := size.h - from.y2;
          y1 := from.x1;
          x2 := size.h - from.y1;
          y2 := from.x2;
        case _ =>
          x1, y1, x2, y2 := from.x1, from.y1, from.x2, from.y2;
      }
    }

    method BoxIntersect(clip: DFBBox) returns (hit: bool)
      requires AsArea().Valid() && clip.AsArea().Valid()
      modifies this
      ensures hit <==> Overlap(old(AsArea()), old(clip.AsArea()))
      ensures AsArea() == if hit then Meet(old(AsArea()), old(clip.AsArea())) else old(AsArea())
    {
      OverlapTest(AsArea(), clip.AsArea());
      if AsArea().Empty() {
        return false;
      }
      if clip.AsArea().Empty() || x2 <= clip.x1 || y2 <= clip.y1 || x1 >= clip.x2 || y1 >= clip.y2 {
        return false;
      }
      if x1 < clip.x1 { x1 := clip.x1; }
      if y1 < clip.y1 { y1 := clip.y1; }
      if x2 > clip.x2 { x2 := clip.x2; }
      if y2 > clip.y2 { y2 := clip.y2; }
      return true;
    }

    /** A miss empties the box, unless it was empty before. */
    method RegionIntersect(clip: DFBRegion) returns (hit: bool)
      requires AsArea().Valid()
      modifies this
      ensures hit <==> Overlap(old(AsArea()), clip.AsArea())
      ensures hit ==> AsArea() == Meet(old(AsArea()), clip.AsArea())
      ensures !hit ==> AsArea().Valid() && AsArea().Empty() && x1 == old(x1) && y1 == old(y1)
    {
      OverlapTest(AsArea(), clip.AsArea());
      if AsArea().Empty() {
        return false;
      }
      if clip.x1 > clip.x2 || clip.y1 > clip.y2 || x2 <= clip.x1 || y2 <= clip.y1 || x1 > clip.x2 || y1 > clip.y2 {
        x2 := x1;
        y2 := y1;
        return false;
      }
      if x1 < clip.x1 { x1 := clip.x1; }
      if y1 < clip.y1 { y1 := clip.y1; }
      if x2 > clip.x2 + 1 { x2 := clip.x2 + 1; }
      if y2 > clip.y2 + 1 { y2 := clip.y2 + 1; }
      return true;
    }

    method BoxUnion(other: DFBBox)
      requires AsArea().Valid() && other.AsArea().Valid()
      modifies this
      ensures AsArea().Valid() && AsArea() == Join(old(AsArea()), old(other.AsArea()))
    {
      if other.AsArea().Empty() {
        return;
      }
      if AsArea().Empty() {
        x1, y1, x2, y2 := other.x1, other.y1, other.x2, other.y2;
      } else {
        if x1 > other.x1 { x1 := other.x1; }
        if y1 > other.y1 { y1 := other.y1; }
        if x2 < other.x2 { x2 := other.x2; }
        if y2 < other.y2 { y2 := other.y2; }
      }
    }

    method RegionUnion(region: DFBRegion)
      requires AsArea().Valid() && region.Valid()
      modifies this
      ensures AsArea().Valid() && AsArea() == Join(old(AsArea()), region.AsArea())
    {
      if AsArea().Empty() {
        x1, y1, x2, y2 := region.x1, region.y1, region.x2 + 1, region.y2 + 1;
      } else {
        if x1 > region.x1 { x1 := region.x1; }
        if y1 > region.y1 { y1 := region.y1; }
        if x2 < region.x2 + 1 { x2 := region.x2 + 1; }
        if y2 < region.y2 + 1 { y2 := region.y2 + 1; }
      }
    }
  }

  /** Rotated in place by 90 degrees, none of the three forms of this area comes out right. */
  method InPlaceGoesWrong() returns (rect: Area, region: Area, box: Area)
    ensures
      var right := RotateArea(Area(1, 0, 3, 1), Size(4, 2), 90);
      rect != right && region != right && box != right
  {
    var size := Size(4, 2);
    var a := new DFBRectangle(1, 0, 2, 1);
    a.FromRotated(a, size, 90);
    var b := new DFBRegion(1, 0, 2, 0);
    b.FromRotated(b, size, 90);
    var c := new DFBBox(1, 0, 3, 1);
    c.FromRotated(c, size, 90);
    return a.AsArea(), b.AsArea(), c.AsArea();
  }

  /** A rectangle without points is said to hit the box it lies in; the same area as a box is not. */
  method EmptyRectangleHits() returns (rectHit: bool, boxHit: bool)
    ensures rectHit && !boxHit
  {
    var clip := new DFBBox(0, 0, 3, 3);
    var rect := new DFBRectangle(1, 1, 0, 1);
    assert Crosses(rect.AsArea(), clip.AsArea());
    rectHit := rect.BoxIntersect(clip);
    var box := new DFBBox(1, 1, 1, 2);
    CrossingIsNoOverlap(box.AsArea(), clip.AsArea());
    boxHit := box.BoxIntersect(clip);
  }

  function AreasOf(regions: seq<DFBRegion>): seq<Area>
    reads regions
  {
    seq(|regions|, i requires 0 <= i < |regions| reads regions => regions[i].AsArea())
  }

  /** The union of regions is what boxes join up to from any empty box. */
  method RegionsUnite(united: DFBRegion, regions: seq<DFBRegion>)
    requires regions != [] && united !in regions
    requires forall i :: 0 <= i < |regions| ==> regions[i].Valid()
    modifies united
    ensures united.Valid()
    ensures forall start: Area :: start.Empty() ==> united.AsArea() == JoinAll(start, AreasOf(regions))
  {
    united.x1, united.y1, united.x2, united.y2 := regions[0].x1, regions[0].y1, regions[0].x2, regions[0].y2;
    ghost var areas := AreasOf(regions);
    assert areas[..1][..0] == [];
    for i := 1 to |regions|
      invariant united.Valid() && areas == AreasOf(regions)
      invariant forall start: Area :: start.Empty() ==> united.AsArea() == JoinAll(start, areas[..i])
    {
      united.RegionUnion(regions[i]);
      assert areas[..i + 1][..i] == areas[..i];
    }
    assert areas[..|regions|] == areas;
  }

  // ---- Extending ----

  /** The union of the two holds no point that neither of them has. */
  ghost predicate JoinIsExact(a: Area, b: Area) {
    forall p: Point :: Join(a, b).Has(p) <==> a.Has(p) || b.Has(p)
  }

  /** dfb_box_box_extends */
  predicate BoxExtends(a: Area, b: Area) {
    if a.x1 == b.x1 && a.x2 == b.x2 then a.y1 == b.y2 || a.y2 == b.y1
    else a.y1 == b.y1 && a.y2 == b.y2 && (a.x1 == b.x2 || a.x2 == b.x1)
  }

  /** dfb_region_region_extends, on closed corners: both tests subtract one. */
  predicate RegionExtends(ax1: int, ay1: int, ax2: int, ay2: int, bx1: int, by1: int, bx2: int, by2: int) {
    if ax1 == bx1 && ax2 == bx2 then ay1 == by2 - 1 || ay2 == by1 - 1
    else ay1 == by1 && ay2 == by2 && (ax1 == bx2 - 1 || ax2 == bx1 - 1)
  }

  /** The same, of the areas. */
  predicate RegionsExtend(a: Area, b: Area) {
    RegionExtends(a.x1, a.y1, a.x2 - 1, a.y2 - 1, b.x1, b.y1, b.x2 - 1, b.y2 - 1)
  }

  lemma BoxExtendsIsSound(a: Area, b: Area)
    requires a.Valid() && b.Valid() && BoxExtends(a, b)
    ensures JoinIsExact(a, b)
  {
  }

  lemma RegionExtendsIsSound(a: Area, b: Area)
    requires a.Valid() && b.Valid() && !a.Empty() && !b.Empty() && RegionsExtend(a, b)
    ensures JoinIsExact(a, b)
  {
  }

  /** The second lies right below the first. */
  predicate Stacked(a: Area, b: Area) {
    a.x1 == b.x1 && a.x2 == b.x2 && a.y2 == b.y1
  }

  /** The second lies right beside the first. */
  predicate Beside(a: Area, b: Area) {
    a.y1 == b.y1 && a.y2 == b.y2 && a.x2 == b.x1
  }

  predicate Touch(a: Area, b: Area) {
    Stacked(a, b) || Stacked(b, a) || Beside(a, b) || Beside(b, a)
  }

  /** The box test holds exactly for areas that touch along a whole side. */
  lemma BoxExtendsIsTouch(a: Area, b: Area)
    requires a.Valid() && b.Valid() && !a.Empty() && !b.Empty()
    ensures BoxExtends(a, b) <==> Touch(a, b)
  {
  }

  /**
    Of two regions that touch, the region test sees only the one order: the
    first is above or left of the second.
   */
  lemma RegionExtendsSeesOneSide(a: Area, b: Area)
    requires a.Valid() && b.Valid() && !a.Empty() && !b.Empty() && Touch(a, b)
    ensures BoxExtends(a, b)
    ensures RegionsExtend(a, b) <==> Stacked(a, b) || Beside(a, b)
  {
  }

  /**
    In the other order it holds for regions that overlap by two rows or
    columns, where it should hold for touching ones.
   */
  lemma RegionExtendsExactly(a: Area, b: Area)
    requires a.Valid() && b.Valid() && !a.Empty() && !b.Empty()
    ensures RegionsExtend(a, b) <==>
      || Stacked(a, b)
      || Beside(a, b)
      || (a.x1 == b.x1 && a.x2 == b.x2 && b.y2 == a.y1 + 2)
      || ((a.x1 != b.x1 || a.x2 != b.x2) && a.y1 == b.y1 && a.y2 == b.y2 && b.x2 == a.x1 + 2)
  {
  }

  /** Two single points, one below the other: seen from above, not from below. */
  lemma TouchingMissed()
    ensures
      var above, below := Area(0, 0, 1, 1), Area(0, 1, 1, 2);
      Touch(below, above) && RegionsExtend(above, below) && !RegionsExtend(below, above)
  {
  }
}
