/** The relative-layout resolver of the UI layer (`ui::geom`).

    A `Dim` is "a fraction of the parent's extent plus a pixel offset", a
    `Coord` anchors a `Dim` to the near (top/left) or far (bottom/right) edge
    of the parent, and a `Rect` describes each axis by two edges or by an edge
    and a size.  Resolving a `Rect` against an absolute parent rectangle gives
    an absolute rectangle, which is then cropped to the parent.

    Pixel coordinates are `f32` in the program; here they are `real`, and the
    pixel offsets keep the program's integer type. */
module Geometry {

  /** A viewport in absolute screen pixels. */
  datatype AbsRect = AbsRect(x: real, y: real, width: real, height: real)

  datatype Anchor = TopOrLeft | BottomOrRight

  /** A size: `fraction` of the parent's extent plus `pixelOffset` pixels. */
  datatype Dim = Dim(fraction: real, pixelOffset: int)

  /** A position: a `Dim` measured from the anchored edge of the parent. */
  datatype Coord = Coord(anchor: Anchor, dim: Dim)

  datatype Point = Point(x: Coord, y: Coord)

  /** The horizontal extent of a relative rectangle, given in one of three ways. */
  datatype RectX =
    | LeftRight(left: Coord, right: Coord)
    | LeftWidth(left: Coord, width: Dim)
    | RightWidth(right: Coord, width: Dim)

  /** The vertical extent of a relative rectangle, given in one of three ways. */
  datatype RectY =
    | TopBottom(top: Coord, bottom: Coord)
    | TopHeight(top: Coord, height: Dim)
    | BottomHeight(bottom: Coord, height: Dim)

  /** A viewport in coordinates relative to some parent. */
  datatype Rect = Rect(rectx: RectX, recty: RectY)

  // ----- Dim -----------------------------------------------------------------

  function NewDim(fraction: real, pixelOffset: int): (d: Dim)
    ensures d.fraction == fraction && d.pixelOffset == pixelOffset
  {
    Dim(fraction, pixelOffset)
  }

  /** A horizontal size resolved against the parent's width. */
  function XDim(d: Dim, parent: AbsRect): (w: real)
  {
    parent.width * d.fraction + d.pixelOffset as real
  }

  /** A vertical size resolved against the parent's height, in the same
      way. */
  function YDim(d: Dim, parent: AbsRect): (h: real)
  {
    parent.height * d.fraction + d.pixelOffset as real
  }

  /** What a resolved size means: a fraction of the parent's extent plus the
      pixel offset, so a pure pixel size ignores the parent, a whole fraction
      is the parent's full extent, and a non-negative size of a non-negative
      parent stays non-negative. */
  lemma XDimFormula(d: Dim, parent: AbsRect)
    ensures XDim(d, parent) == d.fraction * parent.width + d.pixelOffset as real
    ensures d.fraction == 0.0 ==> XDim(d, parent) == d.pixelOffset as real
    ensures d.fraction == 1.0 && d.pixelOffset == 0 ==> XDim(d, parent) == parent.width
    ensures d.fraction >= 0.0 && d.pixelOffset >= 0 && parent.width >= 0.0 ==> XDim(d, parent) >= 0.0
  {
  }

  /** The same for a vertical size. */
  lemma YDimFormula(d: Dim, parent: AbsRect)
    ensures YDim(d, parent) == d.fraction * parent.height + d.pixelOffset as real
    ensures d.fraction == 0.0 ==> YDim(d, parent) == d.pixelOffset as real
    ensures d.fraction == 1.0 && d.pixelOffset == 0 ==> YDim(d, parent) == parent.height
    ensures d.fraction >= 0.0 && d.pixelOffset >= 0 && parent.height >= 0.0 ==> YDim(d, parent) >= 0.0
  {
  }

  // ----- Coord ---------------------------------------------------------------

  /** A coordinate measured from the top or left edge of the parent. */
  function Near(fraction: real, pixelOffset: int): (c: Coord)
    ensures c.anchor == TopOrLeft && c.dim == NewDim(fraction, pixelOffset)
  {
    Coord(TopOrLeft, Dim(fraction, pixelOffset))
  }

  /** A coordinate measured from the bottom or right edge of the parent. */
  function Far(fraction: real, pixelOffset: int): (c: Coord)
    ensures c.anchor == BottomOrRight && c.dim == NewDim(fraction, pixelOffset)
  {
    Coord(BottomOrRight, Dim(fraction, pixelOffset))
  }

  /** A horizontal position: the anchored edge of the parent (its left or
      its right edge) moved right by the coordinate's size. */
  function XPoint(c: Coord, parent: AbsRect): (x: real)
    ensures x == (if c.anchor == BottomOrRight then parent.x + parent.width else parent.x) + XDim(c.dim, parent)
  {
    var anch := if c.anchor == BottomOrRight then parent.width else 0.0;
    var frac := c.dim.fraction * parent.width;
    var px := c.dim.pixelOffset as real;
    parent.x + anch + frac + px
  }

  /** A vertical position: the anchored edge of the parent (its top or its
      bottom edge) moved down by the coordinate's size. */
  function YPoint(c: Coord, parent: AbsRect): (y: real)
    ensures y == (if c.anchor == BottomOrRight then parent.y + parent.height else parent.y) + YDim(c.dim, parent)
  {
    var anch := if c.anchor == BottomOrRight then parent.height else 0.0;
    var frac := c.dim.fraction * parent.height;
    var px := c.dim.pixelOffset as real;
    parent.y + anch + frac + px
  }

  lemma XPointNear(fraction: real, pixelOffset: int, parent: AbsRect)
    ensures XPoint(Near(fraction, pixelOffset), parent)
         == parent.x + fraction * parent.width + pixelOffset as real
  {
  }

  lemma XPointFar(fraction: real, pixelOffset: int, parent: AbsRect)
    ensures XPoint(Far(fraction, pixelOffset), parent)
         == parent.x + parent.width + fraction * parent.width + pixelOffset as real
  {
  }

  /** The same rectangle with its axes exchanged. */
  function Transpose(r: AbsRect): AbsRect
  {
    AbsRect(r.y, r.x, r.height, r.width)
  }

  /** `YPoint` is `XPoint` on the other axis. */
  lemma YPointMirrorsXPoint(c: Coord, parent: AbsRect)
    ensures YPoint(c, parent) == XPoint(c, Transpose(parent))
  {
  }

  /** Moving the pixel offset by `k` moves the resolved point by exactly `k`,
      on both axes and for both anchors. */
  lemma PointShiftsWithOffset(a: Anchor, fraction: real, pixelOffset: int, k: int, parent: AbsRect)
    ensures XPoint(Coord(a, Dim(fraction, pixelOffset + k)), parent)
         == XPoint(Coord(a, Dim(fraction, pixelOffset)), parent) + k as real
    ensures YPoint(Coord(a, Dim(fraction, pixelOffset + k)), parent)
         == YPoint(Coord(a, Dim(fraction, pixelOffset)), parent) + k as real
  {
  }

  // ----- Point ---------------------------------------------------------------

  /** A point resolved against the parent: each axis measured from its own
      anchored edge, so a point with both offsets zero at the near anchors is
      the parent's top-left corner and at the far anchors its bottom-right. */
  function PointAbsolute(p: Point, parent: AbsRect): (xy: (real, real))
    ensures xy.0 == (if p.x.anchor == BottomOrRight then parent.x + parent.width else parent.x) + XDim(p.x.dim, parent)
    ensures xy.1 == (if p.y.anchor == BottomOrRight then parent.y + parent.height else parent.y) + YDim(p.y.dim, parent)
    ensures p == Point(Near(0.0, 0), Near(0.0, 0)) ==> xy == (parent.x, parent.y)
    ensures p == Point(Far(0.0, 0), Far(0.0, 0)) ==> xy == (parent.x + parent.width, parent.y + parent.height)
  {
    (XPoint(p.x, parent), YPoint(p.y, parent))
  }

  /** The x component ignores the parent's vertical placement and the y
      component its horizontal placement. */
  lemma PointAxesIndependent(p: Point, a: AbsRect, b: AbsRect)
    ensures a.x == b.x && a.width == b.width ==> PointAbsolute(p, a).0 == PointAbsolute(p, b).0
    ensures a.y == b.y && a.height == b.height ==> PointAbsolute(p, a).1 == PointAbsolute(p, b).1
  {
  }

  lemma PointNearOrigin(dx: int, dy: int, parent: AbsRect)
    ensures PointAbsolute(Point(Near(0.0, dx), Near(0.0, dy)), parent)
         == (parent.x + dx as real, parent.y + dy as real)
  {
  }

  lemma PointFarCorner(parent: AbsRect)
    ensures PointAbsolute(Point(Far(0.0, 0), Far(0.0, 0)), parent)
         == (parent.x + parent.width, parent.y + parent.height)
  {
  }

  // ----- Rect ----------------------------------------------------------------

  /** The rectangle built from a relative `Rect`, before it is cropped: each
      given edge lands where its coordinate resolves, and each given size is
      the resolved size, the missing edge following from the other two. */
  function Resolve(r: Rect, parent: AbsRect): (a: AbsRect)
    ensures r.rectx.LeftRight? ==>
      a.x == XPoint(r.rectx.left, parent) && a.x + a.width == XPoint(r.rectx.right, parent)
    ensures r.rectx.LeftWidth? ==>
      a.x == XPoint(r.rectx.left, parent) && a.width == XDim(r.rectx.width, parent)
    ensures r.rectx.RightWidth? ==>
      a.x + a.width == XPoint(r.rectx.right, parent) && a.width == XDim(r.rectx.width, parent)
    ensures r.recty.TopBottom? ==>
      a.y == YPoint(r.recty.top, parent) && a.y + a.height == YPoint(r.recty.bottom, parent)
    ensures r.recty.TopHeight? ==>
      a.y == YPoint(r.recty.top, parent) && a.height == YDim(r.recty.height, parent)
    ensures r.recty.BottomHeight? ==>
      a.y + a.height == YPoint(r.recty.bottom, parent) && a.height == YDim(r.recty.height, parent)
  {
    AbsRect(
      match r.rectx
      case LeftRight(left, _) => XPoint(left, parent)
      case LeftWidth(left, _) => XPoint(left, parent)
      case RightWidth(right, width) => XPoint(right, parent) - XDim(width, parent),
      match r.recty
      case TopBottom(top, _) => YPoint(top, parent)
      case TopHeight(top, _) => YPoint(top, parent)
      case BottomHeight(bottom, height) => YPoint(bottom, parent) - YDim(height, parent),
      match r.rectx
      case LeftRight(left, right) => XPoint(right, parent) - XPoint(left, parent)
      case LeftWidth(_, width) => XDim(width, parent)
      case RightWidth(_, width) => XDim(width, parent),
      match r.recty
      case TopBottom(top, bottom) => YPoint(bottom, parent) - YPoint(top, parent)
      case TopHeight(_, height) => YDim(height, parent)
      case BottomHeight(_, height) => YDim(height, parent))
  }

  /** `a` lies within `parent`: it starts no earlier and ends no later on
      either axis. */
  predicate Within(a: AbsRect, parent: AbsRect)
  {
    && parent.x <= a.x && a.x + a.width <= parent.x + parent.width
    && parent.y <= a.y && a.y + a.height <= parent.y + parent.height
  }

  /** The crop of `Rect::absolute`: a start before the parent's start is moved
      up to it (keeping the size), then a size running past the parent's end
      is shortened to end there.  Nothing keeps the size positive. */
  function Crop(a: AbsRect, parent: AbsRect): (c: AbsRect)
    ensures Within(c, parent)
    ensures c.x == (if a.x < parent.x then parent.x else a.x)
    ensures c.y == (if a.y < parent.y then parent.y else a.y)
    ensures c.width <= a.width && c.height <= a.height
    ensures Within(a, parent) ==> c == a
  {
    var x := if a.x < parent.x then parent.x else a.x;
    var width := if x + a.width > parent.x + parent.width then parent.x + parent.width - x else a.width;
    var y := if a.y < parent.y then parent.y else a.y;
    var height := if y + a.height > parent.y + parent.height then parent.y + parent.height - y else a.height;
    AbsRect(x, y, width, height)
  }

  /** `Rect::absolute`: resolve, then crop to the parent. */
  function Absolute(r: Rect, parent: AbsRect): (c: AbsRect)
    ensures Within(c, parent)
    ensures Within(Resolve(r, parent), parent) ==> c == Resolve(r, parent)
  {
    Crop(Resolve(r, parent), parent)
  }

  lemma CropIdempotent(a: AbsRect, parent: AbsRect)
    ensures Crop(Crop(a, parent), parent) == Crop(a, parent)
  {
  }

  /** The crop does not keep the width positive: a rectangle starting right of
      its parent comes out with a negative width. */
  lemma CropMayLeaveNegativeWidth()
    ensures Crop(AbsRect(20.0, 0.0, 5.0, 5.0), AbsRect(0.0, 0.0, 10.0, 10.0)).width == -10.0
  {
  }

  lemma ResolveLeftWidth(left: Coord, width: Dim, ry: RectY, parent: AbsRect)
    ensures Resolve(Rect(LeftWidth(left, width), ry), parent).x == XPoint(left, parent)
    ensures Resolve(Rect(LeftWidth(left, width), ry), parent).width == XDim(width, parent)
  {
  }

  lemma ResolveRightWidth(right: Coord, width: Dim, ry: RectY, parent: AbsRect)
    ensures Resolve(Rect(RightWidth(right, width), ry), parent).x
         == XPoint(right, parent) - XDim(width, parent)
    ensures Resolve(Rect(RightWidth(right, width), ry), parent).width == XDim(width, parent)
  {
  }

  lemma ResolveLeftRight(left: Coord, right: Coord, ry: RectY, parent: AbsRect)
    ensures Resolve(Rect(LeftRight(left, right), ry), parent).x == XPoint(left, parent)
    ensures Resolve(Rect(LeftRight(left, right), ry), parent).width
         == XPoint(right, parent) - XPoint(left, parent)
  {
  }

  lemma ResolveTopHeight(top: Coord, height: Dim, rx: RectX, parent: AbsRect)
    ensures Resolve(Rect(rx, TopHeight(top, height)), parent).y == YPoint(top, parent)
    ensures Resolve(Rect(rx, TopHeight(top, height)), parent).height == YDim(height, parent)
  {
  }

  lemma ResolveBottomHeight(bottom: Coord, height: Dim, rx: RectX, parent: AbsRect)
    ensures Resolve(Rect(rx, BottomHeight(bottom, height)), parent).y
         == YPoint(bottom, parent) - YDim(height, parent)
    ensures Resolve(Rect(rx, BottomHeight(bottom, height)), parent).height == YDim(height, parent)
  {
  }

  lemma ResolveTopBottom(top: Coord, bottom: Coord, rx: RectX, parent: AbsRect)
    ensures Resolve(Rect(rx, TopBottom(top, bottom)), parent).y == YPoint(top, parent)
    ensures Resolve(Rect(rx, TopBottom(top, bottom)), parent).height
         == YPoint(bottom, parent) - YPoint(top, parent)
  {
  }

  /** `Rect::default`: zero width and height at the parent's top-left corner. */
  function DefaultRect(): (r: Rect)
    ensures forall parent: AbsRect {:trigger Absolute(r, parent)} ::
              parent.width >= 0.0 && parent.height >= 0.0 ==>
                Absolute(r, parent) == AbsRect(parent.x, parent.y, 0.0, 0.0)
  {
    Rect(LeftWidth(Near(0.0, 0), NewDim(0.0, 0)), TopHeight(Near(0.0, 0), NewDim(0.0, 0)))
  }
}
