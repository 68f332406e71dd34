/**
 Axis-aligned rectangles of the drawing code (guacamole-server/src/common/rect.c).

 A rectangle is read as the set of grid points it contains; every claim below is
 about that set, so it is independent of how the corners are computed. Integers
 are unbounded.
 */
module Rects {

  datatype Rect = Rect(x: int, y: int, width: int, height: int)

  /** Point (px, py) lies in `r`; a rectangle without positive size holds no point. */
  predicate In(px: int, py: int, r: Rect) {
    r.x <= px < r.x + r.width && r.y <= py < r.y + r.height
  }

  predicate Empty(r: Rect) {
    r.width <= 0 || r.height <= 0
  }

  /** The edges of `inner` do not leave `outer`. */
  predicate Inside(inner: Rect, outer: Rect) {
    && outer.x <= inner.x && inner.x + inner.width <= outer.x + outer.width
    && outer.y <= inner.y && inner.y + inner.height <= outer.y + outer.height
  }

  function Min(a: int, b: int): int { if a < b then a else b }

  function Max(a: int, b: int): int { if a > b then a else b }

  function FromEdges(left: int, top: int, right: int, bottom: int): Rect {
    Rect(left, top, right - left, bottom - top)
  }

  /** `guac_common_rect_extend`: the least rectangle around both. */
  function Extend(r: Rect, min: Rect): (e: Rect)
    ensures Inside(r, e) && Inside(min, e)
    ensures forall other :: Inside(r, other) && Inside(min, other) ==> Inside(e, other)
  {
    FromEdges(Min(r.x, min.x), Min(r.y, min.y),
              Max(r.x + r.width, min.x + min.width), Max(r.y + r.height, min.y + min.height))
  }

  /** `guac_common_rect_constrain`: exactly the points of both. */
  function Constrain(r: Rect, max: Rect): (c: Rect)
    ensures forall px, py :: In(px, py, c) <==> In(px, py, r) && In(px, py, max)
    ensures Inside(c, max) || Empty(c)
  {
    InnerEdges(r, max)
  }

  function InnerEdges(r: Rect, max: Rect): Rect {
    FromEdges(Max(r.x, max.x), Max(r.y, max.y),
              Min(r.x + r.width, max.x + max.width), Min(r.y + r.height, max.y + max.height))
  }

  // ----- Expansion to an encoding grid -----

  /** One axis of the grid expansion: a multiple of the cell, or all that is available. */
  predicate FitsGrid(size: int, available: int, cell: int)
    requires cell > 0
  {
    size % cell == 0 || size == available
  }

  /** The three-way shift-and-clamp applied to one axis once it has been widened. */
  method ShiftIntoRange(lo0: int, hi0: int, min: int, max: int) returns (lo: int, hi: int)
    ensures hi0 > max ==> hi == max && lo == Max(min, lo0 - (hi0 - max))
    ensures hi0 <= max && lo0 < min ==> lo == min && hi == Min(max, hi0 + (min - lo0))
    ensures hi0 <= max && lo0 >= min ==> lo == lo0 && hi == hi0
  {
    lo, hi := lo0, hi0;
    if hi > max {
      var d := hi - max;
      hi := hi - d;
      lo := lo - d;
      if lo < min {
        lo := min;
      }
    } else if lo < min {
      var d := min - lo;
      lo := lo + d;
      hi := hi + d;
      if hi > max {
        hi := max;
      }
    }
  }

  /**
   `guac_common_rect_expand_to_grid`: a rectangle inside `max` is grown to whole cells
   without leaving `max` and without losing any of its own points: to the next multiple of
   the cell beyond its size, or to all of `max`.
   */
  method ExpandToGrid(cell: int, r: Rect, max: Rect) returns (status: int, e: Rect)
    ensures status == if cell <= 0 then -1 else 0
    ensures cell <= 1 ==> e == r
    ensures cell > 1 && r.width >= 0 && r.height >= 0 && Inside(r, max) ==>
              && Inside(r, e) && Inside(e, max)
              && FitsGrid(e.width, max.width, cell) && FitsGrid(e.height, max.height, cell)
              && e.width == Min(max.width, (r.width / cell + 1) * cell)
              && e.height == Min(max.height, (r.height / cell + 1) * cell)
  {
    if cell <= 0 {
      return -1, r;
    }
    if cell == 1 {
      return 0, r;
    }
    // C's remainder keeps the sign of the dividend
    var dw := cell - CRemainder(r.width, cell);
    var dh := cell - CRemainder(r.height, cell);
    var top := r.y - dh / 2;
    var left := r.x - dw / 2;
    var bottom := top + r.height + dh;
    var right := left + r.width + dw;
    WholeCells(r.width, cell);
    WholeCells(r.height, cell);
    left, right := ShiftIntoRange(left, right, max.x, max.x + max.width);
    top, bottom := ShiftIntoRange(top, bottom, max.y, max.y + max.height);
    return 0, FromEdges(left, top, right, bottom);
  }

  function CRemainder(a: int, b: int): (m: int)
    requires b > 0
    ensures -b < m < b
  {
    if a >= 0 then a % b else -((-a) % b)
  }

  lemma WholeCells(size: int, cell: int)
    requires cell > 0
    ensures size >= 0 ==> (size + (cell - CRemainder(size, cell))) % cell == 0
    ensures size >= 0 ==> size + (cell - CRemainder(size, cell)) == (size / cell + 1) * cell
  {
    if size >= 0 {
      var q := size / cell;
      assert size + (cell - size % cell) == (q + 1) * cell;
      MultipleHasNoRemainder(q + 1, cell);
    }
  }

  lemma MultipleHasNoRemainder(q: int, cell: int)
    requires cell > 0
    ensures (q * cell) % cell == 0
  {
    var gap := q - (q * cell) / cell;
    assert gap * cell == (q * cell) % cell;
    assert gap >= 1 ==> gap * cell >= cell;
    assert gap <= -1 ==> gap * cell <= -cell;
  }

  // ----- Cutting a hole out of a rectangle -----

  datatype Overlap = Disjoint | Partial | Complete

  /** `guac_common_rect_intersects`; rectangles that only touch count as intersecting. */
  function Intersects(r: Rect, other: Rect): Overlap {
    if other.x + other.width < r.x || r.x + r.width < other.x ||
       other.y + other.height < r.y || r.y + r.height < other.y then
      Disjoint
    else if other.x <= r.x && other.x + other.width >= r.x + r.width &&
            other.y <= r.y && other.y + other.height >= r.y + r.height then
      Complete
    else
      Partial
  }

  /** The point is in the rectangle or on its border. */
  predicate Touches(px: int, py: int, r: Rect) {
    r.x <= px <= r.x + r.width && r.y <= py <= r.y + r.height
  }

  /** Rectangles that overlap or touch, edge to edge or at a corner, have a point in common, borders included. */
  lemma IntersectsMeaning(r: Rect, other: Rect)
    requires r.width >= 0 && r.height >= 0 && other.width >= 0 && other.height >= 0
    ensures Intersects(r, other) != Disjoint <==> exists px, py :: Touches(px, py, r) && Touches(px, py, other)
    ensures Intersects(r, other) == Complete <==> Inside(r, other)
  {
    var px, py := Max(r.x, other.x), Max(r.y, other.y);
    if Intersects(r, other) != Disjoint {
      assert Touches(px, py, r) && Touches(px, py, other);
    }
  }

  datatype Split = NoSplit | Piece(rest: Rect, cut: Rect)

  /** `guac_common_rect_clip_and_split`: cuts one strip off, in the order top, left, bottom, right. */
  function ClipAndSplit(r: Rect, hole: Rect): Split {
    var right, bottom := r.x + r.width, r.y + r.height;
    var holeRight, holeBottom := hole.x + hole.width, hole.y + hole.height;
    if Intersects(r, hole) == Disjoint then
      NoSplit
    else if r.y < hole.y then
      Piece(FromEdges(r.x, hole.y, right, bottom), FromEdges(r.x, r.y, right, hole.y))
    else if r.x < hole.x then
      Piece(FromEdges(hole.x, r.y, right, bottom), FromEdges(r.x, r.y, hole.x, bottom))
    else if bottom > holeBottom then
      Piece(FromEdges(r.x, r.y, right, holeBottom), FromEdges(r.x, holeBottom, right, bottom))
    else if right > holeRight then
      Piece(FromEdges(r.x, r.y, holeRight, bottom), FromEdges(holeRight, r.y, right, bottom))
    else
      NoSplit
  }

  /** Number of sides of `r` that stick out of the hole: what repeated splitting uses up. */
  function SidesOut(r: Rect, hole: Rect): nat {
    (if r.y < hole.y then 1 else 0) + (if r.x < hole.x then 1 else 0) +
    (if r.y + r.height > hole.y + hole.height then 1 else 0) +
    (if r.x + r.width > hole.x + hole.width then 1 else 0)
  }

  /** Proper operands of a cut: sizes are not negative and the two meet. */
  predicate Meet(r: Rect, hole: Rect) {
    && r.width >= 0 && r.height >= 0 && hole.width >= 0 && hole.height >= 0
    && Intersects(r, hole) != Disjoint
  }

  /** Each cut removes one side, keeps the operands proper, and splits the points in two. */
  lemma CutOnce(r: Rect, hole: Rect)
    requires Meet(r, hole)
    ensures ClipAndSplit(r, hole).NoSplit? <==> Inside(r, hole)
    ensures ClipAndSplit(r, hole).Piece? ==>
              var Piece(rest, cut) := ClipAndSplit(r, hole);
              && Meet(rest, hole)
              && SidesOut(rest, hole) < SidesOut(r, hole)
              && Constrain(rest, hole) == Constrain(r, hole)
              && (forall px, py :: In(px, py, r) <==> In(px, py, rest) || In(px, py, cut))
              && (forall px, py :: In(px, py, cut) ==> !In(px, py, rest) && !In(px, py, hole))
  {
    if ClipAndSplit(r, hole).Piece? {
      var Piece(rest, cut) := ClipAndSplit(r, hole);
      forall px, py
        ensures In(px, py, r) <==> In(px, py, rest) || In(px, py, cut)
        ensures In(px, py, cut) ==> !In(px, py, rest) && !In(px, py, hole)
      {
        CutPoint(r, hole, px, py);
      }
    }
  }

  lemma CutPoint(r: Rect, hole: Rect, px: int, py: int)
    requires Meet(r, hole) && ClipAndSplit(r, hole).Piece?
    ensures
      var Piece(rest, cut) := ClipAndSplit(r, hole);
      && (In(px, py, r) <==> In(px, py, rest) || In(px, py, cut))
      && (In(px, py, cut) ==> !In(px, py, rest) && !In(px, py, hole))
  {
  }

  /** Splitting until nothing is left to cut. */
  function SplitAll(r: Rect, hole: Rect): (result: (seq<Rect>, Rect))
    requires Meet(r, hole)
    decreases SidesOut(r, hole)
  {
    CutOnce(r, hole);
    match ClipAndSplit(r, hole)
    case NoSplit => ([], r)
    case Piece(rest, cut) => var (pieces, core) := SplitAll(rest, hole); ([cut] + pieces, core)
  }

  ghost predicate Tiles(pieces: seq<Rect>, core: Rect, r: Rect) {
    && (forall px, py :: In(px, py, r) <==> In(px, py, core) || exists i :: 0 <= i < |pieces| && In(px, py, pieces[i]))
    && (forall i, px, py :: 0 <= i < |pieces| && In(px, py, pieces[i]) ==> !In(px, py, core))
    && (forall i, j, px, py :: 0 <= i < j < |pieces| && In(px, py, pieces[i]) ==> !In(px, py, pieces[j]))
  }

  /**
   Cutting a hole out of a rectangle takes at most four cuts; the strips and the remainder
   tile the rectangle, no strip touches a point of the hole, and the remainder is exactly
   the intersection.
   */
  lemma {:induction false} SplitTiles(r: Rect, hole: Rect)
    requires Meet(r, hole)
    ensures var (pieces, core) := SplitAll(r, hole);
            && |pieces| <= SidesOut(r, hole) <= 4
            && core == Constrain(r, hole)
            && Tiles(pieces, core, r)
            && forall i, px, py :: 0 <= i < |pieces| && In(px, py, pieces[i]) ==> !In(px, py, hole)
    decreases SidesOut(r, hole)
  {
    CutOnce(r, hole);
    match ClipAndSplit(r, hole) {
      case NoSplit =>
      case Piece(rest, cut) =>
        SplitTiles(rest, hole);
        var (pieces, core) := SplitAll(rest, hole);
        TilesCons(cut, rest, pieces, core, r);
        var all := [cut] + pieces;
        forall i, px, py | 0 <= i < |all| && In(px, py, all[i]) ensures !In(px, py, hole) {
          if i > 0 { assert all[i] == pieces[i - 1]; }
        }
    }
  }

  /** A tiling of what is left after a cut, with the cut strip in front, tiles the whole. */
  lemma TilesCons(cut: Rect, rest: Rect, pieces: seq<Rect>, core: Rect, r: Rect)
    requires Tiles(pieces, core, rest)
    requires forall px, py :: In(px, py, r) <==> In(px, py, rest) || In(px, py, cut)
    requires forall px, py :: In(px, py, cut) ==> !In(px, py, rest)
    ensures Tiles([cut] + pieces, core, r)
  {
    var all := [cut] + pieces;
    forall px, py
      ensures In(px, py, r) <==> In(px, py, core) || exists i :: 0 <= i < |all| && In(px, py, all[i])
    {
      if In(px, py, cut) {
        assert all[0] == cut;
      }
      if i :| 0 <= i < |pieces| && In(px, py, pieces[i]) {
        assert all[i + 1] == pieces[i];
      }
    }
    forall i, px, py | 0 <= i < |all| && In(px, py, all[i]) ensures !In(px, py, core) {
      if i > 0 { assert all[i] == pieces[i - 1]; }
    }
    forall i, j, px, py | 0 <= i < j < |all| && In(px, py, all[i]) ensures !In(px, py, all[j]) {
      assert all[j] == pieces[j - 1];
      if i > 0 { assert all[i] == pieces[i - 1]; }
    }
  }
}
