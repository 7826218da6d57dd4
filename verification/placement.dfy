/**
 * WindowAtPointer: where the popup goes on the screen.
 *
 * X places a window by the outer corner of its border, so a window of
 * width w and border b covers the columns x .. x + w + 2b - 1.
 * Coordinates are unbounded integers; see the README for how the
 * program's mix of int and unsigned int agrees with them.
 */
module Placement {

  /**
   * The pointer, the popup's size and border, and the screen's size. The
   * pointer is in root-window coordinates, which are never negative.
   */
  datatype Geometry = Geometry(
    px: nat, py: nat,
    width: nat, height: nat, border: nat,
    rwidth: nat, rheight: nat)

  datatype Point = Point(x: int, y: int)

  /** The gap between the pointer and the popup, above or below. */
  const Gap: int := 10

  /** The pointer is on the screen and the popup, border included, is no wider than it. */
  predicate Fits(g: Geometry) {
    && 0 <= g.px < g.rwidth
    && 0 <= g.py < g.rheight
    && g.width + 2 * g.border <= g.rwidth
  }

  /** The popup fits below the pointer, border included, with the gap. */
  predicate RoomBelow(g: Geometry) {
    g.py + Gap + g.height + 2 * g.border < g.rheight
  }

  /** The column the popup starts at when centred on the pointer. */
  function Centred(g: Geometry): int {
    g.px - g.width / 2
  }

  function Row(g: Geometry): int {
    if RoomBelow(g) then g.py + Gap else g.py - Gap - g.height
  }

  /**
   * WindowAtPointer as written: centre on the pointer; move to the border
   * width if that starts left of the screen; and if the popup's inner
   * width then reaches the right edge, end the popup, border included, at
   * the right edge.
   */
  function PlaceAsWritten(g: Geometry): (p: Point)
    ensures p.y == g.py + Gap <==> RoomBelow(g)
    ensures p.x == Centred(g) || p.x == g.border || p.x + g.width + 2 * g.border == g.rwidth
    ensures p.x + g.width < g.rwidth || p.x + g.width + 2 * g.border == g.rwidth
  {
    var x0 := Centred(g);
    var x1 := if x0 < 0 then g.border else x0;
    var x := if x1 + g.width >= g.rwidth then g.rwidth - g.width - 2 * g.border else x1;
    Point(x, Row(g))
  }

  /**
   * Where the program puts the popup: it starts on the screen, its start
   * plus its inner width is at most the screen's width, and it goes below the pointer exactly when there is room.
   */
  lemma PlaceAsWrittenBounds(g: Geometry)
    requires Fits(g)
    ensures var p := PlaceAsWritten(g);
      && 0 <= p.x
      && p.x + g.width <= g.rwidth
      && (RoomBelow(g) ==> p.y == g.py + Gap)
      && (!RoomBelow(g) ==> p.y == g.py - Gap - g.height)
  {
  }

  /**
   * The as-written right-edge test leaves the border out: with the
   * popup's own size (640 by 30, border 1) on a screen 1000 wide, a
   * pointer at column 679 puts the right border one column past the edge.
   */
  lemma BorderPastRightEdge()
    ensures var g := Geometry(679, 100, 640, 30, 1, 1000, 800);
      Fits(g) && PlaceAsWritten(g).x + g.width + 2 * g.border == g.rwidth + 1
  {
  }

  /**
   * The placement with the right-edge test counting the border, which
   * is what the correction it applies already assumes.
   */
  function Place(g: Geometry): (p: Point)
    ensures p.y == g.py + Gap <==> RoomBelow(g)
    ensures p.x == Centred(g) || p.x == g.border || p.x + g.width + 2 * g.border == g.rwidth
    ensures p.x + g.width + 2 * g.border <= g.rwidth
  {
    var x0 := Centred(g);
    var x1 := if x0 < 0 then g.border else x0;
    var x := if x1 + g.width + 2 * g.border > g.rwidth then g.rwidth - g.width - 2 * g.border else x1;
    Point(x, Row(g))
  }

  /**
   * The whole popup, border included, lies within the screen's columns;
   * it goes below the pointer exactly when there is room, and then lies
   * within the screen's rows too.
   */
  lemma PlaceBounds(g: Geometry)
    requires Fits(g)
    ensures var p := Place(g);
      && 0 <= p.x
      && p.x + g.width + 2 * g.border <= g.rwidth
      && (RoomBelow(g) ==> p.y == g.py + Gap && p.y + g.height + 2 * g.border < g.rheight)
      && (!RoomBelow(g) ==> p.y == g.py - Gap - g.height)
  {
  }

  /** When the centred popup fits, both placements centre it on the pointer. */
  lemma PlaceCentres(g: Geometry)
    requires 0 <= Centred(g) && Centred(g) + g.width + 2 * g.border <= g.rwidth
    ensures Place(g).x == Centred(g)
    ensures PlaceAsWritten(g).x == Centred(g)
  {
  }

  /** The two placements differ only when the border alone would cross the right edge. */
  lemma PlacementsAgree(g: Geometry)
    requires Fits(g)
    ensures var x1 := if Centred(g) < 0 then g.border else Centred(g);
      PlaceAsWritten(g) != Place(g) <==>
        x1 + g.width < g.rwidth < x1 + g.width + 2 * g.border
  {
  }

  /** With a border thinner than half the gap, the popup never covers the pointer. */
  lemma PopupClearsPointer(g: Geometry)
    requires 2 * g.border < Gap
    ensures var p := Place(g);
      g.py < p.y || p.y + g.height + 2 * g.border <= g.py
  {
  }
}
