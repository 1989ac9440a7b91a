/** World-space geometry of the autosplitter: points and the axis-aligned
    rectangles that mark split regions. Coordinates are exact reals; the
    single-precision representation of the game is not modelled. */
module Geometry {

  /** A point in the game's world space. */
  datatype Vector2 = Vector2(x: real, y: real)

  /** A rectangle stored by two corners: `c1` is the top-left corner and
      `c2` the bottom-right one (y grows upwards). */
  datatype Rect = Rect(c1: Vector2, c2: Vector2) {
    function Left(): real { c1.x }
    function Right(): real { c2.x }
    function Top(): real { c1.y }
    function Bottom(): real { c2.y }

    /** The rectangle has a non-empty interior: its corners are stored in
        the orientation that the containment test expects. */
    predicate WellFormed() {
      Left() < Right() && Bottom() < Top()
    }
  }

  /** Builds a rectangle from its four bounds: the left and top bounds go
      into the first corner, the right and bottom bounds into the second. */
  function NewRect(left: real, right: real, bottom: real, top: real): (r: Rect)
    ensures r.Left() == left && r.Right() == right
    ensures r.Bottom() == bottom && r.Top() == top
    ensures r.WellFormed() <==> left < right && bottom < top
  {
    Rect(Vector2(left, top), Vector2(right, bottom))
  }

  /** Strict containment: the point lies right of the left edge, left of the
      right edge, above the bottom edge and below the top edge. The test
      trusts the corner orientation of `bounds`: on a rectangle whose corners
      are swapped nothing is ever inside. */
  function InBounds(p: Vector2, bounds: Rect): (inside: bool)
    ensures inside ==> bounds.WellFormed()
    ensures inside ==> p != bounds.c1 && p != bounds.c2
    ensures inside ==> bounds.Left() < p.x < bounds.Right()
    ensures inside ==> bounds.Bottom() < p.y < bounds.Top()
  {
    var withinX := p.x > bounds.c1.x && p.x < bounds.c2.x;
    var withinY := p.y > bounds.c2.y && p.y < bounds.c1.y;
    withinX && withinY
  }

  /** The centre of a well-formed rectangle, a witness that its interior is
      not empty. */
  function Midpoint(r: Rect): (m: Vector2)
    requires r.WellFormed()
    ensures InBounds(m, r)
  {
    Vector2((r.Left() + r.Right()) / 2.0, (r.Bottom() + r.Top()) / 2.0)
  }

  /** Containment in a rectangle built by `NewRect`, stated on its bounds. */
  lemma InBoundsOfNewRect(p: Vector2, left: real, right: real, bottom: real, top: real)
    ensures InBounds(p, NewRect(left, right, bottom, top))
        <==> left < p.x < right && bottom < p.y < top
  {
  }

  /** A point on any of the four edges of a rectangle is never inside it. */
  lemma EdgeIsOutside(p: Vector2, left: real, right: real, bottom: real, top: real)
    requires p.x == left || p.x == right || p.y == bottom || p.y == top
    ensures !InBounds(p, NewRect(left, right, bottom, top))
  {
  }

  /** Rectangles that are separated vertically, one lying wholly above the
      other, never both contain the same point. */
  lemma StackedAreDisjoint(p: Vector2, lower: Rect, upper: Rect)
    requires lower.Top() <= upper.Bottom()
    ensures !(InBounds(p, lower) && InBounds(p, upper))
  {
  }
}
