/**
 * Positions. Node positions are points with real coordinates; a midpoint the host reports
 * may have coordinates that are not numbers (NaN or undefined, which both make `isNaN`
 * hold), which is what `isValidPos` guards against.
 */
module Geometry {

  datatype Point = Point(x: real, y: real)

  /** A coordinate as the host reports it: a number, or NaN (`undefined` coerces to NaN). */
  datatype Coord = Finite(value: real) | NaN

  datatype RawPos = RawPos(x: Coord, y: Coord)

  /** `isValidPos`: neither coordinate is NaN. */
  predicate IsValidPos(p: RawPos) {
    !(p.x.NaN? || p.y.NaN?)
  }

  function FromPoint(q: Point): RawPos {
    RawPos(Finite(q.x), Finite(q.y))
  }

  function ToPoint(p: RawPos): (q: Point)
    requires IsValidPos(p)
    ensures FromPoint(q) == p
  {
    Point(p.x.value, p.y.value)
  }

  /** A reported position is valid exactly when it is the report of some point. */
  lemma ValidExactlyWhenPoint(p: RawPos)
    ensures IsValidPos(p) <==> exists q :: FromPoint(q) == p
  {
    if IsValidPos(p) {
      assert FromPoint(ToPoint(p)) == p;
    }
  }

  /** The mean of two positions: the point halfway between them on both axes. */
  function Mean(p1: Point, p2: Point): (m: Point)
    ensures m.x - p1.x == p2.x - m.x && m.y - p1.y == p2.y - m.y
  {
    Point((p1.x + p2.x) / 2.0, (p1.y + p2.y) / 2.0)
  }
}
