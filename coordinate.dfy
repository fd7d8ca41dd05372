/** A grid cell position (models/Coordinate.ts). */
module Coordinates {

  datatype Coordinate = Coordinate(x: int, y: int)

  /** Field-by-field comparison used everywhere a cell is matched. */
  function AreCoordinatesEqual(a: Coordinate, b: Coordinate): (r: bool)
    ensures r <==> a == b
  {
    a.x == b.x && a.y == b.y
  }

  /** The comparison is an equivalence relation. */
  lemma AreCoordinatesEqualIsEquivalence(a: Coordinate, b: Coordinate, c: Coordinate)
    ensures AreCoordinatesEqual(a, a)
    ensures AreCoordinatesEqual(a, b) == AreCoordinatesEqual(b, a)
    ensures AreCoordinatesEqual(a, b) && AreCoordinatesEqual(b, c) ==> AreCoordinatesEqual(a, c)
  {
  }

  /** The starting cell of a player's tracked location (the origin). */
  function ZeroCoordinate(): Coordinate
  {
    Coordinate(0, 0)
  }
}
