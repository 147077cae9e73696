/** Positions in a document: a byte count together with a row/column extent. */
module Lengths {
  datatype Point = Point(row: nat, column: nat)

  function PointAdd(a: Point, b: Point): Point {
    if b.row > 0 then Point(a.row + b.row, b.column) else Point(a.row, a.column + b.column)
  }

  function PointSub(a: Point, b: Point): Point {
    if a.row > b.row then Point(a.row - b.row, a.column)
    else Point(0, if a.column >= b.column then a.column - b.column else 0)
  }

  predicate PointLte(a: Point, b: Point) {
    a.row < b.row || (a.row == b.row && a.column <= b.column)
  }

  datatype Length = Length(bytes: nat, extent: Point)

  const ZERO: Length := Length(0, Point(0, 0))

  function Add(a: Length, b: Length): Length {
    Length(a.bytes + b.bytes, PointAdd(a.extent, b.extent))
  }

  function Sub(a: Length, b: Length): Length {
    Length(if a.bytes >= b.bytes then a.bytes - b.bytes else 0, PointSub(a.extent, b.extent))
  }

  function SaturatingSub(a: Length, b: Length): Length {
    if a.bytes > b.bytes then Sub(a, b) else ZERO
  }

  /** Lengths form a monoid, and subtraction cancels a prefix on the left. */
  lemma LengthMonoid(a: Length, b: Length, c: Length)
    ensures Add(Add(a, b), c) == Add(a, Add(b, c))
    ensures Add(a, ZERO) == a && Add(ZERO, a) == a
    ensures Sub(Add(a, b), a) == b
  {
  }

  /**
   * Subtracting a prefix and adding it back restores the length exactly when the prefix
   * really is one, in bytes and in rows and columns.
   */
  lemma SubCancels(a: Length, b: Length)
    ensures Add(b, Sub(a, b)) == a <==> b.bytes <= a.bytes && PointLte(b.extent, a.extent)
  {
  }
}
