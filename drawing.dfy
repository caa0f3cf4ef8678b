/** The two `System.Drawing` value types the overlay works with: a `Point` is a pair
    of `int` coordinates and a `Rectangle` is an origin with a width and a height,
    all plain `int`s. */
module Drawing {
  import opened CSharpInt

  datatype Point = Point(x: Int32, y: Int32)

  /** `Point.Empty`, the value an unassigned `Point` field holds. */
  const EmptyPoint: Point := Point(0, 0)

  datatype Rectangle = Rectangle(x: Int32, y: Int32, width: Int32, height: Int32)

  /** `p` lies on the rectangle or inside it, edges included. */
  predicate Touches(r: Rectangle, p: Point) {
    r.x <= p.x <= r.x + r.width && r.y <= p.y <= r.y + r.height
  }

  /** Every point of `inner` lies on or inside `outer`. */
  predicate Encloses(outer: Rectangle, inner: Rectangle) {
    outer.x <= inner.x && inner.x + inner.width <= outer.x + outer.width &&
    outer.y <= inner.y && inner.y + inner.height <= outer.y + outer.height
  }

  /** `p` and `q` are two opposite corners of `r`. */
  predicate OppositeCorners(r: Rectangle, p: Point, q: Point) {
    {p.x, q.x} == {r.x, r.x + r.width} && {p.y, q.y} == {r.y, r.y + r.height}
  }
}
