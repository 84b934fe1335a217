/** Points of the plane and the distance between them (class `Point` and
    class `Observation` in app.ts).
 */
module Points {

  /** A point given by its coordinates. An `Observation` is a point that was
      recorded in the field; its timestamp and height are not kept here. */
  datatype Point = Point(x: real, y: real) | Observation(x: real, y: real)

  /** The points that `Trek.add` accepts by its declared parameter type. */
  type ObservationPoint = p: Point | p.Observation? witness Observation(0.0, 0.0)

  /** `a.distanceTo(b)`. The source computes it in floating point with
      `Math.sqrt`; the model keeps it uninterpreted by taking it as a
      parameter wherever it is used. */
  type Metric = (Point, Point) -> real
}
