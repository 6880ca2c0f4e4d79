/**
 * Scene records (RadioSimulator/props.py). Coordinates, widths and material
 * parameters are real numbers; the floating-point rounding of the program is
 * not part of the model.
 */
module Props {
  import opened Wrappers

  /** An (x, y) position on the scene. */
  type Point = (real, real)

  /** A direction (dx, dy). */
  type Vec = (real, real)

  /** A segment or line given by two points, flattened as (x1, y1, x2, y2). */
  type Line = (real, real, real, real)

  /** A named material with its two coefficient parameters. */
  datatype Material = Material(name: string, param1: real, param2: real)

  /**
   * A wall: its endpoints, its material and its drawn width. The ray engine
   * also reads a `normal` from every wall; no visible code computes it, so it
   * is an independent field here.
   */
  datatype Wall = Wall(points: Line, material: Material, width: real, normal: Vec)

  /** A transmitter, as far as the ray engine uses it: where it stands. */
  datatype Transmitter = Transmitter(point: Point)

  /** One vertex of a ray's path: where it is, and the wall that reflected it (None on a scene boundary). */
  datatype Bounce = Bounce(point: Point, wall: Option<Wall>)
}
