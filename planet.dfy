/** A body as the renderer and the camera see it. The `Planet` class of the
    repository does not define the accessors its callers use, so the model
    takes the record those callers read: `getP()`, velocity, `getMass()`,
    `getRadius()` and `getColor()`. */
module Planets {
  import opened Vectors

  datatype Color = Color(r: real, g: real, b: real)

  datatype Planet = Planet(position: Vector2, velocity: Vector2, mass: real, radius: real, color: Color)

  /** The current position of every body, in body order. */
  function Positions(ps: seq<Planet>): (r: seq<Vector2>)
    ensures |r| == |ps|
    ensures forall i :: 0 <= i < |ps| ==> r[i] == ps[i].position
  {
    seq(|ps|, i requires 0 <= i < |ps| => ps[i].position)
  }
}
