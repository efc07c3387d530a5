/** Points in world space, as the `THREE.Vector3` values the grid stores. */
module Geometry {

  /** A position in world space. Coordinates are exact reals, not doubles. */
  datatype Vec3 = Vec3(x: real, y: real, z: real)

  /** The component-wise sum `a + b`. */
  function Add(a: Vec3, b: Vec3): (sum: Vec3) {
    Vec3(a.x + b.x, a.y + b.y, a.z + b.z)
  }
}
