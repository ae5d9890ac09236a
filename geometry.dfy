/** Points, vectors and axis-aligned bounding boxes, as the scripts hold them in NumPy arrays. */
module Geometry {

  /** An axis index: 0 is X, 1 is Y, 2 is Z. */
  type Axis = a: int | 0 <= a < 3

  datatype Vec3 = Vec3(x: real, y: real, z: real) {

    /** The coordinate on one axis (NumPy's `v[axis]`). */
    function At(axis: Axis): real {
      if axis == 0 then x else if axis == 1 then y else z
    }

    function Plus(v: Vec3): Vec3 {
      Vec3(x + v.x, y + v.y, z + v.z)
    }

    function Minus(v: Vec3): Vec3 {
      Vec3(x - v.x, y - v.y, z - v.z)
    }

    function Scale(k: real): Vec3 {
      Vec3(k * x, k * y, k * z)
    }
  }

  const Origin := Vec3(0.0, 0.0, 0.0)

  /** `mesh.bounds`: the minimum corner `lo` (row 0) and the maximum corner `hi` (row 1). */
  datatype Bounds = Bounds(lo: Vec3, hi: Vec3) {

    /** `bounds[1] - bounds[0]`: the size along each axis. */
    function Extents(): Vec3 {
      hi.Minus(lo)
    }
  }
}
