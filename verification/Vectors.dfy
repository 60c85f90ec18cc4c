/** Points of three-dimensional space in exact arithmetic. */
module Vectors {

  datatype Vec3 = Vec3(x: real, y: real, z: real) {
    function At(axis: nat): real {
      if axis == 0 then x else if axis == 1 then y else z
    }
  }
}
