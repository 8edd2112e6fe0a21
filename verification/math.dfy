/** Small value types shared by every part of the model: an Option, the
    glm vectors the engine uses, and linear interpolation. Floating-point
    values are modelled as reals. */
module Math {

  datatype Option<+T> = None | Some(value: T)

  datatype Vec2 = Vec2(x: real, y: real)
  datatype Vec3 = Vec3(x: real, y: real, z: real)
  datatype Vec4 = Vec4(x: real, y: real, z: real, w: real)

  /** A glm quaternion, stored in glm's constructor order (w, x, y, z). */
  datatype Quat = Quat(w: real, x: real, y: real, z: real)

  const Zero2 := Vec2(0.0, 0.0)
  const Zero3 := Vec3(0.0, 0.0, 0.0)
  const Zero4 := Vec4(0.0, 0.0, 0.0, 0.0)

  /** The first three components of a vector (glm's vec3(vec4) conversion). */
  function Xyz(v: Vec4): Vec3 {
    Vec3(v.x, v.y, v.z)
  }

  /** glm::lerp(x, y, a): weight a on y, weight 1 - a on x. */
  function Lerp(x: real, y: real, a: real): real {
    x * (1.0 - a) + y * a
  }

  function Lerp4(x: Vec4, y: Vec4, a: real): Vec4 {
    Vec4(Lerp(x.x, y.x, a), Lerp(x.y, y.y, a), Lerp(x.z, y.z, a), Lerp(x.w, y.w, a))
  }

  /** At weight 1 the interpolation yields its second end point exactly,
      at weight 0 its first. */
  lemma LerpEndPoints(x: real, y: real)
    ensures Lerp(x, y, 1.0) == y
    ensures Lerp(x, y, 0.0) == x
  {
  }

  lemma Lerp4EndPoints(x: Vec4, y: Vec4)
    ensures Lerp4(x, y, 1.0) == y
    ensures Lerp4(x, y, 0.0) == x
  {
  }
}
