/** Parametric rays `origin + t * direction`, stamped with a time, `src/ray.rs`. */
module Rays {
  import opened Vectors

  datatype Ray = Ray(origin: Vec3, direction: Vec3, time: real) {

    /** The point reached after parameter `t`. */
    function At(t: real): (p: Vec3)
      ensures p.Sub(origin) == direction.Scale(t)
    {
      origin.Add(direction.Scale(t))
    }
  }

  /** `Ray::new`; the accessors `origin()`, `direction()`, `time()` are the fields. */
  function New(origin: Vec3, direction: Vec3, time: real): (r: Ray)
    ensures r.origin == origin && r.direction == direction && r.time == time
  {
    Ray(origin, direction, time)
  }

  lemma AtZero(r: Ray)
    ensures r.At(0.0) == r.origin
  {
  }

  /** Advancing by `s + t` is advancing by `s`, then moving `t` further along the direction. */
  lemma AtAdditive(r: Ray, s: real, t: real)
    ensures r.At(s + t) == r.At(s).Add(r.direction.Scale(t))
  {
  }
}
