/** The static sphere of `src/sphere.rs`: radius clamping and quadratic root selection. */
module Spheres {
  import opened ExtReals
  import opened Intervals
  import opened Vectors
  import opened Rays
  import opened Boxes
  import opened Materials
  import opened HitRecords

  datatype Sphere = Sphere(centre: Vec3, radius: real, material: Material) {

    /**
     * `h*h - a*c` of the half-`b` quadratic `a t^2 - 2 h t + c = 0`, whose roots
     * are the parameters at which `ray` meets the sphere.
     */
    function Discriminant(ray: Ray): real {
      var oc := centre.Sub(ray.origin);
      var a := ray.direction.LengthSquared();
      var h := oc.Dot(ray.direction);
      var c := oc.LengthSquared() - radius * radius;
      h * h - a * c
    }

    /** The outward unit normal at `p`; a zero vector for a zero radius, where the source divides 0 by 0. */
    function OutwardNormal(p: Vec3): Vec3 {
      if radius == 0.0 then Zero() else p.Sub(centre).DivScalar(radius)
    }

    /**
     * Prefer the nearer root `(h - sqrtd)/a`, fall back to the farther one, and
     * fail (leaving `rec` alone) when neither is strictly inside `rayT`.  On a hit
     * `t`, `p`, the face normal and the material are written; `u` and `v` are not.
     * A zero direction makes both roots `0/0`, an IEEE NaN that no interval
     * surrounds, so that case misses.
     */
    function Hit(ray: Ray, rayT: Interval, rec: HitRecord, sqrt: SqrtFn): (o: Outcome)
      ensures !o.hit ==> o.rec == rec
      ensures Discriminant(ray) < 0.0 ==> !o.hit
      ensures ray.direction.LengthSquared() == 0.0 ==> !o.hit
      ensures o.hit ==> rayT.Surrounds(o.rec.t) && o.rec.p == ray.At(o.rec.t)
      ensures o.hit ==> o.rec.material == material && o.rec.u == rec.u && o.rec.v == rec.v
      ensures o.hit ==> o.rec.normal.Dot(ray.direction) <= 0.0
      ensures o.hit ==> o.rec.t == NearRoot(ray, sqrt) || o.rec.t == FarRoot(ray, sqrt)
      ensures
        0.0 <= Discriminant(ray) && ray.direction.LengthSquared() != 0.0 && rayT.Surrounds(NearRoot(ray, sqrt))
        ==> o.hit && o.rec.t == NearRoot(ray, sqrt)
      ensures
        0.0 <= Discriminant(ray) && ray.direction.LengthSquared() != 0.0 && rayT.Surrounds(FarRoot(ray, sqrt))
        ==> o.hit
    {
      var a := ray.direction.LengthSquared();
      if Discriminant(ray) < 0.0 || a == 0.0 then
        Outcome(false, rec)
      else
        var near := NearRoot(ray, sqrt);
        var root := if rayT.Surrounds(near) then near else FarRoot(ray, sqrt);
        if !rayT.Surrounds(root) then
          Outcome(false, rec)
        else
          var p := ray.At(root);
          var faced := rec.(t := root, p := p).SetFaceNormal(ray, OutwardNormal(p));
          Outcome(true, faced.(material := material))
    }

    /**
     * The cube around the sphere.  `src/sphere.rs` has no `bounding_box`; this is
     * the box the BVH needs, spanning `centre -/+ (r, r, r)`.
     */
    function BoundingBox(): (b: Aabb)
      ensures b.ContainsPoint(centre)
    {
      var rvec := Vec3(radius, radius, radius);
      FromPoints(centre.Sub(rvec), centre.Add(rvec))
    }

    /** `(h - sqrtd) / a`, the nearer intersection parameter. */
    function NearRoot(ray: Ray, sqrt: SqrtFn): real
      requires ray.direction.LengthSquared() != 0.0
    {
      var h := centre.Sub(ray.origin).Dot(ray.direction);
      (h - sqrt(Discriminant(ray))) / ray.direction.LengthSquared()
    }

    /** `(h + sqrtd) / a`, the farther intersection parameter. */
    function FarRoot(ray: Ray, sqrt: SqrtFn): real
      requires ray.direction.LengthSquared() != 0.0
    {
      var h := centre.Sub(ray.origin).Dot(ray.direction);
      (h + sqrt(Discriminant(ray))) / ray.direction.LengthSquared()
    }
  }

  /** `Sphere::new`: a negative radius is clamped to zero. */
  function New(centre: Vec3, radius: real, material: Material): (s: Sphere)
    ensures 0.0 <= s.radius
    ensures s.radius == if radius < 0.0 then 0.0 else radius
    ensures s.centre == centre && s.material == material
  {
    Sphere(centre, if radius < 0.0 then 0.0 else radius, material)
  }

  /** With an exact square root, a reported hit lies on the sphere's surface. */
  lemma HitOnSurface(s: Sphere, ray: Ray, rayT: Interval, rec: HitRecord, sqrt: SqrtFn)
    requires IsSqrt(sqrt)
    ensures
      var o := s.Hit(ray, rayT, rec, sqrt);
      o.hit ==> o.rec.p.Sub(s.centre).LengthSquared() == s.radius * s.radius
  {
    var o := s.Hit(ray, rayT, rec, sqrt);
    if o.hit {
      RootOnSurface(s, ray, o.rec.t, sqrt);
    }
  }

  /** Either root of the quadratic puts the point `ray.At(t)` on the sphere. */
  lemma RootOnSurface(s: Sphere, ray: Ray, t: real, sqrt: SqrtFn)
    requires IsSqrt(sqrt)
    requires 0.0 <= s.Discriminant(ray) && ray.direction.LengthSquared() != 0.0
    requires t == s.NearRoot(ray, sqrt) || t == s.FarRoot(ray, sqrt)
    ensures ray.At(t).Sub(s.centre).LengthSquared() == s.radius * s.radius
  {
    var a := ray.direction.LengthSquared();
    var oc := s.centre.Sub(ray.origin);
    var h := oc.Dot(ray.direction);
    var c := oc.LengthSquared() - s.radius * s.radius;
    var sd := sqrt(s.Discriminant(ray));
    assert sd * sd == h * h - a * c;
    if t == s.NearRoot(ray, sqrt) {
      RootOfQuadratic(a, h, c, -sd, t);
    } else {
      RootOfQuadratic(a, h, c, sd, t);
    }
    var offset := ray.direction.Scale(t).Sub(oc);
    OffsetLength(ray.direction, oc, t, a, h);
    assert ray.At(t).Sub(s.centre) == offset;
  }

  /** A root `t = (h + e)/a` with `e*e = h*h - a*c` solves `a t^2 - 2 h t + c = 0`. */
  lemma RootOfQuadratic(a: real, h: real, c: real, e: real, t: real)
    requires a != 0.0 && e * e == h * h - a * c && t == (h + e) / a
    ensures t * t * a - 2.0 * t * h + c == 0.0
  {
    assert t * a == h + e;
    calc {
      (t * t * a - 2.0 * t * h + c) * a;
      (t * a) * (t * a) - 2.0 * (t * a) * h + c * a;
      (h + e) * (h + e) - 2.0 * (h + e) * h + c * a;
      e * e - h * h + a * c;
      0.0;
    }
  }

  /** `|d t - oc|^2 = t^2 |d|^2 - 2 t (oc . d) + |oc|^2`. */
  lemma OffsetLength(d: Vec3, oc: Vec3, t: real, a: real, h: real)
    requires a == d.LengthSquared() && h == oc.Dot(d)
    ensures d.Scale(t).Sub(oc).LengthSquared() == t * t * a - 2.0 * t * h + oc.LengthSquared()
  {
    assert (d.x * t - oc.x) * (d.x * t - oc.x) == t * t * (d.x * d.x) - 2.0 * t * (oc.x * d.x) + oc.x * oc.x;
    assert (d.y * t - oc.y) * (d.y * t - oc.y) == t * t * (d.y * d.y) - 2.0 * t * (oc.y * d.y) + oc.y * oc.y;
    assert (d.z * t - oc.z) * (d.z * t - oc.z) == t * t * (d.z * d.z) - 2.0 * t * (oc.z * d.z) + oc.z * oc.z;
  }
}
