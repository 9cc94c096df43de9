/**
 * The camera of `src/camera.rs`: the image-height clamp of `Camera::new`, the
 * ray origin choice of `get_ray`, and the bounded recursive integrator
 * `ray_colour`.  The random draws each call would make are parameters.
 */
module Cameras {
  import opened ExtReals
  import opened Intervals
  import opened Vectors
  import opened Rays
  import opened Materials
  import opened HitRecords
  import opened Scattering
  import opened Hittables
  import opened Bits

  /** Rust's saturating `f64 as u32`: truncate toward zero, clamp to `[0, u32::MAX]`. */
  function SaturatingU32(x: real): (n: nat)
    ensures n <= U32Max
    ensures 0.0 <= x && x < U32Max as real ==> n == x.Floor
    ensures x < 1.0 ==> n == 0
    ensures U32Max as real <= x ==> n == U32Max
  {
    if x < 1.0 then 0
    else if U32Max as real <= x then U32Max
    else x.Floor
  }

  /**
   * `(image_width as f64 / aspect_ratio) as u32`, raised to at least 1.  A zero
   * aspect ratio divides to `+inf` (saturating to `u32::MAX`) for a positive
   * width and to NaN (converting to 0) for a zero width.
   */
  function ImageHeight(imageWidth: nat, aspectRatio: real): (h: nat)
    requires imageWidth <= U32Max
    ensures 1 <= h <= U32Max
    ensures 0.0 < aspectRatio && 1.0 <= imageWidth as real / aspectRatio < U32Max as real ==>
      h == (imageWidth as real / aspectRatio).Floor
  {
    var raw :=
      if aspectRatio == 0.0 then (if imageWidth == 0 then 0 else U32Max)
      else SaturatingU32(imageWidth as real / aspectRatio);
    if raw < 1 then 1 else raw
  }

  /** The camera state `get_ray` reads; the trigonometric set-up of `Camera::new` is not modelled. */
  datatype Camera = Camera(
    imageWidth: nat, imageHeight: nat, maxDepth: nat,
    cameraCentre: Vec3, pixel00Loc: Vec3, pixelDeltaU: Vec3, pixelDeltaV: Vec3,
    defocusAngle: real, defocusDiskU: Vec3, defocusDiskV: Vec3)
  {
    /** `defocus_disk_sample` for the point `p` drawn from the unit disk. */
    function DefocusDiskSample(p: Vec3): Vec3 {
      cameraCentre.Add(defocusDiskU.Scale(p.x)).Add(defocusDiskV.Scale(p.y))
    }

    /**
     * `get_ray(i, j)` with the square offset `(ox, oy)`, the disk point and the
     * time drawn at random: from the camera centre, or from the defocus disk
     * when the defocus angle is positive, towards the jittered pixel sample.
     */
    function GetRay(i: nat, j: nat, ox: real, oy: real, diskPoint: Vec3, time: real): (r: Ray)
      ensures defocusAngle <= 0.0 ==> r.origin == cameraCentre
      ensures 0.0 < defocusAngle ==> r.origin == DefocusDiskSample(diskPoint)
      ensures r.origin.Add(r.direction) == PixelSample(i, j, ox, oy)
      ensures r.time == time
    {
      var pixelSample := PixelSample(i, j, ox, oy);
      var origin := if defocusAngle <= 0.0 then cameraCentre else DefocusDiskSample(diskPoint);
      Rays.New(origin, pixelSample.Sub(origin), time)
    }

    /** The point of pixel `(i, j)` offset by `(ox, oy)` pixel widths. */
    function PixelSample(i: nat, j: nat, ox: real, oy: real): Vec3 {
      pixel00Loc.Add(pixelDeltaU.Scale(i as real + ox)).Add(pixelDeltaV.Scale(j as real + oy))
    }
  }

  /** The parameter range every camera ray is asked about: `[0.001, +inf)`. */
  function CameraRange(): (i: Interval)
    ensures i.min == Fin(0.001) && i.max == PosInf
  {
    Intervals.New(Fin(0.001), PosInf)
  }

  /** The sky: white blended towards light blue by the height of the unit direction. */
  function Background(ray: Ray, sqrt: SqrtFn): Vec3 {
    var unitDirection := ray.direction.UnitVector(sqrt);
    var a := 0.5 * (unitDirection.y + 1.0);
    Vec3(1.0, 1.0, 1.0).Scale(1.0 - a).Add(Vec3(0.5, 0.7, 1.0).Scale(a))
  }

  /**
   * `ray_colour(ray, depth, world)`.  Depth 0 is black; otherwise the first hit
   * on `[0.001, +inf)` either absorbs (black) or scatters, and the colour is the
   * attenuation times the colour of the scattered ray one level down; a miss
   * shows the sky.  `sample(d)` is the random input of the scatter at depth `d`.
   */
  function RayColour(ray: Ray, depth: nat, world: Hittable, sample: nat -> Sample, sqrt: SqrtFn): (c: Vec3)
    ensures depth == 0 ==> c == Zero()
    ensures 0 < depth && !Hit(world, ray, CameraRange(), NewRecord(), sqrt).hit ==> c == Background(ray, sqrt)
    ensures
      var o := Hit(world, ray, CameraRange(), NewRecord(), sqrt);
      0 < depth && o.hit && !Scatter(o.rec.material, ray, o.rec, sample(depth), sqrt).scatters ==> c == Zero()
    decreases depth
  {
    if depth == 0 then
      Zero()
    else
      var o := Hit(world, ray, CameraRange(), NewRecord(), sqrt);
      if o.hit then
        var s := Scatter(o.rec.material, ray, o.rec, sample(depth), sqrt);
        if s.scatters then s.attenuation.Mul(RayColour(s.scattered, depth - 1, world, sample, sqrt))
        else Zero()
      else
        Background(ray, sqrt)
  }

  /** Every channel lies in `[0, 1]`. */
  predicate UnitColour(c: Vec3) {
    0.0 <= c.x <= 1.0 && 0.0 <= c.y <= 1.0 && 0.0 <= c.z <= 1.0
  }

  /** A material whose attenuation is a unit colour. */
  predicate UnitAlbedo(m: Material) {
    match m
    case Lambertian(albedo) => UnitColour(albedo)
    case Metal(albedo, _) => UnitColour(albedo)
    case Dielectric(_) => true
  }

  /** With an exact square root the sky stays between its two end colours. */
  lemma BackgroundBounds(ray: Ray, sqrt: SqrtFn)
    requires IsSqrt(sqrt)
    ensures var c := Background(ray, sqrt);
      0.5 <= c.x <= 1.0 && 0.7 <= c.y <= 1.0 && c.z == 1.0
  {
    var u := ray.direction.UnitVector(sqrt);
    if ray.direction.LengthSquared() != 0.0 {
      assert u.LengthSquared() == 1.0;
      UnitComponent(u.x, u.y, u.z);
    } else {
      var l := ray.direction.Length(sqrt);
      assert l * l == 0.0;
      ZeroSquare(l);
      assert u == ray.direction;
      UnitComponent(u.x, u.y, u.z);
    }
  }

  /** A component of a vector of length at most one lies in `[-1, 1]`. */
  lemma UnitComponent(x: real, y: real, z: real)
    requires x * x + y * y + z * z <= 1.0
    ensures -1.0 <= y <= 1.0
  {
  }

  lemma ZeroSquare(l: real)
    requires l * l == 0.0
    ensures l == 0.0
  {
    if l != 0.0 {
      DivCancel(l, l);
    }
  }

  lemma DivCancel(a: real, b: real)
    requires b != 0.0
    ensures (a * b) / b == a
  {
  }

  /** The channelwise product of two unit colours is a unit colour. */
  lemma MulUnitColour(a: Vec3, b: Vec3)
    requires UnitColour(a) && UnitColour(b)
    ensures UnitColour(a.Mul(b))
  {
    MulUnitInterval(a.x, b.x);
    MulUnitInterval(a.y, b.y);
    MulUnitInterval(a.z, b.z);
  }

  /** Scattering off a material with a unit albedo attenuates by a unit colour. */
  lemma AttenuationUnit(m: Material, s: Scattered)
    requires UnitAlbedo(m)
    requires m.Lambertian? || m.Metal? ==> s.attenuation == m.albedo
    requires m.Dielectric? ==> s.attenuation == Vec3(1.0, 1.0, 1.0)
    ensures UnitColour(s.attenuation)
  {
  }

  /**
   * If every material in the scene attenuates by at most one per channel, every
   * colour the integrator returns is a unit colour: light is never amplified.
   */
  lemma {:induction false} RayColourBounded(ray: Ray, depth: nat, world: Hittable, sample: nat -> Sample, sqrt: SqrtFn)
    requires IsSqrt(sqrt)
    requires EveryMaterial(world, UnitAlbedo)
    ensures UnitColour(RayColour(ray, depth, world, sample, sqrt))
    decreases depth
  {
    if depth > 0 {
      var o := Hit(world, ray, CameraRange(), NewRecord(), sqrt);
      if o.hit {
        HitKeepsMaterials(world, ray, CameraRange(), NewRecord(), sqrt, UnitAlbedo);
        var s := Scatter(o.rec.material, ray, o.rec, sample(depth), sqrt);
        if s.scatters {
          RayColourBounded(s.scattered, depth - 1, world, sample, sqrt);
          AttenuationUnit(o.rec.material, s);
          MulUnitColour(s.attenuation, RayColour(s.scattered, depth - 1, world, sample, sqrt));
        }
      } else {
        BackgroundBounds(ray, sqrt);
      }
    }
  }
}
