/**
 * The scattering rules of `src/material.rs`.  The source's `scatter` methods
 * assign the `attenuation` and `scattered` out-parameters and return whether the
 * ray continues; here they return all three.  The random unit vector and the
 * uniform draw they would take from the generator are parameters.
 */
module Scattering {
  import opened Vectors
  import opened Rays
  import opened Materials
  import opened HitRecords

  /** The random values one scatter event consumes. */
  datatype Sample = Sample(unitVector: Vec3, uniform: real)

  /** `scatter`'s return value together with its two out-parameters. */
  datatype Scattered = Scattered(scatters: bool, attenuation: Vec3, scattered: Ray)

  /** Diffuse: the normal plus a random unit vector, or the normal alone if that sum nearly vanishes. */
  function ScatterLambertian(albedo: Vec3, rayIn: Ray, rec: HitRecord, randomUnit: Vec3): (s: Scattered)
    ensures s.scatters && s.attenuation == albedo
    ensures s.scattered.origin == rec.p && s.scattered.time == rayIn.time
    ensures !rec.normal.Add(randomUnit).NearZero() ==> s.scattered.direction == rec.normal.Add(randomUnit)
    ensures rec.normal.Add(randomUnit).NearZero() ==> s.scattered.direction == rec.normal
    ensures s.scattered.direction.NearZero() ==> rec.normal.NearZero()
  {
    var scatterDirection := rec.normal.Add(randomUnit);
    var direction := if scatterDirection.NearZero() then rec.normal else scatterDirection;
    Scattered(true, albedo, Rays.New(rec.p, direction, rayIn.time))
  }

  /** The fuzzed mirror direction of a metal surface. */
  function MetalDirection(fuzz: real, rayIn: Ray, rec: HitRecord, randomUnit: Vec3, sqrt: SqrtFn): Vec3 {
    Reflect(rayIn.direction, rec.normal).UnitVector(sqrt).Add(randomUnit.Scale(fuzz))
  }

  /** Specular: the ray continues only if the fuzzed reflection leaves the surface. */
  function ScatterMetal(albedo: Vec3, fuzz: real, rayIn: Ray, rec: HitRecord, randomUnit: Vec3, sqrt: SqrtFn): (s: Scattered)
    ensures s.attenuation == albedo
    ensures s.scattered.origin == rec.p && s.scattered.time == rayIn.time
    ensures s.scattered.direction == MetalDirection(fuzz, rayIn, rec, randomUnit, sqrt)
    ensures s.scatters <==> 0.0 < s.scattered.direction.Dot(rec.normal)
  {
    var scattered := Rays.New(rec.p, MetalDirection(fuzz, rayIn, rec, randomUnit, sqrt), rayIn.time);
    Scattered(0.0 < scattered.direction.Dot(rec.normal), albedo, scattered)
  }

  /** `1 / ri` when the ray enters the surface, `ri` when it leaves. */
  function RefractionRatio(refractiveIndex: PositiveReal, frontFace: bool): (r: real)
    ensures 0.0 < r
    ensures frontFace ==> r * refractiveIndex == 1.0
    ensures !frontFace ==> r == refractiveIndex
  {
    if frontFace then 1.0 / refractiveIndex else refractiveIndex
  }

  /** `cos_theta = min(-unit_direction . normal, 1)`. */
  function CosTheta(unitDirection: Vec3, normal: Vec3): (c: real)
    ensures c <= 1.0
    ensures unitDirection.Neg().Dot(normal) <= 1.0 ==> c == unitDirection.Neg().Dot(normal)
    ensures 1.0 < unitDirection.Neg().Dot(normal) ==> c == 1.0
  {
    var c := unitDirection.Neg().Dot(normal);
    if c < 1.0 then c else 1.0
  }

  /** Total internal reflection: `ratio * sin_theta > 1`. */
  predicate CannotRefract(ratio: real, cosTheta: real, sqrt: SqrtFn) {
    ratio * sqrt(1.0 - cosTheta * cosTheta) > 1.0
  }

  /**
   * Glass: always continues, never tints; it reflects under total internal
   * reflection, or when Schlick's reflectance exceeds the uniform draw, and
   * refracts otherwise.
   */
  function ScatterDielectric(refractiveIndex: PositiveReal, rayIn: Ray, rec: HitRecord, draw: real, sqrt: SqrtFn): (s: Scattered)
    ensures s.scatters && s.attenuation == Vec3(1.0, 1.0, 1.0)
    ensures s.scattered.origin == rec.p && s.scattered.time == rayIn.time
    ensures
      var ratio := RefractionRatio(refractiveIndex, rec.frontFace);
      var unitDirection := rayIn.direction.UnitVector(sqrt);
      var cosTheta := CosTheta(unitDirection, rec.normal);
      ((CannotRefract(ratio, cosTheta, sqrt) || Reflectance(cosTheta, ratio) > draw) ==>
         s.scattered.direction == Reflect(unitDirection, rec.normal)) &&
      ((!CannotRefract(ratio, cosTheta, sqrt) && Reflectance(cosTheta, ratio) <= draw) ==>
         s.scattered.direction == Refract(unitDirection, rec.normal, ratio, sqrt))
  {
    var ratio := RefractionRatio(refractiveIndex, rec.frontFace);
    var unitDirection := rayIn.direction.UnitVector(sqrt);
    var cosTheta := CosTheta(unitDirection, rec.normal);
    var direction :=
      if CannotRefract(ratio, cosTheta, sqrt) || Reflectance(cosTheta, ratio) > draw then
        Reflect(unitDirection, rec.normal)
      else
        Refract(unitDirection, rec.normal, ratio, sqrt);
    Scattered(true, Vec3(1.0, 1.0, 1.0), Rays.New(rec.p, direction, rayIn.time))
  }

  /** Dynamic dispatch on the material; only a metal can absorb the ray. */
  function Scatter(m: Material, rayIn: Ray, rec: HitRecord, sample: Sample, sqrt: SqrtFn): (s: Scattered)
    ensures !s.scatters ==> m.Metal?
    ensures s.scattered.origin == rec.p && s.scattered.time == rayIn.time
    ensures m.Lambertian? || m.Metal? ==> s.attenuation == m.albedo
    ensures m.Dielectric? ==> s.attenuation == Vec3(1.0, 1.0, 1.0)
  {
    match m
    case Lambertian(albedo) => ScatterLambertian(albedo, rayIn, rec, sample.unitVector)
    case Metal(albedo, fuzz) => ScatterMetal(albedo, fuzz, rayIn, rec, sample.unitVector, sqrt)
    case Dielectric(ri) => ScatterDielectric(ri, rayIn, rec, sample.uniform, sqrt)
  }

  /**
   * A perfect mirror (no fuzz) facing a unit normal keeps the ray exactly when
   * the incoming ray meets the surface from the normal's side.
   */
  lemma MirrorScattersIffIncoming(albedo: Vec3, rayIn: Ray, rec: HitRecord, randomUnit: Vec3, sqrt: SqrtFn)
    requires IsSqrt(sqrt)
    requires rec.normal.LengthSquared() == 1.0
    requires Reflect(rayIn.direction, rec.normal).LengthSquared() != 0.0
    ensures ScatterMetal(albedo, 0.0, rayIn, rec, randomUnit, sqrt).scatters
      <==> rayIn.direction.Dot(rec.normal) < 0.0
  {
    var r := Reflect(rayIn.direction, rec.normal);
    var l := r.Length(sqrt);
    var L := r.LengthSquared();
    assert l * l == L;
    assert 0.0 < l;
    var u := r.UnitVector(sqrt);
    assert u == r.DivScalar(l);
    var d := MetalDirection(0.0, rayIn, rec, randomUnit, sqrt);
    assert d == u;
    DotDivScalar(r, rec.normal, l);
    assert r.Dot(rec.normal) == -rayIn.direction.Dot(rec.normal);
    PositiveQuotient(r.Dot(rec.normal), l);
  }

  lemma PositiveQuotient(a: real, l: real)
    requires 0.0 < l
    ensures 0.0 < a / l <==> 0.0 < a
  {
    if 0.0 < a {
      assert 0.0 < a / l;
    } else {
      assert a / l <= 0.0;
    }
  }
}
