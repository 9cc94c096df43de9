/**
 * The three materials of `src/material.rs` and their constructors, plus Schlick's
 * reflectance.  The scattering rules themselves are in module `Scattering`.
 */
module Materials {
  import opened Vectors

  /** Refractive indices the model admits (see README, "Left out"). */
  type PositiveReal = r: real | 0.0 < r witness 1.0

  datatype Material =
    | Lambertian(albedo: Vec3)
    | Metal(albedo: Vec3, fuzz: real)
    | Dielectric(refractiveIndex: PositiveReal)

  function LambertianNew(albedo: Vec3): (m: Material)
    ensures m.Lambertian? && m.albedo == albedo
  {
    Lambertian(albedo)
  }

  /** `fuzz.min(1.0)`: the fuzz is capped at 1 and kept otherwise. */
  function MetalNew(albedo: Vec3, fuzz: real): (m: Material)
    ensures m.Metal? && m.albedo == albedo
    ensures m.fuzz <= 1.0
    ensures fuzz <= 1.0 ==> m.fuzz == fuzz
    ensures 1.0 < fuzz ==> m.fuzz == 1.0
  {
    Metal(albedo, if fuzz < 1.0 then fuzz else 1.0)
  }

  function DielectricNew(refractiveIndex: PositiveReal): (m: Material)
    ensures m.Dielectric? && m.refractiveIndex == refractiveIndex
  {
    Dielectric(refractiveIndex)
  }

  /** `x.powi(n)`. */
  function Pow(x: real, n: nat): real {
    if n == 0 then 1.0 else x * Pow(x, n - 1)
  }

  lemma {:induction false} PowUnitInterval(x: real, n: nat)
    requires 0.0 <= x <= 1.0
    ensures 0.0 <= Pow(x, n) <= 1.0
  {
    if n > 0 {
      PowUnitInterval(x, n - 1);
      MulUnitInterval(x, Pow(x, n - 1));
    }
  }

  lemma MulUnitInterval(a: real, b: real)
    requires 0.0 <= a <= 1.0 && 0.0 <= b <= 1.0
    ensures 0.0 <= a * b <= 1.0
  {
    assert 0.0 <= a * b;
    assert a * b <= b;
  }

  lemma PowSquare(q: real)
    ensures Pow(q, 2) == q * q
  {
    assert Pow(q, 1) == q * 1.0;
    assert Pow(q, 2) == q * Pow(q, 1);
  }

  /** `((1 - ri) / (1 + ri))^2`, Schlick's reflectance at normal incidence. */
  function R0(refractiveIndex: real): real
    requires refractiveIndex != -1.0
  {
    Pow((1.0 - refractiveIndex) / (1.0 + refractiveIndex), 2)
  }

  /** Schlick's approximation `r0 + (1 - r0) (1 - cosine)^5`. */
  function Reflectance(cosine: real, refractiveIndex: real): real
    requires refractiveIndex != -1.0
  {
    var r0 := R0(refractiveIndex);
    r0 + (1.0 - r0) * Pow(1.0 - cosine, 5)
  }

  /** At normal incidence the reflectance is exactly `r0`. */
  lemma ReflectanceNormalIncidence(refractiveIndex: real)
    requires refractiveIndex != -1.0
    ensures Reflectance(1.0, refractiveIndex) == R0(refractiveIndex)
  {
    assert Pow(0.0, 5) == 0.0;
  }

  /** For a non-negative index, `r0` lies in `[0, 1]`. */
  lemma R0Bounds(refractiveIndex: real)
    requires 0.0 <= refractiveIndex
    ensures 0.0 <= R0(refractiveIndex) <= 1.0
  {
    var q := (1.0 - refractiveIndex) / (1.0 + refractiveIndex);
    assert -1.0 <= q <= 1.0 by {
      assert q * (1.0 + refractiveIndex) == 1.0 - refractiveIndex;
    }
    PowSquare(q);
    if 0.0 <= q {
      MulUnitInterval(q, q);
    } else {
      MulUnitInterval(-q, -q);
      assert (-q) * (-q) == q * q;
    }
  }

  /** For a cosine in `[0, 1]` and a non-negative index the reflectance lies in `[r0, 1]`. */
  lemma ReflectanceBounds(cosine: real, refractiveIndex: real)
    requires 0.0 <= cosine <= 1.0 && 0.0 <= refractiveIndex
    ensures R0(refractiveIndex) <= Reflectance(cosine, refractiveIndex) <= 1.0
  {
    var r0 := R0(refractiveIndex);
    R0Bounds(refractiveIndex);
    var k := Pow(1.0 - cosine, 5);
    PowUnitInterval(1.0 - cosine, 5);
    assert 0.0 <= (1.0 - r0) * k <= (1.0 - r0) * 1.0;
  }
}
