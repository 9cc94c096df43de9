/**
 * Textures, `src/texture.rs`: a solid colour, and a 3-D checker board that picks
 * one of two sub-textures by the parity of the lattice cell containing `p`.
 */
module Textures {
  import opened ExtReals
  import opened Vectors
  import opened Bits
  import Boxes

  datatype Texture =
    | SolidColour(albedo: Vec3)
    | CheckerTexture(invScale: ExtReal, odd: Texture, even: Texture)
  {
    /** `value(u, v, p)`: the colour at surface coordinates `(u, v)` and point `p`. */
    function Value(u: real, v: real, p: Vec3): (c: Vec3)
      ensures SolidColour? ==> c == albedo
      ensures CheckerTexture? && IsEven(invScale, p) ==> c == even.Value(u, v, p)
      ensures CheckerTexture? && !IsEven(invScale, p) ==> c == odd.Value(u, v, p)
    {
      match this
      case SolidColour(albedo) => albedo
      case CheckerTexture(invScale, odd, even) =>
        if IsEven(invScale, p) then even.Value(u, v, p) else odd.Value(u, v, p)
    }
  }

  /** `SolidColour::new`. */
  function SolidNew(albedo: Vec3): (t: Texture)
    ensures t.SolidColour? && forall u, v, p :: t.Value(u, v, p) == albedo
  {
    SolidColour(albedo)
  }

  /** `CheckerTexture::new(scale, even, odd)`: note the argument order, even before odd. */
  function CheckerNew(scale: real, even: Texture, odd: Texture): (t: Texture)
    ensures t.CheckerTexture? && t.even == even && t.odd == odd
    ensures scale != 0.0 ==> t.invScale == Fin(1.0 / scale)
    ensures scale == 0.0 ==> t.invScale == PosInf
  {
    CheckerTexture(Boxes.Recip(scale), odd, even)
  }

  /** `CheckerTexture::from_colours(scale, c1, c2)`: `c1` is the odd colour, `c2` the even one. */
  function FromColours(scale: real, c1: Vec3, c2: Vec3): (t: Texture)
    ensures t == CheckerNew(scale, SolidColour(c2), SolidColour(c1))
    ensures forall u, v, p :: t.Value(u, v, p) == if IsEven(t.invScale, p) then c2 else c1
  {
    CheckerTexture(Boxes.Recip(scale), SolidColour(c1), SolidColour(c2))
  }

  /**
   * `(inv_scale * x).floor() as i32`.  Rust's float-to-int cast saturates at the
   * `i32` bounds and turns NaN (`inf * 0`) into 0.
   */
  function LatticeCoord(invScale: ExtReal, x: real): (n: int)
    ensures I32Min <= n <= I32Max
    ensures invScale.Fin? && I32Min <= (invScale.r * x).Floor <= I32Max ==> n == (invScale.r * x).Floor
  {
    match invScale
    case Fin(s) => SaturateI32((s * x).Floor)
    case PosInf => if 0.0 < x then I32Max else if x < 0.0 then I32Min else 0
    case NegInf => if 0.0 < x then I32Min else if x < 0.0 then I32Max else 0
  }

  /**
   * `(x_int + y_int + z_int) % 2 == 0`.  The `i32` sum may wrap, but wrapping
   * changes it by a multiple of 2^32 and so keeps its parity.
   */
  predicate IsEven(invScale: ExtReal, p: Vec3) {
    (LatticeCoord(invScale, p.x) + LatticeCoord(invScale, p.y) + LatticeCoord(invScale, p.z)) % 2 == 0
  }

  /**
   * Moving one cell width `1 / inv_scale` along x swaps the checker's colours,
   * as long as the cell indices stay inside the `i32` range.
   */
  lemma ShiftFlipsChecker(s: real, odd: Texture, even: Texture, u: real, v: real, p: Vec3)
    requires s != 0.0
    requires I32Min <= (s * p.x).Floor && (s * p.x).Floor + 1 <= I32Max
    requires I32Min <= (s * p.y).Floor <= I32Max && I32Min <= (s * p.z).Floor <= I32Max
    ensures
      var t := CheckerTexture(Fin(s), odd, even);
      var q := p.(x := p.x + 1.0 / s);
      IsEven(Fin(s), q) != IsEven(Fin(s), p) &&
      (IsEven(Fin(s), p) ==> t.Value(u, v, q) == odd.Value(u, v, q)) &&
      (!IsEven(Fin(s), p) ==> t.Value(u, v, q) == even.Value(u, v, q))
  {
    var q := p.(x := p.x + 1.0 / s);
    ShiftByCell(s, p.x);
    var a := LatticeCoord(Fin(s), p.x) + LatticeCoord(Fin(s), p.y) + LatticeCoord(Fin(s), p.z);
    assert LatticeCoord(Fin(s), q.x) == LatticeCoord(Fin(s), p.x) + 1;
    assert LatticeCoord(Fin(s), q.x) + LatticeCoord(Fin(s), q.y) + LatticeCoord(Fin(s), q.z) == a + 1;
    assert (a + 1) % 2 == 0 <==> a % 2 != 0;
  }

  lemma ShiftByCell(s: real, x: real)
    requires s != 0.0
    ensures (s * (x + 1.0 / s)).Floor == (s * x).Floor + 1
  {
    assert s * (x + 1.0 / s) == s * x + s * (1.0 / s);
    assert s * (1.0 / s) == 1.0;
  }
}
