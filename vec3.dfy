/**
 * Three-component vectors, `src/vec3.rs`: points, directions and colours alike.
 * Components are exact reals.  `f64::sqrt` is outside the model: operations that
 * need a square root receive one as a parameter, and properties that depend on
 * it being exact assume `IsSqrt`.
 */
module Vectors {
  import opened Wrappers

  /** A square-root routine supplied by the caller. */
  type SqrtFn = real -> real

  /** `sqrt` is an exact non-negative square root on non-negative inputs. */
  ghost predicate IsSqrt(sqrt: SqrtFn) {
    forall x :: 0.0 <= x ==> 0.0 <= sqrt(x) && sqrt(x) * sqrt(x) == x
  }

  function Abs(x: real): (a: real)
    ensures 0.0 <= a && (a == x || a == -x)
  {
    if x < 0.0 then -x else x
  }

  /** The threshold of `near_zero`. */
  const NearZeroEps: real := 0.00000001

  datatype Vec3 = Vec3(x: real, y: real, z: real) {

    function LengthSquared(): (l: real)
      ensures 0.0 <= l
    {
      x * x + y * y + z * z
    }

    function Length(sqrt: SqrtFn): real {
      sqrt(LengthSquared())
    }

    function Dot(o: Vec3): real {
      x * o.x + y * o.y + z * o.z
    }

    function Cross(o: Vec3): Vec3 {
      Vec3(y * o.z - z * o.y, z * o.x - x * o.z, x * o.y - y * o.x)
    }

    function Add(o: Vec3): Vec3 {
      Vec3(x + o.x, y + o.y, z + o.z)
    }

    function AddScalar(s: real): Vec3 {
      Vec3(x + s, y + s, z + s)
    }

    function Sub(o: Vec3): Vec3 {
      Vec3(x - o.x, y - o.y, z - o.z)
    }

    function SubScalar(s: real): Vec3 {
      Vec3(x - s, y - s, z - s)
    }

    /** Component-wise product, used to attenuate colours. */
    function Mul(o: Vec3): Vec3 {
      Vec3(x * o.x, y * o.y, z * o.z)
    }

    function Scale(s: real): Vec3 {
      Vec3(x * s, y * s, z * s)
    }

    function DivScalar(s: real): Vec3
      requires s != 0.0
    {
      Vec3(x / s, y / s, z / s)
    }

    function Neg(): Vec3 {
      Vec3(-x, -y, -z)
    }

    /**
     * `self / self.length()`.  IEEE division of a zero vector by its zero length
     * gives NaN components; the model returns the vector itself in that case.
     */
    function UnitVector(sqrt: SqrtFn): (u: Vec3)
      ensures IsSqrt(sqrt) && LengthSquared() != 0.0 ==> u.LengthSquared() == 1.0
    {
      var l := Length(sqrt);
      if l == 0.0 then this
      else
        var u := DivScalar(l);
        assert IsSqrt(sqrt) && LengthSquared() != 0.0 ==> u.LengthSquared() == 1.0 by {
          if IsSqrt(sqrt) && LengthSquared() != 0.0 {
            var L := LengthSquared();
            var q := l * l;
            assert q == L;
            ScaledLengthSquared(this, l);
            CancelFactor(u.LengthSquared(), q, L);
          }
        }
        u
    }

    /** `Index<usize>`: axes 0, 1, 2 are x, y, z; any other index panics. */
    function Index(i: nat): (c: Fallible<real>)
      ensures i == 0 ==> c == Returns(x)
      ensures i == 1 ==> c == Returns(y)
      ensures i == 2 ==> c == Returns(z)
      ensures c.Panics? <==> 2 < i
    {
      match i
      case 0 => Returns(x)
      case 1 => Returns(y)
      case 2 => Returns(z)
      case _ => Panics
    }

    /** Component `i` for an index known to be an axis. */
    function Axis(i: nat): real
      requires i < 3
    {
      Index(i).value
    }

    /** `IndexMut<usize>` followed by a store: only component `i` changes. */
    function WithAxis(i: nat, c: real): (v: Fallible<Vec3>)
      ensures v.Panics? <==> 2 < i
      ensures v.Returns? ==> v.value.Axis(i) == c
      ensures v.Returns? ==> forall k :: k < 3 && k != i ==> v.value.Axis(k) == Axis(k)
    {
      match i
      case 0 => Returns(this.(x := c))
      case 1 => Returns(this.(y := c))
      case 2 => Returns(this.(z := c))
      case _ => Panics
    }

    /** `all |component| < 1e-8`. */
    predicate NearZero() {
      Abs(x) < NearZeroEps && Abs(y) < NearZeroEps && Abs(z) < NearZeroEps
    }
  }

  function Zero(): Vec3 {
    Vec3(0.0, 0.0, 0.0)
  }

  function New(x: real, y: real, z: real): (v: Vec3)
    ensures v.Axis(0) == x && v.Axis(1) == y && v.Axis(2) == z
  {
    Vec3(x, y, z)
  }

  /** `v - 2 (v.n) n`: the mirror image of `v` in the plane with normal `n`. */
  function Reflect(v: Vec3, n: Vec3): (r: Vec3)
    ensures n.LengthSquared() == 1.0 ==> r.Dot(n) == -v.Dot(n)
    ensures r.LengthSquared() == v.LengthSquared() + 4.0 * v.Dot(n) * v.Dot(n) * (n.LengthSquared() - 1.0)
  {
    var k := v.Dot(n) * 2.0;
    assert n.Scale(k).Dot(n) == k * n.LengthSquared();
    assert n.Scale(k).Dot(v) == k * v.Dot(n);
    v.Sub(n.Scale(k))
  }

  /** Snell refraction of the unit direction `uv` through the surface with normal `n`. */
  function Refract(uv: Vec3, n: Vec3, etaiOverEtat: real, sqrt: SqrtFn): Vec3 {
    var cosTheta := if uv.Neg().Dot(n) < 1.0 then uv.Neg().Dot(n) else 1.0;
    var rOutPerp := uv.Add(n.Scale(cosTheta)).Scale(etaiOverEtat);
    var rOutParallel := n.Scale(-sqrt(Abs(1.0 - rOutPerp.LengthSquared())));
    rOutPerp.Add(rOutParallel)
  }

  /** `AddAssign`: `*self = *self + rhs`, component by component. */
  function AddAssign(v: Vec3, rhs: Vec3): (w: Vec3)
    ensures forall k :: k < 3 ==> w.Axis(k) == v.Axis(k) + rhs.Axis(k)
  {
    v.Add(rhs)
  }

  lemma CancelFactor(p: real, q: real, L: real)
    requires p * q == L && q == L && L != 0.0
    ensures p == 1.0
  {
    calc {
      p * L;
      p * q;
      L;
    }
    assert (p - 1.0) * L == 0.0;
  }

  /** Dividing by `l` scales the squared length by `1 / (l * l)`. */
  lemma ScaledLengthSquared(v: Vec3, l: real)
    requires l != 0.0
    ensures v.DivScalar(l).LengthSquared() * (l * l) == v.LengthSquared()
  {
    var u := v.DivScalar(l);
    assert u.x * l == v.x && u.y * l == v.y && u.z * l == v.z;
    calc {
      u.LengthSquared() * (l * l);
      (u.x * l) * (u.x * l) + (u.y * l) * (u.y * l) + (u.z * l) * (u.z * l);
      v.LengthSquared();
    }
  }

  /** The cross product is orthogonal to both operands. */
  lemma CrossOrthogonal(a: Vec3, b: Vec3)
    ensures a.Dot(a.Cross(b)) == 0.0 && b.Dot(a.Cross(b)) == 0.0
  {
  }

  /** Dividing one operand by `l` divides the dot product by `l`. */
  lemma DotDivScalar(v: Vec3, n: Vec3, l: real)
    requires l != 0.0
    ensures v.DivScalar(l).Dot(n) == v.Dot(n) / l
  {
    assert (v.x / l) * n.x == (v.x * n.x) / l;
    assert (v.y / l) * n.y == (v.y * n.y) / l;
    assert (v.z / l) * n.z == (v.z * n.z) / l;
  }

  lemma DotSymmetric(a: Vec3, b: Vec3)
    ensures a.Dot(b) == b.Dot(a)
    ensures a.Dot(a) == a.LengthSquared()
  {
  }

  lemma NegInvolution(v: Vec3)
    ensures v.Neg().Neg() == v
    ensures v.Sub(v) == Zero()
    ensures v.Add(v.Neg()) == Zero()
  {
  }

  lemma NearZeroIff(v: Vec3)
    ensures v.NearZero() <==> (forall k :: k < 3 ==> Abs(v.Axis(k)) < NearZeroEps)
    ensures Zero().NearZero()
  {
    if forall k :: k < 3 ==> Abs(v.Axis(k)) < NearZeroEps {
      assert Abs(v.Axis(0)) < NearZeroEps && Abs(v.Axis(1)) < NearZeroEps && Abs(v.Axis(2)) < NearZeroEps;
    }
  }

  lemma CrossAddLeft(x: Vec3, y: Vec3, v: Vec3)
    ensures x.Add(y).Cross(v) == x.Cross(v).Add(y.Cross(v))
  {
  }

  lemma CrossAddRight(u: Vec3, x: Vec3, y: Vec3)
    ensures u.Cross(x.Add(y)) == u.Cross(x).Add(u.Cross(y))
  {
  }

  lemma CrossScaleLeft(u: Vec3, v: Vec3, a: real)
    ensures u.Scale(a).Cross(v) == u.Cross(v).Scale(a)
  {
    MinorScale(u.y * a, u.z * a, u.y, u.z, v.z, v.y, a);
    MinorScale(u.z * a, u.x * a, u.z, u.x, v.x, v.z, a);
    MinorScale(u.x * a, u.y * a, u.x, u.y, v.y, v.x, a);
  }

  lemma CrossScaleRight(u: Vec3, v: Vec3, a: real)
    ensures u.Cross(v.Scale(a)) == u.Cross(v).Scale(a)
  {
    MinorScale(v.z * a, v.y * a, v.z, v.y, u.y, u.z, a);
    MinorScale(v.x * a, v.z * a, v.x, v.z, u.z, u.x, a);
    MinorScale(v.y * a, v.x * a, v.y, v.x, u.x, u.y, a);
  }

  /** `(p a) q - (r a) t == (p q - r t) a`, with the products in either order. */
  lemma MinorScale(pa: real, ra: real, p: real, r: real, q: real, t: real, a: real)
    requires pa == p * a && ra == r * a
    ensures pa * q - ra * t == (p * q - r * t) * a
    ensures q * pa - t * ra == (q * p - t * r) * a
  {
  }

  /** A vector is parallel to itself: its cross product with itself vanishes, scaled or not. */
  lemma CrossSelf(v: Vec3)
    ensures v.Cross(v) == Zero()
    ensures forall s :: Zero().Scale(s) == Zero()
  {
  }

  lemma AddZero(v: Vec3)
    ensures v.Add(Zero()) == v
  {
  }

  lemma ZeroAdd(v: Vec3)
    ensures Zero().Add(v) == v
  {
  }
}
