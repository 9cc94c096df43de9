/**
 * The planar quadrilateral of `src/quad.rs`: corner `q`, edges `u` and `v`, the
 * plane `normal . p == d`, and `w`, which turns a planar offset into the
 * coordinates `(alpha, beta)` along the edges.
 */
module Quads {
  import opened ExtReals
  import opened Intervals
  import opened Vectors
  import opened Rays
  import opened Boxes
  import opened Materials
  import opened HitRecords

  /** Below this |normal . direction| the ray counts as parallel to the plane. */
  const ParallelEps: real := 0.00000001

  datatype Quad = Quad(
    q: Vec3, u: Vec3, v: Vec3, w: Vec3, material: Material, bbox: Aabb, normal: Vec3, d: real)
  {
    /** `set_bounding_box`: the union of the boxes spanned by the two diagonals. */
    function SetBoundingBox(): (r: Quad)
      ensures r == this.(bbox := r.bbox)
      ensures r.bbox.ContainsPoint(q) && r.bbox.ContainsPoint(q.Add(u).Add(v))
      ensures r.bbox.ContainsPoint(q.Add(u)) && r.bbox.ContainsPoint(q.Add(v))
    {
      var diagonal1 := FromPoints(q, q.Add(u).Add(v));
      var diagonal2 := FromPoints(q.Add(u), q.Add(v));
      var r := this.(bbox := FromBoxes(diagonal1, diagonal2));
      assert forall k :: k < 3 ==>
        r.bbox.AxisInterval(k).Contains(q.Axis(k)) &&
        r.bbox.AxisInterval(k).Contains(q.Add(u).Add(v).Axis(k)) &&
        r.bbox.AxisInterval(k).Contains(q.Add(u).Axis(k)) &&
        r.bbox.AxisInterval(k).Contains(q.Add(v).Axis(k))
      by {
        forall k | k < 3
          ensures r.bbox.AxisInterval(k).Contains(q.Axis(k))
          ensures r.bbox.AxisInterval(k).Contains(q.Add(u).Add(v).Axis(k))
          ensures r.bbox.AxisInterval(k).Contains(q.Add(u).Axis(k))
          ensures r.bbox.AxisInterval(k).Contains(q.Add(v).Axis(k))
        {
          var a := diagonal1.AxisInterval(k);
          var b := diagonal2.AxisInterval(k);
          EnclosingContains(a, b, q.Axis(k));
          EnclosingContains(a, b, q.Add(u).Add(v).Axis(k));
          EnclosingContains(a, b, q.Add(u).Axis(k));
          EnclosingContains(a, b, q.Add(v).Axis(k));
        }
      }
      r
    }

    /**
     * The ray meets the plane at `t = (d - normal . origin) / (normal . direction)`;
     * it misses when nearly parallel, when `t` is outside the closed `rayT`, or
     * when the planar coordinates leave the unit square.
     */
    function Hit(ray: Ray, rayT: Interval, rec: HitRecord): (o: Outcome)
      ensures !o.hit ==> o.rec == rec
      ensures Abs(normal.Dot(ray.direction)) < ParallelEps ==> !o.hit
      ensures o.hit ==> rayT.Contains(o.rec.t) && o.rec.p == ray.At(o.rec.t)
      ensures o.hit ==> normal.Dot(o.rec.p) == d
      ensures o.hit ==> o.rec.material == material && o.rec.normal.Dot(ray.direction) <= 0.0
      ensures o.hit ==> 0.0 <= o.rec.u <= 1.0 && 0.0 <= o.rec.v <= 1.0
      ensures o.hit ==> o.rec.u == Alpha(ray.At(o.rec.t)) && o.rec.v == Beta(ray.At(o.rec.t))
      ensures o.hit <==>
        ParallelEps <= Abs(normal.Dot(ray.direction)) && rayT.Contains(PlaneT(ray)) &&
        0.0 <= Alpha(ray.At(PlaneT(ray))) <= 1.0 && 0.0 <= Beta(ray.At(PlaneT(ray))) <= 1.0
      ensures o.hit ==> ParallelEps <= Abs(normal.Dot(ray.direction)) && o.rec.t == PlaneT(ray)
    {
      var denom := normal.Dot(ray.direction);
      if Abs(denom) < ParallelEps then
        Outcome(false, rec)
      else
        var t := PlaneT(ray);
        if !rayT.Contains(t) then
          Outcome(false, rec)
        else
          var intersection := ray.At(t);
          var interior := IsInterior(Alpha(intersection), Beta(intersection), rec);
          if !interior.hit then
            Outcome(false, rec)
          else
            assert normal.Dot(intersection) == d by { OnPlane(normal, d, ray, t); }
            var r := interior.rec.(t := t, p := intersection, material := material);
            Outcome(true, r.SetFaceNormal(ray, normal))
    }

    /** `(d - normal . origin) / (normal . direction)`: where the ray meets the quad's plane. */
    function PlaneT(ray: Ray): real
      requires normal.Dot(ray.direction) != 0.0
    {
      (d - normal.Dot(ray.origin)) / normal.Dot(ray.direction)
    }

    /** The coordinate of the hit point along `u`. */
    function Alpha(intersection: Vec3): real {
      w.Dot(intersection.Sub(q).Cross(v))
    }

    /** The coordinate of the hit point along `v`. */
    function Beta(intersection: Vec3): real {
      w.Dot(u.Cross(intersection.Sub(q)))
    }
  }

  /**
   * `Quad::new`.  A degenerate quad (parallel edges) has `n . n == 0`, where the
   * source divides by zero; the model then sets `w` to zero.
   */
  function New(q: Vec3, u: Vec3, v: Vec3, material: Material, sqrt: SqrtFn): (quad: Quad)
    ensures quad.q == q && quad.u == u && quad.v == v && quad.material == material
    ensures quad.normal.Dot(u) == 0.0 && quad.normal.Dot(v) == 0.0
    ensures IsSqrt(sqrt) && u.Cross(v).LengthSquared() != 0.0 ==> quad.normal.LengthSquared() == 1.0
    ensures quad.d == quad.normal.Dot(q)
    ensures quad.bbox.ContainsPoint(q) && quad.bbox.ContainsPoint(q.Add(u).Add(v))
    ensures quad.bbox.ContainsPoint(q.Add(u)) && quad.bbox.ContainsPoint(q.Add(v))
  {
    var n := u.Cross(v);
    var normal := n.UnitVector(sqrt);
    var d := normal.Dot(q);
    var nn := n.Dot(n);
    var w := if nn == 0.0 then Zero() else n.DivScalar(nn);
    assert normal.Dot(u) == 0.0 && normal.Dot(v) == 0.0 by {
      CrossOrthogonal(u, v);
      DotSymmetric(u, n);
      DotSymmetric(v, n);
      if normal != n {
        DotDivScalar(n, u, n.Length(sqrt));
        DotDivScalar(n, v, n.Length(sqrt));
      }
    }
    Quad(q, u, v, w, material, Boxes.Empty(), normal, d).SetBoundingBox()
  }

  /**
   * A quad with parallel edges, `u x v = 0`, is never hit: its unit normal is
   * zero, so every ray counts as parallel to its plane.
   */
  lemma DegenerateQuadMisses(quad: Quad, sqrt: SqrtFn, ray: Ray, rayT: Interval, rec: HitRecord)
    requires IsSqrt(sqrt)
    requires quad == New(quad.q, quad.u, quad.v, quad.material, sqrt)
    requires quad.u.Cross(quad.v) == Zero()
    ensures !quad.Hit(ray, rayT, rec).hit
  {
    ZeroUnitVector(sqrt);
    assert quad.normal == Zero();
    assert quad.normal.Dot(ray.direction) == 0.0;
  }

  /** With an exact square root the zero vector has length zero, so normalising leaves it zero. */
  lemma ZeroUnitVector(sqrt: SqrtFn)
    requires IsSqrt(sqrt)
    ensures Zero().UnitVector(sqrt) == Zero()
  {
    var l := sqrt(0.0);
    assert 0.0 <= l && l * l == 0.0;
    if 0.0 < l {
      assert 0.0 < l * l;
    }
    assert Zero().Length(sqrt) == l;
  }

  /** `is_interior`: inside the closed unit square, record the coordinates; otherwise touch nothing. */
  function IsInterior(alpha: real, beta: real, rec: HitRecord): (o: Outcome)
    ensures o.hit <==> 0.0 <= alpha <= 1.0 && 0.0 <= beta <= 1.0
    ensures !o.hit ==> o.rec == rec
    ensures o.hit ==> o.rec == rec.(u := alpha, v := beta)
  {
    var unitInterval := Intervals.New(Fin(0.0), Fin(1.0));
    if !unitInterval.Contains(alpha) || !unitInterval.Contains(beta) then
      Outcome(false, rec)
    else
      Outcome(true, rec.(u := alpha, v := beta))
  }

  /** The parameter solving `normal . at(t) == d` does put the point on the plane. */
  lemma OnPlane(normal: Vec3, d: real, ray: Ray, t: real)
    requires normal.Dot(ray.direction) != 0.0
    requires t == (d - normal.Dot(ray.origin)) / normal.Dot(ray.direction)
    ensures normal.Dot(ray.At(t)) == d
  {
    var o := ray.origin;
    var dir := ray.direction;
    assert t * normal.Dot(dir) == d - normal.Dot(o);
    calc {
      normal.Dot(ray.At(t));
      normal.x * (o.x + dir.x * t) + normal.y * (o.y + dir.y * t) + normal.z * (o.z + dir.z * t);
      normal.Dot(o) + t * normal.Dot(dir);
    }
  }

  /**
   * For a non-degenerate quad, the point `q + a u + b v` of its plane gets back
   * the coordinates `(a, b)`: `alpha` and `beta` are the edge coordinates.
   */
  lemma PlanarCoordinates(quad: Quad, sqrt: SqrtFn, a: real, b: real)
    requires quad == New(quad.q, quad.u, quad.v, quad.material, sqrt)
    requires quad.u.Cross(quad.v).LengthSquared() != 0.0
    ensures quad.Alpha(quad.q.Add(quad.u.Scale(a)).Add(quad.v.Scale(b))) == a
    ensures quad.Beta(quad.q.Add(quad.u.Scale(a)).Add(quad.v.Scale(b))) == b
  {
    var n := quad.u.Cross(quad.v);
    DotSymmetric(n, n);
    assert quad.w == n.DivScalar(n.Dot(n));
    var hitPoint := quad.q.Add(quad.u.Scale(a)).Add(quad.v.Scale(b));
    assert hitPoint.Sub(quad.q) == quad.u.Scale(a).Add(quad.v.Scale(b));
    EdgeCoordinates(quad.u, quad.v, quad.w, a, b, hitPoint.Sub(quad.q));
  }

  /** With `w = n / (n . n)` and `n = u x v`, the planar offset `a u + b v` has coordinates `(a, b)`. */
  lemma EdgeCoordinates(u: Vec3, v: Vec3, w: Vec3, a: real, b: real, planar: Vec3)
    requires u.Cross(v).Dot(u.Cross(v)) != 0.0
    requires w == u.Cross(v).DivScalar(u.Cross(v).Dot(u.Cross(v)))
    requires planar == u.Scale(a).Add(v.Scale(b))
    ensures w.Dot(planar.Cross(v)) == a
    ensures w.Dot(u.Cross(planar)) == b
  {
    var n := u.Cross(v);
    CrossOfCombination(u, v, a, b, planar, n);
    ScaledCoordinate(n, a);
    ScaledCoordinate(n, b);
  }

  /** `(n / (n . n)) . (s n) == s` for a non-zero `n`. */
  lemma ScaledCoordinate(n: Vec3, s: real)
    requires n.Dot(n) != 0.0
    ensures n.DivScalar(n.Dot(n)).Dot(n.Scale(s)) == s
  {
    DotDivScalar(n, n.Scale(s), n.Dot(n));
    DotScale(n, s);
    DivisionCancels(n.Dot(n), s, n.Dot(n.Scale(s)));
  }

  lemma DivisionCancels(x: real, a: real, y: real)
    requires x != 0.0 && y == x * a
    ensures y / x == a
  {
  }

  /** With `p = a u + b v` and `n = u x v`: `p x v == a n` and `u x p == b n`. */
  lemma CrossOfCombination(u: Vec3, v: Vec3, a: real, b: real, p: Vec3, n: Vec3)
    requires p == u.Scale(a).Add(v.Scale(b)) && n == u.Cross(v)
    ensures p.Cross(v) == n.Scale(a)
    ensures u.Cross(p) == n.Scale(b)
  {
    CrossAddLeft(u.Scale(a), v.Scale(b), v);
    CrossScaleLeft(u, v, a);
    CrossScaleLeft(v, v, b);
    CrossSelf(v);
    AddZero(n.Scale(a));
    CrossAddRight(u, u.Scale(a), v.Scale(b));
    CrossScaleRight(u, u, a);
    CrossScaleRight(u, v, b);
    CrossSelf(u);
    ZeroAdd(n.Scale(b));
  }

  lemma DotScale(n: Vec3, a: real)
    ensures n.Dot(n.Scale(a)) == n.Dot(n) * a
  {
  }

  /**
   * A quad whose edges have no component along axis `k` lies in the plane
   * `x_k = q_k`, and its box is flat on that axis: padding leaves it so.
   */
  lemma AxisAlignedQuadFlatBox(quad: Quad, sqrt: SqrtFn, k: nat)
    requires quad == New(quad.q, quad.u, quad.v, quad.material, sqrt)
    requires k < 3 && quad.u.Axis(k) == 0.0 && quad.v.Axis(k) == 0.0
    ensures quad.bbox.AxisInterval(k).min == Fin(quad.q.Axis(k)) == quad.bbox.AxisInterval(k).max
  {
    var q, u, v := quad.q, quad.u, quad.v;
    var diagonal1 := FromPoints(q, q.Add(u).Add(v));
    var diagonal2 := FromPoints(q.Add(u), q.Add(v));
    assert quad.bbox == FromBoxes(diagonal1, diagonal2);
    assert q.Add(u).Add(v).Axis(k) == q.Add(u).Axis(k) == q.Add(v).Axis(k) == q.Axis(k);
  }

  /** The plane and coordinate fields `Quad::new` computes from the edges. */
  lemma NewFields(q: Vec3, u: Vec3, v: Vec3, material: Material, sqrt: SqrtFn)
    ensures New(q, u, v, material, sqrt).normal == u.Cross(v).UnitVector(sqrt)
    ensures New(q, u, v, material, sqrt).d == u.Cross(v).UnitVector(sqrt).Dot(q)
    ensures u.Cross(v).Dot(u.Cross(v)) != 0.0 ==>
      New(q, u, v, material, sqrt).w == u.Cross(v).DivScalar(u.Cross(v).Dot(u.Cross(v)))
  {
  }
}
