/**
 * An axis-aligned quad inside a BVH.  `pad_to_minimums` in `src/aabb.rs`
 * discards the padded intervals, so the box of a quad lying in a plane
 * `x_k = const` stays flat on axis `k`, and the slab test rejects every ray
 * that crosses that plane: a BVH node over such a quad never reports it, and
 * does not satisfy `NearestHits.BoxesAdmit`.
 */
module FlatQuads {
  import opened ExtReals
  import opened Intervals
  import opened Vectors
  import opened Rays
  import opened HitRecords
  import opened Quads
  import opened Hittables
  import opened NearestHits
  import Bvh
  import Boxes
  import Materials
  import FloorQuads

  /**
   * A BVH node built over a single quad that lies in a plane `x_k = const`
   * misses every ray crossing that plane: the node's box is the quad's box,
   * which is flat on axis `k`.
   */
  lemma BvhOverFlatQuadMisses(node: Hittable, quad: Quad, k: nat, ray: Ray, rayT: Interval, rec: HitRecord, sqrt: SqrtFn)
    requires quad == Quads.New(quad.q, quad.u, quad.v, quad.material, sqrt)
    requires k < 3 && quad.u.Axis(k) == 0.0 && quad.v.Axis(k) == 0.0 && ray.direction.Axis(k) != 0.0
    requires Bvh.BuiltOver(node, [QuadObject(quad)])
    ensures !node.bbox.Hits(ray, rayT) && !Hit(node, ray, rayT, rec, sqrt).hit
  {
    AxisAlignedQuadFlatBox(quad, sqrt, k);
    assert [QuadObject(quad)][..0] == [];
    assert Bvh.UnionOfBoxes([QuadObject(quad)]) == Boxes.FromBoxes(Boxes.Empty(), quad.bbox);
    Boxes.FromBoxesEmpty(quad.bbox);
    Boxes.FlatAxisMisses(node.bbox, ray, rayT, k);
  }

  /**
   * If a ray crossing the plane `x_k = const` hits a quad lying in it, a BVH
   * node built over that quad misses the ray, and so does not satisfy
   * `BoxesAdmit`.
   */
  lemma HiddenQuadHit(node: Hittable, quad: Quad, k: nat, ray: Ray, lo: ExtReal, m: ExtReal, sqrt: SqrtFn)
    requires quad == Quads.New(quad.q, quad.u, quad.v, quad.material, sqrt)
    requires k < 3 && quad.u.Axis(k) == 0.0 && quad.v.Axis(k) == 0.0 && ray.direction.Axis(k) != 0.0
    requires Bvh.BuiltOver(node, [QuadObject(quad)])
    requires Hit(QuadObject(quad), ray, Interval(lo, PosInf), NewRecord(), sqrt).hit
    requires Fin(Hit(QuadObject(quad), ray, Interval(lo, PosInf), NewRecord(), sqrt).rec.t).Lt(m)
    ensures !Hit(node, ray, Interval(lo, PosInf), NewRecord(), sqrt).hit && !BoxesAdmit(node, ray, lo, sqrt)
  {
    assert node.left == QuadObject(quad);
    BvhOverFlatQuadMisses(node, quad, k, ray, Interval(lo, PosInf), NewRecord(), sqrt);
    BvhOverFlatQuadMisses(node, quad, k, ray, Interval(lo, m), NewRecord(), sqrt);
  }

  /**
   * The unit floor quad, seen from above, is hit on its own, but a BVH node
   * built over it reports no hit, and so does not satisfy `BoxesAdmit`.
   */
  lemma BvhHidesFloorQuad(node: Hittable, material: Materials.Material, sqrt: SqrtFn)
    requires sqrt(1.0) == 1.0
    requires Bvh.BuiltOver(node, [QuadObject(FloorQuads.FloorQuad(material, sqrt))])
    ensures Hit(QuadObject(FloorQuads.FloorQuad(material, sqrt)), Ray(Vec3(0.5, 0.5, 1.0), Vec3(0.0, 0.0, -1.0), 0.0), Interval(Fin(0.001), PosInf), NewRecord(), sqrt).hit
    ensures !Hit(node, Ray(Vec3(0.5, 0.5, 1.0), Vec3(0.0, 0.0, -1.0), 0.0), Interval(Fin(0.001), PosInf), NewRecord(), sqrt).hit
    ensures !BoxesAdmit(node, Ray(Vec3(0.5, 0.5, 1.0), Vec3(0.0, 0.0, -1.0), 0.0), Fin(0.001), sqrt)
  {
    var quad := FloorQuads.FloorQuad(material, sqrt);
    var ray := Ray(Vec3(0.5, 0.5, 1.0), Vec3(0.0, 0.0, -1.0), 0.0);
    assert Hit(QuadObject(quad), ray, Interval(Fin(0.001), PosInf), NewRecord(), sqrt).hit by {
      FloorQuads.FloorQuadHit(material, sqrt);
    }
    assert quad == Quads.New(quad.q, quad.u, quad.v, quad.material, sqrt) && quad.u.Axis(2) == 0.0 && quad.v.Axis(2) == 0.0 by {
      FloorQuads.FloorQuadCorners(material, sqrt);
    }
    assert ray.direction.Axis(2) != 0.0 by {
      DownwardRay(ray);
    }
    HiddenQuadHit(node, quad, 2, ray, Fin(0.001), PosInf, sqrt);
  }

  /** The straight-down direction has a non-zero `z` component. */
  lemma DownwardRay(ray: Ray)
    requires ray.direction == Vec3(0.0, 0.0, -1.0)
    ensures ray.direction.Axis(2) != 0.0
  {
  }
}

/**
 * A concrete axis-aligned quad: the unit square on the floor `z = 0`,
 * built by `Quad::new` and hit from above.
 */
module FloorQuads {
  import opened ExtReals
  import opened Intervals
  import opened Vectors
  import opened Rays
  import opened HitRecords
  import opened Quads
  import opened Hittables
  import Materials

  /** The unit square in the plane `z = 0`, with corner at the origin, built by `Quad::new`. */
  function FloorQuad(material: Materials.Material, sqrt: SqrtFn): Quad {
    Quads.New(Vec3(0.0, 0.0, 0.0), Vec3(1.0, 0.0, 0.0), Vec3(0.0, 1.0, 0.0), material, sqrt)
  }

  /**
   * Seen from above along `-z`, the floor quad is hit at `t = 1` on
   * `[0.001, +inf]`, the interval `ray_color` asks about.
   */
  lemma FloorQuadHit(material: Materials.Material, sqrt: SqrtFn)
    requires sqrt(1.0) == 1.0
    ensures
      var o := Hit(QuadObject(FloorQuad(material, sqrt)), Ray(Vec3(0.5, 0.5, 1.0), Vec3(0.0, 0.0, -1.0), 0.0), Interval(Fin(0.001), PosInf), NewRecord(), sqrt);
      o.hit && o.rec.t == 1.0
  {
    var quad := FloorQuad(material, sqrt);
    var ray := Ray(Vec3(0.5, 0.5, 1.0), Vec3(0.0, 0.0, -1.0), 0.0);
    var rayT := Interval(Fin(0.001), PosInf);
    QuadObjectHit(quad, ray, rayT, NewRecord(), sqrt);
    FloorQuadCorners(material, sqrt);
    FloorQuadPlane(material, sqrt);
    FloorPlaneHit(quad);
  }

  /** The floor quad's corner and edges are the ones it was built from. */
  lemma FloorQuadCorners(material: Materials.Material, sqrt: SqrtFn)
    ensures FloorQuad(material, sqrt).q == Vec3(0.0, 0.0, 0.0)
    ensures FloorQuad(material, sqrt).u == Vec3(1.0, 0.0, 0.0) && FloorQuad(material, sqrt).v == Vec3(0.0, 1.0, 0.0)
  {
  }

  /** The floor quad's plane is `+z . p == 0`, and its `w` is `+z`. */
  lemma FloorQuadPlane(material: Materials.Material, sqrt: SqrtFn)
    requires sqrt(1.0) == 1.0
    ensures FloorQuad(material, sqrt).normal == Vec3(0.0, 0.0, 1.0)
    ensures FloorQuad(material, sqrt).d == 0.0
    ensures FloorQuad(material, sqrt).w == Vec3(0.0, 0.0, 1.0)
  {
    Quads.NewFields(Vec3(0.0, 0.0, 0.0), Vec3(1.0, 0.0, 0.0), Vec3(0.0, 1.0, 0.0), material, sqrt);
    UnitZ(sqrt);
  }

  /** Unit vector, squared length and `w` of `+z`, given a square root exact at one. */
  lemma UnitZ(sqrt: SqrtFn)
    requires sqrt(1.0) == 1.0
    ensures Vec3(0.0, 0.0, 1.0).UnitVector(sqrt) == Vec3(0.0, 0.0, 1.0)
    ensures Vec3(0.0, 0.0, 1.0).Dot(Vec3(0.0, 0.0, 1.0)) == 1.0
    ensures Vec3(0.0, 0.0, 1.0).DivScalar(1.0) == Vec3(0.0, 0.0, 1.0)
  {
    var n := Vec3(0.0, 0.0, 1.0);
    assert n.Length(sqrt) == 1.0;
    assert n.DivScalar(1.0) == n;
  }

  /** A quad as a scene object answers as the quad does. */
  lemma QuadObjectHit(quad: Quad, ray: Ray, rayT: Interval, rec: HitRecord, sqrt: SqrtFn)
    ensures Hit(QuadObject(quad), ray, rayT, rec, sqrt) == quad.Hit(ray, rayT, rec)
  {
  }

  /** A quad with the floor quad's corner, edges and plane is hit at `t = 1` from above. */
  lemma FloorPlaneHit(quad: Quad)
    requires quad.q == Vec3(0.0, 0.0, 0.0) && quad.u == Vec3(1.0, 0.0, 0.0) && quad.v == Vec3(0.0, 1.0, 0.0)
    requires quad.normal == Vec3(0.0, 0.0, 1.0) && quad.d == 0.0 && quad.w == Vec3(0.0, 0.0, 1.0)
    ensures
      var o := quad.Hit(Ray(Vec3(0.5, 0.5, 1.0), Vec3(0.0, 0.0, -1.0), 0.0), Interval(Fin(0.001), PosInf), NewRecord());
      o.hit && o.rec.t == 1.0
  {
    var ray := Ray(Vec3(0.5, 0.5, 1.0), Vec3(0.0, 0.0, -1.0), 0.0);
    var rayT := Interval(Fin(0.001), PosInf);
    // The range facts go first: once the products below are in scope they cost far more.
    assert rayT.Contains(1.0) && ParallelEps <= Abs(-1.0);
    FloorPlaneT(quad);
    FloorAt(ray);
    FloorCoordinates(quad);
    HitAtOne(quad, ray, rayT, NewRecord());
  }

  /** The downward ray reaches the floor's centre at `t = 1`. */
  lemma FloorAt(ray: Ray)
    requires ray == Ray(Vec3(0.5, 0.5, 1.0), Vec3(0.0, 0.0, -1.0), 0.0)
    ensures ray.At(1.0) == Vec3(0.5, 0.5, 0.0)
  {
  }

  /** A quad is hit at `t = 1` when its plane is met there, inside the range and inside the square. */
  lemma HitAtOne(quad: Quad, ray: Ray, rayT: Interval, rec: HitRecord)
    requires ParallelEps <= Abs(quad.normal.Dot(ray.direction)) && quad.PlaneT(ray) == 1.0 && rayT.Contains(1.0)
    requires 0.0 <= quad.Alpha(ray.At(1.0)) <= 1.0 && 0.0 <= quad.Beta(ray.At(1.0)) <= 1.0
    ensures quad.Hit(ray, rayT, rec).hit && quad.Hit(ray, rayT, rec).rec.t == 1.0
  {
  }

  /** The plane parameter of the downward ray from height one above the floor. */
  lemma FloorPlaneT(quad: Quad)
    requires quad.normal == Vec3(0.0, 0.0, 1.0) && quad.d == 0.0
    ensures quad.normal.Dot(Vec3(0.0, 0.0, -1.0)) == -1.0
    ensures quad.PlaneT(Ray(Vec3(0.5, 0.5, 1.0), Vec3(0.0, 0.0, -1.0), 0.0)) == 1.0
  {
    var ray := Ray(Vec3(0.5, 0.5, 1.0), Vec3(0.0, 0.0, -1.0), 0.0);
    FloorDots(quad.normal, ray);
    UnitPlaneT(quad, ray);
  }

  /** Dot products of `+z` with the origin and direction of the downward ray. */
  lemma FloorDots(normal: Vec3, ray: Ray)
    requires normal == Vec3(0.0, 0.0, 1.0) && ray == Ray(Vec3(0.5, 0.5, 1.0), Vec3(0.0, 0.0, -1.0), 0.0)
    ensures normal.Dot(ray.origin) == 1.0 && normal.Dot(ray.direction) == -1.0
  {
  }

  /** A ray one unit above a plane through the origin, heading straight at it, meets it at `t = 1`. */
  lemma UnitPlaneT(quad: Quad, ray: Ray)
    requires quad.d == 0.0 && quad.normal.Dot(ray.origin) == 1.0 && quad.normal.Dot(ray.direction) == -1.0
    ensures quad.PlaneT(ray) == 1.0
  {
    assert quad.d - quad.normal.Dot(ray.origin) == -1.0;
  }

  /** The centre of the floor quad has coordinates `(0.5, 0.5)` along its edges. */
  lemma FloorCoordinates(quad: Quad)
    requires quad.q == Vec3(0.0, 0.0, 0.0) && quad.u == Vec3(1.0, 0.0, 0.0) && quad.v == Vec3(0.0, 1.0, 0.0)
    requires quad.w == Vec3(0.0, 0.0, 1.0)
    ensures quad.Alpha(Vec3(0.5, 0.5, 0.0)) == 0.5 && quad.Beta(Vec3(0.5, 0.5, 0.0)) == 0.5
  {
  }
}
