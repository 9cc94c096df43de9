/**
 * The closest-hit promise of `src/hittable_list.rs` and `src/bvh.rs`: a list
 * answers with the nearest hit among its objects, and a BVH node with the
 * nearer of its children's hits.  Both rest on one property of every object:
 * lowering the upper end of `rayT` to some `m` keeps a hit found below `m`, and
 * finds nothing the wider query would not have found at the same `t`.
 */
module NearestHits {
  import opened ExtReals
  import opened Intervals
  import opened Vectors
  import opened Rays
  import opened HitRecords
  import opened Spheres
  import opened Quads
  import opened Hittables

  /**
   * Every BVH node inside `h` lets the ray through its box on `[lo, m]` whenever
   * one of its children is hit on `[lo, +inf]` before `m`.  Spheres, quads and
   * lists of them satisfy it outright; for a node it is a condition on its box,
   * which the slab test need not meet (a flat box, Boxes.FlatAxisMisses, fails it).
   */
  ghost predicate BoxesAdmit(h: Hittable, ray: Ray, lo: ExtReal, sqrt: SqrtFn) {
    match h
    case SphereObject(_) => true
    case QuadObject(_) => true
    case ListObject(objects, _) => forall o :: o in objects ==> BoxesAdmit(o, ray, lo, sqrt)
    case BvhObject(left, right, bbox) =>
      BoxesAdmit(left, ray, lo, sqrt) && BoxesAdmit(right, ray, lo, sqrt) &&
      BoxPasses(bbox, ray, lo, Hit(left, ray, Interval(lo, PosInf), NewRecord(), sqrt)) &&
      BoxPasses(bbox, ray, lo, Hit(right, ray, Interval(lo, PosInf), NewRecord(), sqrt))
  }

  /** A hit `o` at `t` implies the box passes the ray on `[lo, m]` for every `m` beyond `t`. */
  ghost predicate BoxPasses(bbox: Boxes.Aabb, ray: Ray, lo: ExtReal, o: Outcome) {
    o.hit ==> forall m :: Fin(o.rec.t).Lt(m) ==> bbox.Hits(ray, Interval(lo, m))
  }

  /**
   * `n` answers the query narrowed to end at `m`, `o` the wider one: a hit of
   * `o` below `m` is also `n`'s, and any hit of `n` is `o`'s, at the same `t`.
   */
  predicate Narrows(o: Outcome, n: Outcome, m: ExtReal) {
    (o.hit && Fin(o.rec.t).Lt(m) ==> n.hit && n.rec.t == o.rec.t) &&
    (n.hit ==> o.hit && o.rec.t == n.rec.t)
  }

  /** With an exact square root the nearer root is never past the farther one. */
  lemma NearRootFirst(s: Sphere, ray: Ray, sqrt: SqrtFn)
    requires IsSqrt(sqrt)
    requires 0.0 <= s.Discriminant(ray) && ray.direction.LengthSquared() != 0.0
    ensures s.NearRoot(ray, sqrt) <= s.FarRoot(ray, sqrt)
  {
    var a := ray.direction.LengthSquared();
    var h := s.centre.Sub(ray.origin).Dot(ray.direction);
    var sd := sqrt(s.Discriminant(ray));
    QuotientMonotone(h - sd, h + sd, a);
  }

  lemma QuotientMonotone(x: real, y: real, a: real)
    requires x <= y && 0.0 < a
    ensures x / a <= y / a
  {
    assert y / a - x / a == (y - x) / a;
  }

  /** A sphere keeps its hit under a narrower `rayT`: the near root stays first. */
  lemma SphereNarrow(s: Sphere, ray: Ray, rayT: Interval, m: ExtReal, rec1: HitRecord, rec2: HitRecord, sqrt: SqrtFn)
    requires IsSqrt(sqrt) && m.Le(rayT.max)
    ensures Narrows(s.Hit(ray, rayT, rec1, sqrt), s.Hit(ray, UpTo(rayT, m), rec2, sqrt), m)
  {
    var narrow := UpTo(rayT, m);
    if 0.0 <= s.Discriminant(ray) && ray.direction.LengthSquared() != 0.0 {
      NearRootFirst(s, ray, sqrt);
      var near := s.NearRoot(ray, sqrt);
      var far := s.FarRoot(ray, sqrt);
      assert narrow.Surrounds(near) ==> rayT.Surrounds(near);
      assert narrow.Surrounds(far) ==> rayT.Surrounds(far);
    }
  }

  /** A quad has one candidate `t`, so a narrower `rayT` keeps or drops exactly that hit. */
  lemma QuadNarrow(q: Quad, ray: Ray, rayT: Interval, m: ExtReal, rec1: HitRecord, rec2: HitRecord)
    requires m.Le(rayT.max)
    ensures Narrows(q.Hit(ray, rayT, rec1), q.Hit(ray, UpTo(rayT, m), rec2), m)
  {
    if ParallelEps <= Abs(q.normal.Dot(ray.direction)) {
      var t := q.PlaneT(ray);
      assert UpTo(rayT, m).Contains(t) ==> rayT.Contains(t);
      assert rayT.Contains(t) && Fin(t).Lt(m) ==> UpTo(rayT, m).Contains(t);
    }
  }

  /** No object of `objects[from..]` is hit on `rayT` before the answer `o`. */
  predicate NoNearer(objects: seq<Hittable>, from: nat, ray: Ray, rayT: Interval, sqrt: SqrtFn, o: Outcome) {
    forall j :: from <= j < |objects| && Hit(objects[j], ray, rayT, NewRecord(), sqrt).hit ==>
      o.hit && o.rec.t <= Hit(objects[j], ray, rayT, NewRecord(), sqrt).rec.t
  }

  /** Some object of `objects[from..]` is hit on `rayT` at exactly `t`. */
  predicate AttainedBy(objects: seq<Hittable>, from: nat, ray: Ray, rayT: Interval, sqrt: SqrtFn, t: real) {
    exists j :: from <= j < |objects| && Hit(objects[j], ray, rayT, NewRecord(), sqrt).hit &&
      Hit(objects[j], ray, rayT, NewRecord(), sqrt).rec.t == t
  }

  /**
   * Narrowing `rayT` to end at `m` keeps every hit found below `m` and finds no
   * new one, for spheres, quads, lists and BVH nodes nested to any depth, as
   * long as every node's box passes what its children hit.
   */
  lemma {:induction false} Narrow(h: Hittable, ray: Ray, rayT: Interval, m: ExtReal, rec1: HitRecord, rec2: HitRecord, sqrt: SqrtFn)
    requires IsSqrt(sqrt) && BoxesAdmit(h, ray, rayT.min, sqrt) && m.Le(rayT.max)
    ensures Narrows(Hit(h, ray, rayT, rec1, sqrt), Hit(h, ray, UpTo(rayT, m), rec2, sqrt), m)
    decreases h, 2
  {
    if h.SphereObject? {
      SphereNarrow(h.sphere, ray, rayT, m, rec1, rec2, sqrt);
    } else if h.QuadObject? {
      QuadNarrow(h.quad, ray, rayT, m, rec1, rec2);
    } else if h.BvhObject? {
      BvhNarrow(h, ray, rayT, m, rec1, rec2, sqrt);
    } else {
      var narrow := UpTo(rayT, m);
      assert UpTo(rayT, rayT.max) == rayT && UpTo(narrow, m) == narrow;
      ScanNearest(h, 0, ray, rayT, rayT.max, false, NewRecord(), rec1, sqrt);
      ScanNearest(h, 0, ray, narrow, m, false, NewRecord(), rec2, sqrt);
      ObjectsNarrow(h, ray, rayT, m, sqrt);
      NearestNarrows(h.objects, ray, rayT, m, sqrt, Hit(h, ray, rayT, rec1, sqrt), Hit(h, ray, narrow, rec2, sqrt));
    }
  }

  /**
   * A BVH node narrows: its box passes the narrowed query whenever the wide
   * answer lies below `m`, passes the wide query whenever the narrowed one
   * does, and the children's answers narrow.
   */
  lemma {:induction false} BvhNarrow(h: Hittable, ray: Ray, rayT: Interval, m: ExtReal, rec1: HitRecord, rec2: HitRecord, sqrt: SqrtFn)
    requires IsSqrt(sqrt) && h.BvhObject? && BoxesAdmit(h, ray, rayT.min, sqrt) && m.Le(rayT.max)
    ensures Narrows(Hit(h, ray, rayT, rec1, sqrt), Hit(h, ray, UpTo(rayT, m), rec2, sqrt), m)
    decreases h, 1
  {
    var narrow := UpTo(rayT, m);
    var o := Hit(h, ray, rayT, rec1, sqrt);
    if h.bbox.Hits(ray, narrow) {
      assert Interval(rayT.min, rayT.max) == rayT;
      Boxes.WiderRangeHits(h.bbox, ray, narrow, rayT.max);
    }
    if o.hit && Fin(o.rec.t).Lt(m) {
      BoxAdmitsNarrow(h, ray, rayT, m, rec1, sqrt);
    }
    if h.bbox.Hits(ray, rayT) && h.bbox.Hits(ray, narrow) {
      ChildrenNarrow(h, ray, rayT, m, rec1, rec2, sqrt);
    }
  }

  /** A node's wide answer below `m` came from a child hit below `m`, so its box passes `[rayT.min, m]`. */
  lemma {:induction false} BoxAdmitsNarrow(h: Hittable, ray: Ray, rayT: Interval, m: ExtReal, rec: HitRecord, sqrt: SqrtFn)
    requires IsSqrt(sqrt) && h.BvhObject? && BoxesAdmit(h, ray, rayT.min, sqrt)
    requires Hit(h, ray, rayT, rec, sqrt).hit && Fin(Hit(h, ray, rayT, rec, sqrt).rec.t).Lt(m)
    ensures h.bbox.Hits(ray, UpTo(rayT, m))
    decreases h, 0
  {
    var whole := Interval(rayT.min, PosInf);
    var l := Hit(h.left, ray, rayT, rec, sqrt);
    var upper := if l.hit then Fin(l.rec.t) else rayT.max;
    var r := Hit(h.right, ray, UpTo(rayT, upper), l.rec, sqrt);
    if r.hit {
      assert UpTo(whole, upper) == UpTo(rayT, upper);
      HitIgnoresRecord(h.right, ray, UpTo(rayT, upper), l.rec, NewRecord(), sqrt);
      Narrow(h.right, ray, whole, upper, NewRecord(), NewRecord(), sqrt);
    } else {
      assert UpTo(whole, rayT.max) == rayT;
      HitIgnoresRecord(h.left, ray, rayT, rec, NewRecord(), sqrt);
      Narrow(h.left, ray, whole, rayT.max, NewRecord(), NewRecord(), sqrt);
    }
  }

  /**
   * When the box passes both queries, the node's answers narrow: the left
   * child's answers narrow, and the right child is then asked either the same
   * query twice or a query and its narrowing.
   */
  lemma {:induction false} ChildrenNarrow(h: Hittable, ray: Ray, rayT: Interval, m: ExtReal, rec1: HitRecord, rec2: HitRecord, sqrt: SqrtFn)
    requires IsSqrt(sqrt) && h.BvhObject? && BoxesAdmit(h, ray, rayT.min, sqrt) && m.Le(rayT.max)
    requires h.bbox.Hits(ray, rayT) && h.bbox.Hits(ray, UpTo(rayT, m))
    ensures Narrows(Hit(h, ray, rayT, rec1, sqrt), Hit(h, ray, UpTo(rayT, m), rec2, sqrt), m)
    decreases h, 0
  {
    var narrow := UpTo(rayT, m);
    var l := Hit(h.left, ray, rayT, rec1, sqrt);
    var l' := Hit(h.left, ray, narrow, rec2, sqrt);
    Narrow(h.left, ray, rayT, m, rec1, rec2, sqrt);
    if l'.hit {
      var cut := UpTo(rayT, Fin(l.rec.t));
      assert UpTo(narrow, Fin(l'.rec.t)) == cut;
      HitIgnoresRecord(h.right, ray, cut, l.rec, l'.rec, sqrt);
    } else {
      var upper := if l.hit then Fin(l.rec.t) else rayT.max;
      var wide := UpTo(rayT, upper);
      LtIsStrictOrder(m, upper, upper);
      assert UpTo(wide, m) == narrow && UpTo(narrow, narrow.max) == narrow;
      Narrow(h.right, ray, wide, m, l.rec, l'.rec, sqrt);
      if l.hit {
        LtIsStrictOrder(Fin(l.rec.t), m, Fin(l.rec.t));
      }
    }
  }

  /**
   * Two nearest answers over the same objects, one on `rayT` and one on it
   * narrowed to end at `m`, narrow as their objects do.
   */
  lemma NearestNarrows(objects: seq<Hittable>, ray: Ray, rayT: Interval, m: ExtReal, sqrt: SqrtFn, o: Outcome, n: Outcome)
    requires forall j :: 0 <= j < |objects| ==>
      Narrows(Hit(objects[j], ray, rayT, NewRecord(), sqrt), Hit(objects[j], ray, UpTo(rayT, m), NewRecord(), sqrt), m)
    requires NoNearer(objects, 0, ray, rayT, sqrt, o) && (o.hit ==> AttainedBy(objects, 0, ray, rayT, sqrt, o.rec.t))
    requires NoNearer(objects, 0, ray, UpTo(rayT, m), sqrt, n) && (n.hit ==> AttainedBy(objects, 0, ray, UpTo(rayT, m), sqrt, n.rec.t))
    requires n.hit ==> Fin(n.rec.t).Le(m)
    ensures Narrows(o, n, m)
  {
    var narrow := UpTo(rayT, m);
    if o.hit && Fin(o.rec.t).Lt(m) {
      var k :| 0 <= k < |objects| && Hit(objects[k], ray, rayT, NewRecord(), sqrt).hit &&
        Hit(objects[k], ray, rayT, NewRecord(), sqrt).rec.t == o.rec.t;
      var k' :| 0 <= k' < |objects| && Hit(objects[k'], ray, narrow, NewRecord(), sqrt).hit &&
        Hit(objects[k'], ray, narrow, NewRecord(), sqrt).rec.t == n.rec.t;
    }
    if n.hit {
      var k' :| 0 <= k' < |objects| && Hit(objects[k'], ray, narrow, NewRecord(), sqrt).hit &&
        Hit(objects[k'], ray, narrow, NewRecord(), sqrt).rec.t == n.rec.t;
      var k :| 0 <= k < |objects| && Hit(objects[k], ray, rayT, NewRecord(), sqrt).hit &&
        Hit(objects[k], ray, rayT, NewRecord(), sqrt).rec.t == o.rec.t;
      LtIsStrictOrder(Fin(o.rec.t), Fin(n.rec.t), m);
    }
  }

  /** Every object of a list narrows, each asked with a fresh record. */
  lemma {:induction false} ObjectsNarrow(list: Hittable, ray: Ray, rayT: Interval, m: ExtReal, sqrt: SqrtFn)
    requires IsSqrt(sqrt) && list.ListObject? && BoxesAdmit(list, ray, rayT.min, sqrt) && m.Le(rayT.max)
    ensures forall j :: 0 <= j < |list.objects| ==>
      Narrows(Hit(list.objects[j], ray, rayT, NewRecord(), sqrt), Hit(list.objects[j], ray, UpTo(rayT, m), NewRecord(), sqrt), m)
    decreases list, 0, 0
  {
    forall j | 0 <= j < |list.objects|
      ensures Narrows(Hit(list.objects[j], ray, rayT, NewRecord(), sqrt), Hit(list.objects[j], ray, UpTo(rayT, m), NewRecord(), sqrt), m)
    {
      assert list.objects[j] in list.objects;
      Narrow(list.objects[j], ray, rayT, m, NewRecord(), NewRecord(), sqrt);
    }
  }

  /**
   * The list's loop from object `i` on, measured against the interval
   * `[rayT.min, closest]` it starts with: no later object is hit there before
   * its answer, and its answer is the record it carries in or one of those hits.
   */
  lemma {:induction false} ScanNearest(list: Hittable, i: nat, ray: Ray, rayT: Interval, closest: ExtReal, hitAnything: bool,
                                       temp: HitRecord, rec: HitRecord, sqrt: SqrtFn)
    requires IsSqrt(sqrt) && BoxesAdmit(list, ray, rayT.min, sqrt)
    requires list.ListObject? && i <= |list.objects|
    requires closest.Le(rayT.max)
    requires hitAnything ==> closest == Fin(rec.t) && rayT.Contains(rec.t) && rec.p == ray.At(rec.t)
    ensures
      var o := Scan(list, i, ray, rayT, closest, hitAnything, temp, rec, sqrt);
      NoNearer(list.objects, i, ray, UpTo(rayT, closest), sqrt, o) &&
      (o.hit ==> (hitAnything && o.rec.t == rec.t) || AttainedBy(list.objects, i, ray, UpTo(rayT, closest), sqrt, o.rec.t))
    decreases list, 0, |list.objects| - i
  {
    if i < |list.objects| {
      var objects := list.objects;
      var range := UpTo(rayT, closest);
      var o := Scan(list, i, ray, rayT, closest, hitAnything, temp, rec, sqrt);
      var item := objects[i];
      var oi := Hit(item, ray, range, temp, sqrt);
      HitIgnoresRecord(item, ray, range, temp, NewRecord(), sqrt);
      if oi.hit {
        var t := oi.rec.t;
        assert UpTo(range, Fin(t)) == UpTo(rayT, Fin(t));
        ScanNearest(list, i + 1, ray, rayT, Fin(t), true, oi.rec, oi.rec, sqrt);
        ObjectsNarrow(list, ray, range, Fin(t), sqrt);
        HitStep(objects, i, ray, range, t, sqrt, o);
      } else {
        ScanNearest(list, i + 1, ray, rayT, closest, hitAnything, oi.rec, rec, sqrt);
      }
    }
  }

  /**
   * One step of the list's loop that hits at `t`: if the rest of the loop is
   * nearest on the range cut at `t`, the whole loop is nearest on `rayT`.
   */
  lemma HitStep(objects: seq<Hittable>, i: nat, ray: Ray, rayT: Interval, t: real, sqrt: SqrtFn, o: Outcome)
    requires i < |objects|
    requires Hit(objects[i], ray, rayT, NewRecord(), sqrt).hit && Hit(objects[i], ray, rayT, NewRecord(), sqrt).rec.t == t
    requires forall j :: 0 <= j < |objects| ==>
      Narrows(Hit(objects[j], ray, rayT, NewRecord(), sqrt), Hit(objects[j], ray, UpTo(rayT, Fin(t)), NewRecord(), sqrt), Fin(t))
    requires NoNearer(objects, i + 1, ray, UpTo(rayT, Fin(t)), sqrt, o)
    requires o.hit && (o.rec.t == t || AttainedBy(objects, i + 1, ray, UpTo(rayT, Fin(t)), sqrt, o.rec.t))
    ensures NoNearer(objects, i, ray, rayT, sqrt, o) && AttainedBy(objects, i, ray, rayT, sqrt, o.rec.t)
  {
    var next := UpTo(rayT, Fin(t));
    if o.rec.t != t {
      var k :| i + 1 <= k < |objects| && Hit(objects[k], ray, next, NewRecord(), sqrt).hit &&
        Hit(objects[k], ray, next, NewRecord(), sqrt).rec.t == o.rec.t;
      assert Hit(objects[k], ray, rayT, NewRecord(), sqrt).rec.t == o.rec.t;
    }
    assert o.rec.t <= t;
    forall j | i <= j < |objects| && Hit(objects[j], ray, rayT, NewRecord(), sqrt).hit
      ensures o.rec.t <= Hit(objects[j], ray, rayT, NewRecord(), sqrt).rec.t
    {
      if j != i && Hit(objects[j], ray, rayT, NewRecord(), sqrt).rec.t < t {
        assert Hit(objects[j], ray, next, NewRecord(), sqrt).hit;
      }
    }
  }

  /**
   * `HittableList::hit` answers with the nearest hit: no object is hit on
   * `rayT` before the list's answer, and the answer is one of the objects' hits.
   */
  lemma ListHitIsNearest(objects: seq<Hittable>, bbox: Boxes.Aabb, ray: Ray, rayT: Interval, rec: HitRecord, sqrt: SqrtFn)
    requires IsSqrt(sqrt)
    requires forall o :: o in objects ==> BoxesAdmit(o, ray, rayT.min, sqrt)
    ensures
      var o := Hit(ListObject(objects, bbox), ray, rayT, rec, sqrt);
      (forall j :: 0 <= j < |objects| && Hit(objects[j], ray, rayT, NewRecord(), sqrt).hit ==>
         o.hit && o.rec.t <= Hit(objects[j], ray, rayT, NewRecord(), sqrt).rec.t) &&
      (o.hit ==>
         exists j :: 0 <= j < |objects| && Hit(objects[j], ray, rayT, NewRecord(), sqrt).hit &&
                     o.rec.t == Hit(objects[j], ray, rayT, NewRecord(), sqrt).rec.t)
  {
    var list := ListObject(objects, bbox);
    assert UpTo(rayT, rayT.max) == rayT;
    ScanNearest(list, 0, ray, rayT, rayT.max, false, NewRecord(), rec, sqrt);
  }

  /**
   * A BVH node whose box the ray passes answers with the nearer of its
   * children's hits, provided the boxes inside its right child pass what
   * their children hit.
   */
  lemma BvhHitIsNearest(left: Hittable, right: Hittable, bbox: Boxes.Aabb, ray: Ray, rayT: Interval, rec: HitRecord, sqrt: SqrtFn)
    requires IsSqrt(sqrt) && BoxesAdmit(right, ray, rayT.min, sqrt)
    requires bbox.Hits(ray, rayT)
    ensures
      var o := Hit(BvhObject(left, right, bbox), ray, rayT, rec, sqrt);
      var l := Hit(left, ray, rayT, rec, sqrt);
      var r := Hit(right, ray, rayT, rec, sqrt);
      (l.hit ==> o.hit && o.rec.t <= l.rec.t) &&
      (r.hit ==> o.hit && o.rec.t <= r.rec.t) &&
      (o.hit ==> (l.hit && o.rec.t == l.rec.t) || (r.hit && o.rec.t == r.rec.t))
  {
    var l := Hit(left, ray, rayT, rec, sqrt);
    if l.hit {
      Narrow(right, ray, rayT, Fin(l.rec.t), rec, l.rec, sqrt);
    } else {
      assert UpTo(rayT, rayT.max) == rayT;
      HitIgnoresRecord(right, ray, rayT, l.rec, rec, sqrt);
    }
  }
}
