/**
 * The `Hittable` trait of `src/hittable.rs` as a closed sum of the scene objects
 * the repository defines: spheres, quads, lists (`src/hittable_list.rs`) and BVH
 * nodes (`src/bvh.rs`).  `Rc` children become values.  Every `hit` takes the
 * record it may overwrite and returns it, updated or not, with the verdict.
 */
module Hittables {
  import opened ExtReals
  import opened Intervals
  import opened Vectors
  import opened Rays
  import opened Boxes
  import opened Materials
  import opened HitRecords
  import opened Spheres
  import opened Quads

  datatype Hittable =
    | SphereObject(sphere: Sphere)
    | QuadObject(quad: Quad)
    | ListObject(objects: seq<Hittable>, bbox: Aabb)
    | BvhObject(left: Hittable, right: Hittable, bbox: Aabb)
  {
    /** `bounding_box()`: quads, lists and BVH nodes return their stored box. */
    function BoundingBox(): (b: Aabb)
      ensures ListObject? || BvhObject? ==> b == bbox
      ensures QuadObject? ==> b == quad.bbox
      ensures SphereObject? ==> b.ContainsPoint(sphere.centre)
    {
      match this
      case SphereObject(s) => s.BoundingBox()
      case QuadObject(q) => q.bbox
      case ListObject(_, b) => b
      case BvhObject(_, _, b) => b
    }
  }

  /** The interval `[rayT.min, upper]` each later query is restricted to. */
  function UpTo(rayT: Interval, upper: ExtReal): (i: Interval)
    ensures i.min == rayT.min && i.max == upper
  {
    Intervals.New(rayT.min, upper)
  }

  /**
   * `hit` of every kind of object.  A miss leaves the record alone; a hit lies
   * on the ray at a parameter inside `rayT`.
   */
  function Hit(h: Hittable, ray: Ray, rayT: Interval, rec: HitRecord, sqrt: SqrtFn): (o: Outcome)
    ensures !o.hit ==> o.rec == rec
    ensures o.hit ==> rayT.Contains(o.rec.t) && o.rec.p == ray.At(o.rec.t)
    decreases h, 1, 0
  {
    match h
    case SphereObject(s) => s.Hit(ray, rayT, rec, sqrt)
    case QuadObject(q) => q.Hit(ray, rayT, rec)
    case ListObject(_, _) => Scan(h, 0, ray, rayT, rayT.max, false, NewRecord(), rec, sqrt)
    case BvhObject(left, right, bbox) =>
      if !bbox.Hits(ray, rayT) then
        Outcome(false, rec)
      else
        var l := Hit(left, ray, rayT, rec, sqrt);
        var r := Hit(right, ray, UpTo(rayT, if l.hit then Fin(l.rec.t) else rayT.max), l.rec, sqrt);
        Outcome(l.hit || r.hit, r.rec)
  }

  /**
   * The list's loop from object `i` on: each object is asked about
   * `[rayT.min, closest]` with the shared scratch record `temp`; a hit lowers
   * `closest` to its `t` and is copied into `rec`.
   */
  function Scan(list: Hittable, i: nat, ray: Ray, rayT: Interval, closest: ExtReal, hitAnything: bool,
                temp: HitRecord, rec: HitRecord, sqrt: SqrtFn): (o: Outcome)
    requires list.ListObject? && i <= |list.objects|
    requires closest.Le(rayT.max)
    requires hitAnything ==> closest == Fin(rec.t) && rayT.Contains(rec.t) && rec.p == ray.At(rec.t)
    ensures !o.hit ==> o.rec == rec && !hitAnything
    ensures hitAnything ==> o.hit
    ensures o.hit ==> rayT.Contains(o.rec.t) && o.rec.p == ray.At(o.rec.t) && Fin(o.rec.t).Le(closest)
    decreases list, 0, |list.objects| - i
  {
    if i == |list.objects| then
      Outcome(hitAnything, rec)
    else
      var o := Hit(list.objects[i], ray, UpTo(rayT, closest), temp, sqrt);
      if o.hit then
        Scan(list, i + 1, ray, rayT, Fin(o.rec.t), true, o.rec, o.rec, sqrt)
      else
        Scan(list, i + 1, ray, rayT, closest, hitAnything, o.rec, rec, sqrt)
  }

  /**
   * Whether an object is hit, and at which `t`, does not depend on the record
   * passed in: the record only receives the answer.
   */
  lemma {:induction false} HitIgnoresRecord(h: Hittable, ray: Ray, rayT: Interval, rec1: HitRecord, rec2: HitRecord, sqrt: SqrtFn)
    ensures Hit(h, ray, rayT, rec1, sqrt).hit == Hit(h, ray, rayT, rec2, sqrt).hit
    ensures Hit(h, ray, rayT, rec1, sqrt).hit ==>
      Hit(h, ray, rayT, rec1, sqrt).rec.t == Hit(h, ray, rayT, rec2, sqrt).rec.t
    decreases h, 1
  {
    match h
    case SphereObject(s) =>
    case QuadObject(q) =>
    case ListObject(_, _) =>
      ScanIgnoresRecord(h, 0, ray, rayT, rayT.max, false, NewRecord(), rec1, rec2, sqrt);
    case BvhObject(left, right, bbox) =>
      if bbox.Hits(ray, rayT) {
        var l1 := Hit(left, ray, rayT, rec1, sqrt);
        var l2 := Hit(left, ray, rayT, rec2, sqrt);
        HitIgnoresRecord(left, ray, rayT, rec1, rec2, sqrt);
        var upper := UpTo(rayT, if l1.hit then Fin(l1.rec.t) else rayT.max);
        HitIgnoresRecord(right, ray, upper, l1.rec, l2.rec, sqrt);
      }
  }

  lemma {:induction false} ScanIgnoresRecord(list: Hittable, i: nat, ray: Ray, rayT: Interval, closest: ExtReal,
                                             hitAnything: bool, temp: HitRecord, recA: HitRecord, recB: HitRecord, sqrt: SqrtFn)
    requires list.ListObject? && i <= |list.objects|
    requires closest.Le(rayT.max)
    requires hitAnything ==> closest == Fin(recA.t) && rayT.Contains(recA.t) && recA.p == ray.At(recA.t)
    requires hitAnything ==> closest == Fin(recB.t) && rayT.Contains(recB.t) && recB.p == ray.At(recB.t)
    ensures
      var a := Scan(list, i, ray, rayT, closest, hitAnything, temp, recA, sqrt);
      var b := Scan(list, i, ray, rayT, closest, hitAnything, temp, recB, sqrt);
      a.hit == b.hit && (a.hit ==> a.rec.t == b.rec.t)
    decreases |list.objects| - i
  {
    if i < |list.objects| {
      var o := Hit(list.objects[i], ray, UpTo(rayT, closest), temp, sqrt);
      if !o.hit {
        ScanIgnoresRecord(list, i + 1, ray, rayT, closest, hitAnything, o.rec, recA, recB, sqrt);
      }
    }
  }

  /** An empty list is never hit and leaves the record alone. */
  lemma EmptyListMisses(bbox: Aabb, ray: Ray, rayT: Interval, rec: HitRecord, sqrt: SqrtFn)
    ensures Hit(ListObject([], bbox), ray, rayT, rec, sqrt) == Outcome(false, rec)
  {
  }

  /** A list is hit exactly when one of its objects, asked about the whole `rayT`, is hit. */
  lemma ListHitIffSomeObjectHit(objects: seq<Hittable>, bbox: Aabb, ray: Ray, rayT: Interval, rec: HitRecord, sqrt: SqrtFn)
    ensures Hit(ListObject(objects, bbox), ray, rayT, rec, sqrt).hit
      <==> exists j :: 0 <= j < |objects| && Hit(objects[j], ray, rayT, NewRecord(), sqrt).hit
  {
    ScanBeforeAnyHit(ListObject(objects, bbox), 0, ray, rayT, NewRecord(), rec, sqrt);
  }

  lemma {:induction false} ScanBeforeAnyHit(list: Hittable, i: nat, ray: Ray, rayT: Interval, temp: HitRecord, rec: HitRecord, sqrt: SqrtFn)
    requires list.ListObject? && i <= |list.objects|
    ensures Scan(list, i, ray, rayT, rayT.max, false, temp, rec, sqrt).hit
      <==> exists j :: i <= j < |list.objects| && Hit(list.objects[j], ray, rayT, NewRecord(), sqrt).hit
    decreases |list.objects| - i
  {
    if i < |list.objects| {
      assert UpTo(rayT, rayT.max) == rayT;
      var o := Hit(list.objects[i], ray, rayT, temp, sqrt);
      HitIgnoresRecord(list.objects[i], ray, rayT, temp, NewRecord(), sqrt);
      if !o.hit {
        ScanBeforeAnyHit(list, i + 1, ray, rayT, o.rec, rec, sqrt);
        assert forall j :: i <= j < |list.objects| && Hit(list.objects[j], ray, rayT, NewRecord(), sqrt).hit ==> i + 1 <= j;
      }
    }
  }

  /** A BVH node whose box the ray misses reports a miss without visiting either child. */
  lemma BvhBoxMissSkipsChildren(left: Hittable, right: Hittable, bbox: Aabb, ray: Ray, rayT: Interval, rec: HitRecord, sqrt: SqrtFn)
    requires !bbox.Hits(ray, rayT)
    ensures Hit(BvhObject(left, right, bbox), ray, rayT, rec, sqrt) == Outcome(false, rec)
  {
  }

  /**
   * A BVH node answers with the left child's hit unless the right child finds
   * one strictly before it (or the left child missed); the node is hit exactly
   * when either child is.
   */
  lemma BvhCombinesChildren(left: Hittable, right: Hittable, bbox: Aabb, ray: Ray, rayT: Interval, rec: HitRecord, sqrt: SqrtFn)
    requires bbox.Hits(ray, rayT)
    ensures
      var o := Hit(BvhObject(left, right, bbox), ray, rayT, rec, sqrt);
      var l := Hit(left, ray, rayT, rec, sqrt);
      var r := Hit(right, ray, rayT, rec, sqrt);
      (o.hit <==> l.hit || r.hit) &&
      (o.hit && l.hit ==> o.rec.t <= l.rec.t)
  {
    var l := Hit(left, ray, rayT, rec, sqrt);
    var upper := UpTo(rayT, if l.hit then Fin(l.rec.t) else rayT.max);
    var r2 := Hit(right, ray, upper, l.rec, sqrt);
    if !l.hit {
      assert upper == rayT;
      HitIgnoresRecord(right, ray, rayT, l.rec, rec, sqrt);
    }
  }

  /** Every sphere and quad inside `h` has a material satisfying `ok`. */
  predicate EveryMaterial(h: Hittable, ok: Material -> bool) {
    match h
    case SphereObject(s) => ok(s.material)
    case QuadObject(q) => ok(q.material)
    case ListObject(objects, _) => forall o :: o in objects ==> EveryMaterial(o, ok)
    case BvhObject(left, right, _) => EveryMaterial(left, ok) && EveryMaterial(right, ok)
  }

  /**
   * The material a query leaves in the record is the one passed in, one of the
   * scene's own, or the black Lambertian of a list's fresh scratch record.
   */
  lemma {:induction false} HitKeepsMaterials(h: Hittable, ray: Ray, rayT: Interval, rec: HitRecord, sqrt: SqrtFn, ok: Material -> bool)
    requires EveryMaterial(h, ok) && ok(rec.material) && ok(NewRecord().material)
    ensures ok(Hit(h, ray, rayT, rec, sqrt).rec.material)
    decreases h, 1, 0
  {
    match h
    case SphereObject(s) =>
    case QuadObject(q) =>
    case ListObject(_, _) =>
      ScanKeepsMaterials(h, 0, ray, rayT, rayT.max, false, NewRecord(), rec, sqrt, ok);
    case BvhObject(left, right, bbox) =>
      if bbox.Hits(ray, rayT) {
        var l := Hit(left, ray, rayT, rec, sqrt);
        HitKeepsMaterials(left, ray, rayT, rec, sqrt, ok);
        HitKeepsMaterials(right, ray, UpTo(rayT, if l.hit then Fin(l.rec.t) else rayT.max), l.rec, sqrt, ok);
      }
  }

  lemma {:induction false} ScanKeepsMaterials(list: Hittable, i: nat, ray: Ray, rayT: Interval, closest: ExtReal,
                                              hitAnything: bool, temp: HitRecord, rec: HitRecord, sqrt: SqrtFn, ok: Material -> bool)
    requires list.ListObject? && i <= |list.objects|
    requires closest.Le(rayT.max)
    requires hitAnything ==> closest == Fin(rec.t) && rayT.Contains(rec.t) && rec.p == ray.At(rec.t)
    requires EveryMaterial(list, ok) && ok(temp.material) && ok(rec.material) && ok(NewRecord().material)
    ensures ok(Scan(list, i, ray, rayT, closest, hitAnything, temp, rec, sqrt).rec.material)
    decreases list, 0, |list.objects| - i
  {
    if i < |list.objects| {
      var item := list.objects[i];
      assert item in list.objects;
      var o := Hit(item, ray, UpTo(rayT, closest), temp, sqrt);
      HitKeepsMaterials(item, ray, UpTo(rayT, closest), temp, sqrt, ok);
      if o.hit {
        ScanKeepsMaterials(list, i + 1, ray, rayT, Fin(o.rec.t), true, o.rec, o.rec, sqrt, ok);
      } else {
        ScanKeepsMaterials(list, i + 1, ray, rayT, closest, hitAnything, o.rec, rec, sqrt, ok);
      }
    }
  }
}
