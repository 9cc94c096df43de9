/**
 * `HittableList`, `src/hittable_list.rs`: a growable list of scene objects and
 * the running union of their boxes.  Its `hit` is the linear closest-hit scan.
 */
module HittableLists {
  import opened ExtReals
  import opened Intervals
  import opened Vectors
  import opened Rays
  import opened Boxes
  import opened HitRecords
  import opened Hittables

  class HittableList {
    var objects: seq<Hittable>
    var bbox: Aabb

    /** The list as a scene object. */
    function AsHittable(): (h: Hittable)
      reads this
      ensures h.ListObject? && h.objects == objects && h.bbox == bbox
    {
      ListObject(objects, bbox)
    }

    /** `HittableList::new(object)`: one object, boxed by the union of the empty box and its own. */
    constructor New(item: Hittable)
      ensures objects == [item]
      ensures bbox == FromBoxes(Boxes.Empty(), item.BoundingBox())
      ensures bbox == item.BoundingBox()
    {
      FromBoxesEmpty(item.BoundingBox());
      bbox := FromBoxes(Boxes.Empty(), item.BoundingBox());
      objects := [item];
    }

    /** `HittableList::empty()` and `Default`. */
    constructor Empty()
      ensures objects == [] && bbox == Boxes.Empty()
    {
      objects := [];
      bbox := Boxes.Empty();
    }

    /** `add`: widen the box to enclose the object's, then push the object. */
    method Add(item: Hittable)
      modifies this
      ensures objects == old(objects) + [item]
      ensures bbox == FromBoxes(old(bbox), item.BoundingBox())
      ensures EnclosesBox(bbox, old(bbox)) && EnclosesBox(bbox, item.BoundingBox())
    {
      bbox := FromBoxes(bbox, item.BoundingBox());
      objects := objects + [item];
      assert EnclosesBox(bbox, old(bbox)) && EnclosesBox(bbox, item.BoundingBox()) by {
        assert bbox.AxisInterval(0) == bbox.x && bbox.AxisInterval(1) == bbox.y && bbox.AxisInterval(2) == bbox.z;
      }
    }

    /** `clear`: empties the objects; the box is left as it was. */
    method Clear()
      modifies this
      ensures objects == [] && bbox == old(bbox)
    {
      objects := [];
    }

    /**
     * `hit`: ask every item about `[rayT.min, closest_so_far]`, sharing one
     * scratch record; each hit lowers `closest_so_far` and is copied out.
     */
    method Hit(ray: Ray, rayT: Interval, rec: HitRecord, sqrt: SqrtFn) returns (hit: bool, recOut: HitRecord)
      ensures Outcome(hit, recOut) == Hittables.Hit(AsHittable(), ray, rayT, rec, sqrt)
      ensures !hit ==> recOut == rec
      ensures hit ==> rayT.Contains(recOut.t) && recOut.p == ray.At(recOut.t)
      ensures objects == [] ==> !hit
    {
      var temp := NewRecord();
      var hitAnything := false;
      var closest := rayT.max;
      recOut := rec;
      var i := 0;
      while i < |objects|
        invariant 0 <= i <= |objects|
        invariant closest.Le(rayT.max)
        invariant hitAnything ==> closest == Fin(recOut.t) && rayT.Contains(recOut.t) && recOut.p == ray.At(recOut.t)
        invariant !hitAnything ==> recOut == rec && closest == rayT.max
        invariant Scan(AsHittable(), i, ray, rayT, closest, hitAnything, temp, recOut, sqrt)
          == Hittables.Hit(AsHittable(), ray, rayT, rec, sqrt)
      {
        var o := Hittables.Hit(objects[i], ray, UpTo(rayT, closest), temp, sqrt);
        temp := o.rec;
        if o.hit {
          hitAnything := true;
          ExtReals.LtIsStrictOrder(Fin(temp.t), closest, rayT.max);
          closest := Fin(temp.t);
          recOut := temp;
        }
        i := i + 1;
      }
      hit := hitAnything;
    }
  }
}
