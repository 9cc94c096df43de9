/**
 * The hit record of `src/hittable.rs`: the scratch result an intersection query
 * writes.  A query that the source gives `&mut HitRecord` is modelled as taking
 * the record and returning the updated one.  `u` and `v` are included because
 * `src/quad.rs` writes them.
 */
module HitRecords {
  import opened Vectors
  import opened Rays
  import opened Materials

  datatype HitRecord = HitRecord(
    p: Vec3, normal: Vec3, material: Material, t: real, frontFace: bool, u: real, v: real)
  {
    /**
     * Orient the normal against the ray: `front_face` says whether the ray meets
     * the outward side; only `front_face` and `normal` change.
     */
    function SetFaceNormal(r: Ray, outwardNormal: Vec3): (rec: HitRecord)
      ensures rec.frontFace <==> r.direction.Dot(outwardNormal) < 0.0
      ensures rec.frontFace ==> rec.normal == outwardNormal
      ensures !rec.frontFace ==> rec.normal == outwardNormal.Neg()
      ensures rec.normal.Dot(r.direction) <= 0.0
      ensures rec == this.(frontFace := rec.frontFace, normal := rec.normal)
    {
      var front := r.direction.Dot(outwardNormal) < 0.0;
      this.(frontFace := front, normal := if front then outwardNormal else outwardNormal.Neg())
    }
  }

  /** `HitRecord::new` (also `Default`): zero point and normal, a black Lambertian, `t = 0`. */
  function NewRecord(): (rec: HitRecord)
    ensures rec.p == Zero() && rec.normal == Zero() && rec.t == 0.0 && !rec.frontFace
    ensures rec.material == Lambertian(Zero())
  {
    HitRecord(Zero(), Zero(), Lambertian(Zero()), 0.0, false, 0.0, 0.0)
  }

  /** What a `hit` query returns, paired with the record it has written through `&mut`. */
  datatype Outcome = Outcome(hit: bool, rec: HitRecord)
}
