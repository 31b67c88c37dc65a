/**
  The older hit record without a material (src/hittable.rs), over the older
  ray without time. It applies the same orientation rule as the current
  record.
*/
module LegacyHitRecords {
  import opened Vectors
  import LegacyRays
  import HitRecords

  datatype HitRecord = HitRecord(p: Point3, t: real, normal: Vec3, frontFace: bool)

  /** `calculate_face_normal` of the older snapshot. */
  function CalculateFaceNormal(r: LegacyRays.Ray, outwardNormal: Vec3): HitRecords.Face {
    HitRecords.OrientFace(r.direction, outwardNormal)
  }

  /** `HitRecord::new` of the older snapshot. */
  function NewRecord(p: Point3, t: real, r: LegacyRays.Ray, outwardNormal: Vec3): HitRecord {
    var face := CalculateFaceNormal(r, outwardNormal);
    HitRecord(p, t, face.normal, face.frontFace)
  }

  /** The record the older `set_face_normal` leaves behind. */
  function WithFaceNormal(rec: HitRecord, r: LegacyRays.Ray, outwardNormal: Vec3): HitRecord {
    var face := CalculateFaceNormal(r, outwardNormal);
    rec.(frontFace := face.frontFace, normal := face.normal)
  }

  /** The older record follows the same rule: front face iff the ray opposes the normal; never along the ray. */
  lemma OrientationRule(p: Point3, t: real, r: LegacyRays.Ray, outwardNormal: Vec3)
    ensures NewRecord(p, t, r, outwardNormal).frontFace <==> Dot(r.direction, outwardNormal) < 0.0
    ensures NewRecord(p, t, r, outwardNormal).normal
         == (if Dot(r.direction, outwardNormal) < 0.0 then outwardNormal else Neg(outwardNormal))
    ensures Dot(r.direction, NewRecord(p, t, r, outwardNormal).normal) <= 0.0
    ensures NewRecord(p, t, r, outwardNormal).p == p && NewRecord(p, t, r, outwardNormal).t == t
  {
    HitRecords.OrientFaceRule(r.direction, outwardNormal);
  }

  /** `set_face_normal` keeps `p` and `t` and agrees with `new` on the same ray and normal. */
  lemma SetFaceNormalAgreesWithNew(rec: HitRecord, r: LegacyRays.Ray, outwardNormal: Vec3)
    ensures WithFaceNormal(rec, r, outwardNormal).p == rec.p
    ensures WithFaceNormal(rec, r, outwardNormal).t == rec.t
    ensures WithFaceNormal(rec, r, outwardNormal) == NewRecord(rec.p, rec.t, r, outwardNormal)
  {
  }

  /** The older record held in place, for the older `set_face_normal(&mut self, ...)`. */
  class MutableHitRecord {
    var p: Point3
    var t: real
    var normal: Vec3
    var frontFace: bool

    function Value(): HitRecord
      reads this
    {
      HitRecord(p, t, normal, frontFace)
    }

    /** The older `HitRecord::new`, allocated. */
    constructor (p: Point3, t: real, r: LegacyRays.Ray, outwardNormal: Vec3)
      ensures Value() == NewRecord(p, t, r, outwardNormal)
    {
      var face := CalculateFaceNormal(r, outwardNormal);
      this.p, this.t := p, t;
      this.normal, this.frontFace := face.normal, face.frontFace;
    }

    /** The older `set_face_normal`: overwrites `front_face` and `normal` only. */
    method SetFaceNormal(r: LegacyRays.Ray, outwardNormal: Vec3)
      modifies this
      ensures Value() == WithFaceNormal(old(Value()), r, outwardNormal)
      ensures p == old(p) && t == old(t)
      ensures frontFace <==> Dot(r.direction, outwardNormal) < 0.0
      ensures Dot(r.direction, normal) <= 0.0
    {
      var face := CalculateFaceNormal(r, outwardNormal);
      frontFace := face.frontFace;
      normal := face.normal;
      HitRecords.OrientFaceRule(r.direction, outwardNormal);
    }
  }
}
