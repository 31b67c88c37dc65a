/**
  Hit records and the face-normal orientation rule (src/renderer/hittable.rs):
  the stored normal always points against the incoming ray, and `front_face`
  records whether that is the geometric outward normal.
*/
module HitRecords {
  import opened Vectors
  import opened Rays
  import opened Materials

  datatype HitRecord = HitRecord(p: Point3, t: real, normal: Vec3, frontFace: bool, mat: Material)

  /** The orientation rule shared by every snapshot's `calculate_face_normal`. */
  datatype Face = Face(frontFace: bool, normal: Vec3)

  function OrientFace(direction: Vec3, outwardNormal: Vec3): Face {
    var frontFace := Dot(direction, outwardNormal) < 0.0;
    Face(frontFace, if frontFace then outwardNormal else Neg(outwardNormal))
  }

  /** `calculate_face_normal(r, outward_normal)`. */
  function CalculateFaceNormal(r: Ray, outwardNormal: Vec3): Face {
    OrientFace(r.direction, outwardNormal)
  }

  /** `HitRecord::new`. */
  function NewRecord(p: Point3, t: real, r: Ray, outwardNormal: Vec3, mat: Material): HitRecord {
    var face := CalculateFaceNormal(r, outwardNormal);
    HitRecord(p, t, face.normal, face.frontFace, mat)
  }

  /** The record `set_face_normal(&mut self, ...)` leaves behind: `front_face` and `normal` overwritten. */
  function WithFaceNormal(rec: HitRecord, r: Ray, outwardNormal: Vec3): HitRecord {
    var face := CalculateFaceNormal(r, outwardNormal);
    rec.(frontFace := face.frontFace, normal := face.normal)
  }

  /**
    The orientation rule: `front_face` holds exactly when the ray runs against
    the outward normal, the stored normal is the outward normal or its
    negation accordingly, it never points along the ray, and the outward
    normal can be recovered from the face.
  */
  lemma OrientFaceRule(direction: Vec3, outwardNormal: Vec3)
    ensures OrientFace(direction, outwardNormal).frontFace <==> Dot(direction, outwardNormal) < 0.0
    ensures OrientFace(direction, outwardNormal).normal
         == (if Dot(direction, outwardNormal) < 0.0 then outwardNormal else Neg(outwardNormal))
    ensures Dot(direction, OrientFace(direction, outwardNormal).normal) <= 0.0
    ensures var f := OrientFace(direction, outwardNormal);
            (if f.frontFace then f.normal else Neg(f.normal)) == outwardNormal
  {
  }

  /** A tangent ray is not a front-face hit, and the normal is negated. */
  lemma TangentIsBackFace(direction: Vec3, outwardNormal: Vec3)
    requires Dot(direction, outwardNormal) == 0.0
    ensures !OrientFace(direction, outwardNormal).frontFace
    ensures OrientFace(direction, outwardNormal).normal == Neg(outwardNormal)
  {
  }

  /** `new` keeps `p`, `t` and the material, and orients the normal against the ray. */
  lemma NewRecordFields(p: Point3, t: real, r: Ray, outwardNormal: Vec3, mat: Material)
    ensures NewRecord(p, t, r, outwardNormal, mat).p == p
    ensures NewRecord(p, t, r, outwardNormal, mat).t == t
    ensures NewRecord(p, t, r, outwardNormal, mat).mat == mat
    ensures NewRecord(p, t, r, outwardNormal, mat).frontFace <==> Dot(r.direction, outwardNormal) < 0.0
    ensures Dot(r.direction, NewRecord(p, t, r, outwardNormal, mat).normal) <= 0.0
  {
  }

  /**
    `set_face_normal` changes only `front_face` and `normal`, and leaves the
    record as `new` would have built it from the same ray and normal.
  */
  lemma SetFaceNormalFrame(rec: HitRecord, r: Ray, outwardNormal: Vec3)
    ensures WithFaceNormal(rec, r, outwardNormal).p == rec.p
    ensures WithFaceNormal(rec, r, outwardNormal).t == rec.t
    ensures WithFaceNormal(rec, r, outwardNormal).mat == rec.mat
    ensures WithFaceNormal(rec, r, outwardNormal) == NewRecord(rec.p, rec.t, r, outwardNormal, rec.mat)
  {
  }

  /**
    A hit record held in place, for `set_face_normal(&mut self, ...)`: the
    method overwrites `front_face` and `normal` and no other field.
  */
  class MutableHitRecord {
    var p: Point3
    var t: real
    var normal: Vec3
    var frontFace: bool
    var mat: Material

    /** The record's current value. */
    function Value(): HitRecord
      reads this
    {
      HitRecord(p, t, normal, frontFace, mat)
    }

    /** `HitRecord::new`, allocated. */
    constructor (p: Point3, t: real, r: Ray, outwardNormal: Vec3, mat: Material)
      ensures Value() == NewRecord(p, t, r, outwardNormal, mat)
    {
      var face := CalculateFaceNormal(r, outwardNormal);
      this.p, this.t, this.mat := p, t, mat;
      this.normal, this.frontFace := face.normal, face.frontFace;
    }

    /** `set_face_normal`: the record becomes the one `WithFaceNormal` describes. */
    method SetFaceNormal(r: Ray, outwardNormal: Vec3)
      modifies this
      ensures Value() == WithFaceNormal(old(Value()), r, outwardNormal)
      ensures p == old(p) && t == old(t) && mat == old(mat)
      ensures frontFace <==> Dot(r.direction, outwardNormal) < 0.0
      ensures Dot(r.direction, normal) <= 0.0
    {
      var face := CalculateFaceNormal(r, outwardNormal);
      frontFace := face.frontFace;
      normal := face.normal;
      OrientFaceRule(r.direction, outwardNormal);
    }
  }
}
