/**
  The scene: a closed set of hittable objects (a sphere or a list of
  objects), the closest-hit aggregate over a list (src/hittable_list.rs), and
  the list object itself, whose vector of objects is updated in place.
*/
module HittableLists {
  import opened Wrappers
  import opened RtWeekend
  import opened Vectors
  import opened Rays
  import opened Materials
  import opened HitRecords
  import opened Spheres

  datatype Hittable = HSphere(sphere: Sphere) | HList(objects: seq<Hittable>)

  /** Every sphere in the scene has a non-zero radius and a valid material. */
  predicate ValidHittable(h: Hittable)
    decreases h
  {
    match h
    case HSphere(s) => ValidSphere(s)
    case HList(objects) => forall i :: 0 <= i < |objects| ==> ValidHittable(objects[i])
  }

  /** `a <= b` on window bounds, where `Unbounded` is above every real. */
  predicate AtMost(a: Bound, b: Bound) {
    b.Unbounded? || (a.Finite? && a.value <= b.value)
  }

  /** `Hittable::hit`, dispatched on the kind of object. */
  function HitObject(h: Hittable, r: Ray, tMin: real, tMax: Bound, sqrt: real -> real): Option<HitRecord>
    requires ValidHittable(h)
    decreases h, if h.HList? then |h.objects| + 1 else 0
  {
    match h
    case HSphere(s) => Spheres.Hit(s, r, tMin, tMax, sqrt)
    case HList(objects) => HitPrefix(h, |objects|, r, tMin, tMax, sqrt)
  }

  /**
    `HittableList::hit` after visiting the first `n` objects: the record so
    far, where each object is asked for a hit no farther than the closest one
    found before it.
  */
  function HitPrefix(h: Hittable, n: nat, r: Ray, tMin: real, tMax: Bound, sqrt: real -> real): Option<HitRecord>
    requires h.HList? && ValidHittable(h) && n <= |h.objects|
    decreases h, n
  {
    if n == 0 then None
    else
      var tempRec := HitPrefix(h, n - 1, r, tMin, tMax, sqrt);
      var closestSoFar := ClosestSoFar(tempRec, tMax);
      var hitRec := HitObject(h.objects[n - 1], r, tMin, closestSoFar, sqrt);
      if hitRec.Some? then hitRec else tempRec
  }

  /** `closest_so_far`: the `t` of the current record, or `t_max` while there is none. */
  function ClosestSoFar(tempRec: Option<HitRecord>, tMax: Bound): Bound {
    if tempRec.Some? then Finite(tempRec.value.t) else tMax
  }

  /** The record an object of a list reports when asked with the whole window `[t_min, t_max]`. */
  function FullHit(h: Hittable, i: nat, r: Ray, tMin: real, tMax: Bound, sqrt: real -> real): Option<HitRecord>
    requires h.HList? && ValidHittable(h) && i < |h.objects|
  {
    HitObject(h.objects[i], r, tMin, tMax, sqrt)
  }

  // ---------------------------------------------------------------- window lemmas

  /** Any reported `t` lies in the window, both ends included. */
  lemma {:induction false} HitObjectInWindow(h: Hittable, r: Ray, tMin: real, tMax: Bound, sqrt: real -> real)
    requires ValidHittable(h)
    ensures HitObject(h, r, tMin, tMax, sqrt).Some? ==> InWindow(HitObject(h, r, tMin, tMax, sqrt).value.t, tMin, tMax)
    decreases h, if h.HList? then |h.objects| + 1 else 0
  {
    match h
    case HSphere(s) =>
      if Spheres.Hit(s, r, tMin, tMax, sqrt).Some? {
        HitRecordContents(s, r, tMin, tMax, sqrt);
      }
    case HList(objects) =>
      HitPrefixInWindow(h, |objects|, r, tMin, tMax, sqrt);
  }

  lemma {:induction false} HitPrefixInWindow(h: Hittable, n: nat, r: Ray, tMin: real, tMax: Bound, sqrt: real -> real)
    requires h.HList? && ValidHittable(h) && n <= |h.objects|
    ensures HitPrefix(h, n, r, tMin, tMax, sqrt).Some? ==> InWindow(HitPrefix(h, n, r, tMin, tMax, sqrt).value.t, tMin, tMax)
    ensures AtMost(ClosestSoFar(HitPrefix(h, n, r, tMin, tMax, sqrt), tMax), tMax)
    decreases h, n
  {
    if n > 0 {
      var tempRec := HitPrefix(h, n - 1, r, tMin, tMax, sqrt);
      HitPrefixInWindow(h, n - 1, r, tMin, tMax, sqrt);
      HitObjectInWindow(h.objects[n - 1], r, tMin, ClosestSoFar(tempRec, tMax), sqrt);
    }
  }

  /**
    `closest_so_far` never increases from one object to the next, and it is
    always the `t` of the current record when there is one.
  */
  lemma ClosestNeverIncreases(h: Hittable, n: nat, r: Ray, tMin: real, tMax: Bound, sqrt: real -> real)
    requires h.HList? && ValidHittable(h) && n < |h.objects|
    ensures AtMost(ClosestSoFar(HitPrefix(h, n + 1, r, tMin, tMax, sqrt), tMax),
                   ClosestSoFar(HitPrefix(h, n, r, tMin, tMax, sqrt), tMax))
  {
    var tempRec := HitPrefix(h, n, r, tMin, tMax, sqrt);
    HitObjectInWindow(h.objects[n], r, tMin, ClosestSoFar(tempRec, tMax), sqrt);
  }

  // ---------------------------------------------------------------- narrowing

  /**
    Asking with the window `[t_min, c]`, for `c` inside the window, gives the
    hit of the whole window if its `t` is at most `c`, and nothing otherwise.
  */
  lemma {:induction false} HitObjectNarrowed(h: Hittable, r: Ray, tMin: real, tMax: Bound, c: real, sqrt: real -> real)
    requires IsSqrt(sqrt) && ValidHittable(h) && !Above(c, tMax)
    ensures HitObject(h, r, tMin, Finite(c), sqrt)
         == (var full := HitObject(h, r, tMin, tMax, sqrt);
             if full.Some? && full.value.t <= c then full else None)
    decreases h, if h.HList? then |h.objects| + 1 else 0
  {
    match h
    case HSphere(s) =>
      HitNarrowed(s, r, tMin, tMax, c, sqrt);
    case HList(objects) =>
      HitPrefixNarrowed(h, |objects|, r, tMin, tMax, c, sqrt);
  }

  lemma {:induction false} HitPrefixNarrowed(h: Hittable, n: nat, r: Ray, tMin: real, tMax: Bound, c: real, sqrt: real -> real)
    requires IsSqrt(sqrt) && h.HList? && ValidHittable(h) && n <= |h.objects| && !Above(c, tMax)
    ensures HitPrefix(h, n, r, tMin, Finite(c), sqrt)
         == (var full := HitPrefix(h, n, r, tMin, tMax, sqrt);
             if full.Some? && full.value.t <= c then full else None)
    decreases h, n
  {
    if n > 0 {
      var o := h.objects[n - 1];
      var prev := HitPrefix(h, n - 1, r, tMin, tMax, sqrt);
      HitPrefixNarrowed(h, n - 1, r, tMin, tMax, c, sqrt);
      HitPrefixInWindow(h, n - 1, r, tMin, tMax, sqrt);
      HitObjectInWindow(o, r, tMin, ClosestSoFar(prev, tMax), sqrt);
      HitObjectNarrowed(o, r, tMin, tMax, c, sqrt);
      if prev.Some? {
        HitObjectNarrowed(o, r, tMin, tMax, prev.value.t, sqrt);
        if prev.value.t <= c {
          HitObjectNarrowed(o, r, tMin, Finite(c), prev.value.t, sqrt);
        }
      }
    }
  }

  // ---------------------------------------------------------------- closest hit

  /**
    The aggregate is the closest hit among the objects: no object hits nearer
    within the window, the result is exactly the record the winning object
    reports for the whole window, among objects hitting at the same `t` the
    last one wins, and there is no result only if no object hits at all.
  */
  lemma {:induction false} HitPrefixIsClosest(h: Hittable, n: nat, r: Ray, tMin: real, tMax: Bound, sqrt: real -> real)
    requires IsSqrt(sqrt) && h.HList? && ValidHittable(h) && n <= |h.objects|
    ensures var res := HitPrefix(h, n, r, tMin, tMax, sqrt);
      && (res == None <==> NoneHits(h, n, r, tMin, tMax, sqrt))
      && (res.Some? ==>
            exists w :: 0 <= w < n && FullHit(h, w, r, tMin, tMax, sqrt) == res
              && NoneNearer(h, 0, n, res.value.t, r, tMin, tMax, sqrt)
              && NoneAsNear(h, w + 1, n, res.value.t, r, tMin, tMax, sqrt))
    decreases n
  {
    if n > 0 {
      var prev := HitPrefix(h, n - 1, r, tMin, tMax, sqrt);
      var res := HitPrefix(h, n, r, tMin, tMax, sqrt);
      var full := FullHit(h, n - 1, r, tMin, tMax, sqrt);
      HitPrefixIsClosest(h, n - 1, r, tMin, tMax, sqrt);
      HitPrefixInWindow(h, n - 1, r, tMin, tMax, sqrt);
      if prev.Some? {
        HitObjectNarrowed(h.objects[n - 1], r, tMin, tMax, prev.value.t, sqrt);
        var w :| 0 <= w < n - 1 && FullHit(h, w, r, tMin, tMax, sqrt) == prev
              && NoneNearer(h, 0, n - 1, prev.value.t, r, tMin, tMax, sqrt)
              && NoneAsNear(h, w + 1, n - 1, prev.value.t, r, tMin, tMax, sqrt);
        if full.Some? && full.value.t <= prev.value.t {
          assert res == full;
          NearerObjectWins(h, n, prev.value.t, r, tMin, tMax, sqrt);
        } else {
          assert res == prev;
          FartherObjectLoses(h, n, w, prev.value.t, r, tMin, tMax, sqrt);
          assert !NoneHits(h, n, r, tMin, tMax, sqrt) by { assert FullHit(h, w, r, tMin, tMax, sqrt).Some?; }
        }
      } else {
        assert res == full;
        if res.Some? {
          NearerObjectWins(h, n, res.value.t, r, tMin, tMax, sqrt);
        }
      }
    }
  }

  /** No object among the first `n` hits in the window. */
  predicate NoneHits(h: Hittable, n: nat, r: Ray, tMin: real, tMax: Bound, sqrt: real -> real)
    requires h.HList? && ValidHittable(h) && n <= |h.objects|
  {
    forall i :: 0 <= i < n ==> FullHit(h, i, r, tMin, tMax, sqrt) == None
  }

  /** No object with index in `[lo, hi)` hits the window nearer than `t`. */
  predicate NoneNearer(h: Hittable, lo: nat, hi: nat, t: real, r: Ray, tMin: real, tMax: Bound, sqrt: real -> real)
    requires h.HList? && ValidHittable(h) && hi <= |h.objects|
  {
    forall i :: lo <= i < hi && FullHit(h, i, r, tMin, tMax, sqrt).Some? ==>
      t <= FullHit(h, i, r, tMin, tMax, sqrt).value.t
  }

  /** No object with index in `[lo, hi)` hits the window as near as `t`. */
  predicate NoneAsNear(h: Hittable, lo: nat, hi: nat, t: real, r: Ray, tMin: real, tMax: Bound, sqrt: real -> real)
    requires h.HList? && ValidHittable(h) && hi <= |h.objects|
  {
    forall i :: lo <= i < hi && FullHit(h, i, r, tMin, tMax, sqrt).Some? ==>
      t < FullHit(h, i, r, tMin, tMax, sqrt).value.t
  }

  /** An object hitting no farther than every earlier one becomes the closest so far. */
  lemma NearerObjectWins(h: Hittable, n: nat, t: real, r: Ray, tMin: real, tMax: Bound, sqrt: real -> real)
    requires h.HList? && ValidHittable(h) && 0 < n <= |h.objects|
    requires FullHit(h, n - 1, r, tMin, tMax, sqrt).Some?
    requires FullHit(h, n - 1, r, tMin, tMax, sqrt).value.t <= t && NoneNearer(h, 0, n - 1, t, r, tMin, tMax, sqrt)
    ensures NoneNearer(h, 0, n, FullHit(h, n - 1, r, tMin, tMax, sqrt).value.t, r, tMin, tMax, sqrt)
    ensures NoneAsNear(h, n, n, FullHit(h, n - 1, r, tMin, tMax, sqrt).value.t, r, tMin, tMax, sqrt)
  {
  }

  /** An object that misses, or hits strictly farther, leaves the closest so far in place. */
  lemma FartherObjectLoses(h: Hittable, n: nat, w: nat, t: real, r: Ray, tMin: real, tMax: Bound, sqrt: real -> real)
    requires h.HList? && ValidHittable(h) && w < n - 1 && n <= |h.objects|
    requires FullHit(h, n - 1, r, tMin, tMax, sqrt).Some? ==> t < FullHit(h, n - 1, r, tMin, tMax, sqrt).value.t
    requires NoneNearer(h, 0, n - 1, t, r, tMin, tMax, sqrt) && NoneAsNear(h, w + 1, n - 1, t, r, tMin, tMax, sqrt)
    ensures NoneNearer(h, 0, n, t, r, tMin, tMax, sqrt) && NoneAsNear(h, w + 1, n, t, r, tMin, tMax, sqrt)
  {
  }

  /** The closest-hit property for a whole list object. */
  lemma ListHitIsClosest(objects: seq<Hittable>, r: Ray, tMin: real, tMax: Bound, sqrt: real -> real)
    requires IsSqrt(sqrt) && ValidHittable(HList(objects))
    ensures var res := HitObject(HList(objects), r, tMin, tMax, sqrt);
      && (res == None <==> forall i :: 0 <= i < |objects| ==> HitObject(objects[i], r, tMin, tMax, sqrt) == None)
      && (res.Some? ==>
            exists w :: 0 <= w < |objects| && HitObject(objects[w], r, tMin, tMax, sqrt) == res
              && (forall i :: 0 <= i < |objects| && HitObject(objects[i], r, tMin, tMax, sqrt).Some? ==>
                    res.value.t <= HitObject(objects[i], r, tMin, tMax, sqrt).value.t)
              && (forall i :: w < i < |objects| && HitObject(objects[i], r, tMin, tMax, sqrt).Some? ==>
                    res.value.t < HitObject(objects[i], r, tMin, tMax, sqrt).value.t))
  {
    var h := HList(objects);
    var res := HitObject(h, r, tMin, tMax, sqrt);
    assert res == HitPrefix(h, |objects|, r, tMin, tMax, sqrt);
    HitPrefixIsClosest(h, |objects|, r, tMin, tMax, sqrt);
    forall i | 0 <= i < |objects|
      ensures FullHit(h, i, r, tMin, tMax, sqrt) == HitObject(objects[i], r, tMin, tMax, sqrt)
    {
    }
    if res.Some? {
      var w :| 0 <= w < |objects| && FullHit(h, w, r, tMin, tMax, sqrt) == res
              && NoneNearer(h, 0, |objects|, res.value.t, r, tMin, tMax, sqrt)
              && NoneAsNear(h, w + 1, |objects|, res.value.t, r, tMin, tMax, sqrt);
      assert HitObject(objects[w], r, tMin, tMax, sqrt) == res;
    }
  }

  /**
    Two objects that hit at the same `t`: the later one's record is the result,
    since a sphere accepts `t == t_max`.
  */
  lemma LaterTieWins(a: Hittable, b: Hittable, r: Ray, tMin: real, tMax: Bound, sqrt: real -> real)
    requires IsSqrt(sqrt) && ValidHittable(a) && ValidHittable(b)
    requires HitObject(a, r, tMin, tMax, sqrt).Some? && HitObject(b, r, tMin, tMax, sqrt).Some?
    requires HitObject(a, r, tMin, tMax, sqrt).value.t == HitObject(b, r, tMin, tMax, sqrt).value.t
    ensures HitObject(HList([a, b]), r, tMin, tMax, sqrt) == HitObject(b, r, tMin, tMax, sqrt)
  {
    var h := HList([a, b]);
    assert h.objects[0] == a && h.objects[1] == b;
    assert HitPrefix(h, 0, r, tMin, tMax, sqrt) == None;
    var first := HitPrefix(h, 1, r, tMin, tMax, sqrt);
    assert first == HitObject(a, r, tMin, tMax, sqrt);
    HitObjectInWindow(a, r, tMin, tMax, sqrt);
    HitObjectNarrowed(b, r, tMin, tMax, first.value.t, sqrt);
  }

  // ---------------------------------------------------------------- materials

  /** `m` is the material of some sphere of the scene. */
  predicate MaterialInScene(m: Material, h: Hittable)
    decreases h
  {
    match h
    case HSphere(s) => s.mat == m
    case HList(objects) => exists i :: 0 <= i < |objects| && MaterialInScene(m, objects[i])
  }

  /** A record always carries the material of the sphere that was hit. */
  lemma {:induction false} HitObjectMaterial(h: Hittable, r: Ray, tMin: real, tMax: Bound, sqrt: real -> real)
    requires ValidHittable(h)
    ensures HitObject(h, r, tMin, tMax, sqrt).Some? ==> MaterialInScene(HitObject(h, r, tMin, tMax, sqrt).value.mat, h)
    decreases h, if h.HList? then |h.objects| + 1 else 0
  {
    match h
    case HSphere(s) =>
      if Spheres.Hit(s, r, tMin, tMax, sqrt).Some? {
        HitRecordContents(s, r, tMin, tMax, sqrt);
      }
    case HList(objects) =>
      HitPrefixMaterial(h, |objects|, r, tMin, tMax, sqrt);
  }

  lemma {:induction false} HitPrefixMaterial(h: Hittable, n: nat, r: Ray, tMin: real, tMax: Bound, sqrt: real -> real)
    requires h.HList? && ValidHittable(h) && n <= |h.objects|
    ensures var res := HitPrefix(h, n, r, tMin, tMax, sqrt);
      res.Some? ==> exists i :: 0 <= i < n && MaterialInScene(res.value.mat, h.objects[i])
    decreases h, n
  {
    if n > 0 {
      var tempRec := HitPrefix(h, n - 1, r, tMin, tMax, sqrt);
      HitPrefixMaterial(h, n - 1, r, tMin, tMax, sqrt);
      HitObjectMaterial(h.objects[n - 1], r, tMin, ClosestSoFar(tempRec, tMax), sqrt);
    }
  }

  /** The materials of a valid scene are valid. */
  lemma {:induction false} SceneMaterialValid(m: Material, h: Hittable)
    requires ValidHittable(h) && MaterialInScene(m, h)
    ensures ValidMaterial(m)
    decreases h
  {
    match h
    case HSphere(s) =>
    case HList(objects) =>
      var i :| 0 <= i < |objects| && MaterialInScene(m, objects[i]);
      SceneMaterialValid(m, objects[i]);
  }

  // ---------------------------------------------------------------- the list object

  /** `HittableList`: a growable vector of scene objects. */
  class HittableList {
    var objects: seq<Hittable>

    /** `new_empty`. */
    constructor NewEmpty()
      ensures objects == []
    {
      objects := [];
    }

    /** `from_hittable`: a list holding exactly the given object. */
    constructor FromHittable(obj: Hittable)
      ensures objects == [obj]
    {
      objects := [obj];
    }

    /** `add`: appends at the end; earlier objects are unchanged. */
    method Add(obj: Hittable)
      modifies this
      ensures objects == old(objects) + [obj]
      ensures |objects| == |old(objects)| + 1 && objects[..|old(objects)|] == old(objects)
    {
      objects := objects + [obj];
    }

    /** `clear`. */
    method Clear()
      modifies this
      ensures objects == []
    {
      objects := [];
    }

    /** The list seen as a scene object. */
    function AsHittable(): Hittable
      reads this
    {
      HList(objects)
    }

    /**
      `Hittable::hit` for the list: visits the objects in insertion order,
      asking each for a hit no farther than `closest_so_far`.
    */
    method Hit(r: Ray, tMin: real, tMax: Bound, sqrt: real -> real) returns (rec: Option<HitRecord>)
      requires ValidHittable(HList(objects))
      ensures rec == HitObject(HList(objects), r, tMin, tMax, sqrt)
    {
      var tempRec: Option<HitRecord> := None;
      var closestSoFar := tMax;
      for i := 0 to |objects|
        invariant tempRec == HitPrefix(HList(objects), i, r, tMin, tMax, sqrt)
        invariant closestSoFar == ClosestSoFar(tempRec, tMax)
      {
        var hitRec := HitObject(objects[i], r, tMin, closestSoFar, sqrt);
        if hitRec.Some? {
          closestSoFar := Finite(hitRec.value.t);
          tempRec := hitRec;
        }
      }
      return tempRec;
    }
  }
}
