/**
  The scenes the drivers build: `random_scene` (src/renderer/raytracer.rs and
  its older copy in src/raytracer.rs), a ground sphere, up to one small sphere
  per cell of a 22 by 22 grid, and three large feature spheres; and the
  hand-built five-sphere world of src/main.rs. Both are built by successive
  `add` calls on a `HittableList`. The random numbers of each grid cell are
  given in advance.
*/
module Scenes {
  import opened Wrappers
  import opened RtWeekend
  import opened Vectors
  import opened Materials
  import opened Spheres
  import opened HittableLists

  /** Which copy of `random_scene`: they differ only in the diffuse spheres' displacement. */
  datatype Snapshot = Renderer | Legacy

  /**
    The random numbers one grid cell consumes: `choose_mat`, the two jitters of
    the centre, and those of the material branch taken (a diffuse sphere's
    vertical hop and the two `random_vec3` whose product is its albedo; a
    metal sphere's `random_vec3` albedo and its fuzz).
  */
  datatype CellDraw = CellDraw(chooseMat: real, jitterX: real, jitterZ: real, hop: real,
                               albedo1: Colour, albedo2: Colour, fuzz: real)

  /** The ranges the draws come from: `[0, 1)` for `rand::random`, `[0, 0.5)` for `gen_range(0.0..0.5)`. */
  predicate DrawInRange(d: CellDraw) {
    && 0.0 <= d.chooseMat < 1.0 && 0.0 <= d.jitterX < 1.0 && 0.0 <= d.jitterZ < 1.0
    && 0.0 <= d.hop < 0.5 && 0.0 <= d.fuzz < 0.5
  }

  /** `a` and `b` each run over `-11..11`. */
  const GridSide: nat := 22
  const CellCount: nat := 484

  /** The grid cell visited `k`-th, `a` major: `k == (a + 11) * 22 + (b + 11)`. */
  function CellA(k: nat): int { k / GridSide - 11 }
  function CellB(k: nat): int { k % GridSide - 11 }

  const GroundMaterial: Material := Lambertian(Vec3(0.5, 0.5, 0.5))
  const Ground: Hittable := HSphere(NewStationary(Vec3(0.0, -1000.0, 0.0), 1000.0, GroundMaterial))

  /** The three radius-1 feature spheres, in the order they are added: glass, diffuse, metal. */
  const Features: seq<Hittable> := [
    HSphere(Sphere(Vec3(0.0, 1.0, 0.0), Zero, 1.0, Dielectric(1.5))),
    HSphere(Sphere(Vec3(-4.0, 1.0, 0.0), Zero, 1.0, Lambertian(Vec3(0.4, 0.2, 0.1)))),
    HSphere(Sphere(Vec3(4.0, 1.0, 0.0), Zero, 1.0, Metal(Vec3(0.7, 0.6, 0.5), 0.0)))
  ]

  /** No small sphere is placed within 0.9 of this point, where the metal feature sphere stands. */
  const KeepClear: Point3 := Vec3(4.0, 0.2, 0.0)

  function CellCentre(a: int, b: int, d: CellDraw): Point3 {
    Vec3(a as real + d.jitterX * 0.9, 0.2, b as real + d.jitterZ * 0.9)
  }

  /** `(centre - (4, 0.2, 0)).norm() > 0.9`. */
  predicate FarFromFeature(centre: Point3, sqrt: real -> real) {
    sqrt(LengthSquared(Sub(centre, KeepClear))) > 0.9
  }

  /** Diffuse below 0.75, metal below 0.92, glass otherwise. */
  function CellMaterial(d: CellDraw): Material {
    if d.chooseMat < 0.75 then Lambertian(Mul(d.albedo1, d.albedo2))
    else if d.chooseMat < 0.92 then Metal(d.albedo1, d.fuzz)
    else Dielectric(1.5)
  }

  /** src/renderer/raytracer.rs: a diffuse sphere hops straight up by `hop` over one time unit. */
  function DiffuseDisplacement(centre: Point3, hop: real): Vec3 {
    Vec3(0.0, hop, 0.0)
  }

  /** src/raytracer.rs: the diffuse displacement is `centre + (0, hop, 0)`. */
  function LegacyDiffuseDisplacement(centre: Point3, hop: real): Vec3 {
    Add(centre, Vec3(0.0, hop, 0.0))
  }

  function CellDisplacement(snapshot: Snapshot, centre: Point3, d: CellDraw): Vec3 {
    if d.chooseMat < 0.75 then
      match snapshot
      case Renderer => DiffuseDisplacement(centre, d.hop)
      case Legacy => LegacyDiffuseDisplacement(centre, d.hop)
    else Zero
  }

  /** The small sphere of cell `(a, b)`, if its centre is far enough from the metal feature sphere. */
  function CellSphere(snapshot: Snapshot, a: int, b: int, d: CellDraw, sqrt: real -> real): Option<Sphere> {
    var centre := CellCentre(a, b, d);
    if FarFromFeature(centre, sqrt) then Some(Sphere(centre, CellDisplacement(snapshot, centre, d), 0.2, CellMaterial(d)))
    else None
  }

  /** The small spheres of the first `k` cells, in the order they are added. */
  function SmallSpheres(snapshot: Snapshot, draws: seq<CellDraw>, k: nat, sqrt: real -> real): seq<Hittable>
    requires k <= |draws|
  {
    if k == 0 then []
    else
      var prev := SmallSpheres(snapshot, draws, k - 1, sqrt);
      var s := CellSphere(snapshot, CellA(k - 1), CellB(k - 1), draws[k - 1], sqrt);
      if s.Some? then prev + [HSphere(s.value)] else prev
  }

  /** The objects `random_scene` adds, in order. */
  function RandomSceneObjects(snapshot: Snapshot, draws: seq<CellDraw>, sqrt: real -> real): seq<Hittable>
    requires |draws| == CellCount
  {
    [Ground] + SmallSpheres(snapshot, draws, CellCount, sqrt) + Features
  }

  lemma CellOfIndex(a: int, b: int)
    requires -11 <= a < 11 && -11 <= b < 11
    ensures 0 <= (a + 11) * GridSide + (b + 11) < CellCount
    ensures CellA((a + 11) * GridSide + (b + 11)) == a && CellB((a + 11) * GridSide + (b + 11)) == b
  {
  }

  lemma SmallSpheresStep(snapshot: Snapshot, draws: seq<CellDraw>, k: nat, sqrt: real -> real)
    requires k < |draws|
    ensures var s := CellSphere(snapshot, CellA(k), CellB(k), draws[k], sqrt);
      SmallSpheres(snapshot, draws, k + 1, sqrt)
        == SmallSpheres(snapshot, draws, k, sqrt) + (if s.Some? then [HSphere(s.value)] else [])
  {
  }

  /** One pass of the inner loop of `random_scene`: adds the cell's sphere, if it has one. */
  method AddCellSphere(world: HittableList, snapshot: Snapshot, a: int, b: int, d: CellDraw, sqrt: real -> real)
    modifies world
    ensures var s := CellSphere(snapshot, a, b, d, sqrt);
      world.objects == old(world.objects) + (if s.Some? then [HSphere(s.value)] else [])
  {
    var centre := CellCentre(a, b, d);
    if sqrt(LengthSquared(Sub(centre, KeepClear))) > 0.9 {
      var displacement := Zero;
      var sphereMaterial;
      if d.chooseMat < 0.75 {
        displacement := match snapshot
          case Renderer => DiffuseDisplacement(centre, d.hop)
          case Legacy => LegacyDiffuseDisplacement(centre, d.hop);
        sphereMaterial := Lambertian(Mul(d.albedo1, d.albedo2));
      } else if d.chooseMat < 0.92 {
        sphereMaterial := Metal(d.albedo1, d.fuzz);
      } else {
        sphereMaterial := Dielectric(1.5);
      }
      world.Add(HSphere(Sphere(centre, displacement, 0.2, sphereMaterial)));
    }
  }

  /** The inner loop of `random_scene`: the cells `(a, -11)` to `(a, 10)`, in order. */
  method AddGridRow(world: HittableList, snapshot: Snapshot, draws: seq<CellDraw>, a: int, sqrt: real -> real)
    requires |draws| == CellCount && -11 <= a < 11
    requires world.objects == [Ground] + SmallSpheres(snapshot, draws, (a + 11) * GridSide, sqrt)
    modifies world
    ensures world.objects == [Ground] + SmallSpheres(snapshot, draws, (a + 11) * GridSide + GridSide, sqrt)
  {
    var base := (a + 11) * GridSide;
    for b := -11 to 11
      invariant world.objects == [Ground] + SmallSpheres(snapshot, draws, base + (b + 11), sqrt)
    {
      CellOfIndex(a, b);
      AddCellSphere(world, snapshot, a, b, draws[base + (b + 11)], sqrt);
      SmallSpheresStep(snapshot, draws, base + (b + 11), sqrt);
    }
  }

  /**
    `random_scene`: the ground, then one pass over the grid adding the small
    sphere of each cell that has one, then the three feature spheres.
  */
  method RandomScene(snapshot: Snapshot, draws: seq<CellDraw>, sqrt: real -> real) returns (world: HittableList)
    requires |draws| == CellCount
    ensures fresh(world)
    ensures world.objects == RandomSceneObjects(snapshot, draws, sqrt)
  {
    world := new HittableList.NewEmpty();
    world.Add(Ground);
    for a := -11 to 11
      invariant world.objects == [Ground] + SmallSpheres(snapshot, draws, (a + 11) * GridSide, sqrt)
    {
      AddGridRow(world, snapshot, draws, a, sqrt);
    }
    assert world.objects == [Ground] + SmallSpheres(snapshot, draws, CellCount, sqrt);
    AddFeatures(world);
  }

  /** The last three `add` calls of `random_scene`: the feature spheres, glass, diffuse, metal. */
  method AddFeatures(world: HittableList)
    modifies world
    ensures world.objects == old(world.objects) + Features
  {
    world.Add(Features[0]);
    world.Add(Features[1]);
    world.Add(Features[2]);
  }

  // ---------------------------------------------------------------- scene shape

  /** At most one small sphere per cell. */
  lemma {:induction false} SmallSpheresAtMostOnePerCell(snapshot: Snapshot, draws: seq<CellDraw>, k: nat, sqrt: real -> real)
    requires k <= |draws|
    ensures |SmallSpheres(snapshot, draws, k, sqrt)| <= k
  {
    if k > 0 {
      SmallSpheresAtMostOnePerCell(snapshot, draws, k - 1, sqrt);
    }
  }

  /** `h` is the small sphere of one of the first `k` cells. */
  predicate FromCell(snapshot: Snapshot, draws: seq<CellDraw>, k: nat, h: Hittable, sqrt: real -> real)
    requires k <= |draws|
  {
    h.HSphere? && exists c :: 0 <= c < k && CellSphere(snapshot, CellA(c), CellB(c), draws[c], sqrt) == Some(h.sphere)
  }

  /** Every small sphere is the sphere of one of the cells visited. */
  lemma {:induction false} SmallSpheresFromCells(snapshot: Snapshot, draws: seq<CellDraw>, k: nat, sqrt: real -> real)
    requires k <= |draws|
    ensures forall i :: 0 <= i < |SmallSpheres(snapshot, draws, k, sqrt)| ==>
      FromCell(snapshot, draws, k, SmallSpheres(snapshot, draws, k, sqrt)[i], sqrt)
  {
    if k > 0 {
      SmallSpheresFromCells(snapshot, draws, k - 1, sqrt);
      var prev := SmallSpheres(snapshot, draws, k - 1, sqrt);
      var cur := SmallSpheres(snapshot, draws, k, sqrt);
      forall i | 0 <= i < |cur|
        ensures FromCell(snapshot, draws, k, cur[i], sqrt)
      {
        if i < |prev| {
          assert cur[i] == prev[i];
          assert FromCell(snapshot, draws, k - 1, prev[i], sqrt);
          var c :| 0 <= c < k - 1 && CellSphere(snapshot, CellA(c), CellB(c), draws[c], sqrt) == Some(prev[i].sphere);
        } else {
          var c := k - 1;
          assert CellSphere(snapshot, CellA(c), CellB(c), draws[c], sqrt) == Some(cur[i].sphere);
        }
      }
    }
  }

  /**
    The scene starts with the ground sphere at `(0, -1000, 0)` of radius 1000,
    ends with the three feature spheres in order, and holds at most
    `4 + 22 * 22` objects.
  */
  lemma RandomSceneShape(snapshot: Snapshot, draws: seq<CellDraw>, sqrt: real -> real)
    requires |draws| == CellCount
    ensures var objects := RandomSceneObjects(snapshot, draws, sqrt);
      && 4 <= |objects| <= 4 + GridSide * GridSide
      && objects[0] == HSphere(Sphere(Vec3(0.0, -1000.0, 0.0), Zero, 1000.0, Lambertian(Vec3(0.5, 0.5, 0.5))))
      && objects[|objects| - 3..] == Features
  {
    SmallSpheresAtMostOnePerCell(snapshot, draws, CellCount, sqrt);
    var objects := RandomSceneObjects(snapshot, draws, sqrt);
    assert objects[|objects| - 3..] == Features;
  }

  // ---------------------------------------------------------------- small spheres

  lemma SqrtAbove(sqrt: real -> real, x: real)
    requires IsSqrt(sqrt) && 0.0 <= x
    ensures sqrt(x) > 0.9 <==> x > 0.81
  {
    var s := sqrt(0.81);
    assert (s - 0.9) * (s + 0.9) == 0.0;
    NoZeroDivisors(s - 0.9, s + 0.9);
    if x > 0.81 {
      SqrtMonotone(sqrt, 0.81, x);
    } else {
      SqrtMonotone(sqrt, x, 0.81);
    }
  }

  /** A cell gets a sphere exactly when its centre is more than 0.9 from `(4, 0.2, 0)`. */
  lemma CellKeepsClear(snapshot: Snapshot, a: int, b: int, d: CellDraw, sqrt: real -> real)
    requires IsSqrt(sqrt)
    ensures CellSphere(snapshot, a, b, d, sqrt).Some? <==> LengthSquared(Sub(CellCentre(a, b, d), KeepClear)) > 0.81
  {
    LengthSquaredNonNegative(Sub(CellCentre(a, b, d), KeepClear));
    SqrtAbove(sqrt, LengthSquared(Sub(CellCentre(a, b, d), KeepClear)));
  }

  /**
    A small sphere has radius 0.2 and rests at height 0.2, inside its cell:
    `a <= x < a + 0.9` and `b <= z < b + 0.9`.
  */
  lemma CellSphereGeometry(snapshot: Snapshot, a: int, b: int, d: CellDraw, sqrt: real -> real)
    requires DrawInRange(d) && CellSphere(snapshot, a, b, d, sqrt).Some?
    ensures var s := CellSphere(snapshot, a, b, d, sqrt).value;
      && s.radius == 0.2 && s.centre0.y == 0.2
      && a as real <= s.centre0.x < a as real + 0.9
      && b as real <= s.centre0.z < b as real + 0.9
  {
  }

  /**
    The material thresholds: diffuse below 0.75 with the product of two draws
    as albedo; metal below 0.92 with fuzz in `[0, 0.5)`; glass of index 1.5
    otherwise.
  */
  lemma CellMaterialThresholds(d: CellDraw)
    requires DrawInRange(d)
    ensures d.chooseMat < 0.75 ==> CellMaterial(d) == Lambertian(Mul(d.albedo1, d.albedo2))
    ensures 0.75 <= d.chooseMat < 0.92 ==>
      (CellMaterial(d).Metal? && CellMaterial(d).albedo == d.albedo1 && 0.0 <= CellMaterial(d).fuzz < 0.5)
    ensures 0.92 <= d.chooseMat ==> CellMaterial(d) == Dielectric(1.5)
    ensures ValidMaterial(CellMaterial(d))
  {
  }

  /**
    Only diffuse spheres move: a metal or glass sphere is static, and a diffuse
    one (in src/renderer/raytracer.rs) hops straight up by `hop` between time
    0 and time 1.
  */
  lemma OnlyDiffuseSpheresMove(a: int, b: int, d: CellDraw, sqrt: real -> real, time: real)
    requires CellSphere(Renderer, a, b, d, sqrt).Some?
    ensures var s := CellSphere(Renderer, a, b, d, sqrt).value;
      && (0.75 <= d.chooseMat ==> SphereCentre(s, time) == s.centre0)
      && (d.chooseMat < 0.75 ==> SphereCentre(s, 1.0) == Vec3(s.centre0.x, s.centre0.y + d.hop, s.centre0.z))
  {
  }

  /**
    In src/raytracer.rs a diffuse sphere's displacement includes its own
    centre, so at time 1 it stands at `2 * centre + (0, hop, 0)`: the sphere of
    cell `(5, 0)` with zero jitter flies from `x = 5` to `x = 10`.
  */
  lemma LegacyDiffuseSphereDrifts(a: int, b: int, d: CellDraw, sqrt: real -> real)
    requires CellSphere(Legacy, a, b, d, sqrt).Some? && d.chooseMat < 0.75
    ensures var s := CellSphere(Legacy, a, b, d, sqrt).value;
      SphereCentre(s, 1.0) == Add(Scale(2.0, s.centre0), Vec3(0.0, d.hop, 0.0))
    ensures a == 5 && d.jitterX == 0.0 ==>
      (CellSphere(Legacy, a, b, d, sqrt).value.centre0.x == 5.0
       && SphereCentre(CellSphere(Legacy, a, b, d, sqrt).value, 1.0).x == 10.0)
  {
  }

  /** Every sphere of the scene has a non-zero radius and a valid material. */
  lemma RandomSceneIsValid(snapshot: Snapshot, draws: seq<CellDraw>, sqrt: real -> real)
    requires |draws| == CellCount
    ensures ValidHittable(HList(RandomSceneObjects(snapshot, draws, sqrt)))
  {
    var small := SmallSpheres(snapshot, draws, CellCount, sqrt);
    SmallSpheresFromCells(snapshot, draws, CellCount, sqrt);
    forall i | 0 <= i < |small|
      ensures ValidHittable(small[i])
    {
      assert FromCell(snapshot, draws, CellCount, small[i], sqrt);
      var c :| 0 <= c < CellCount && CellSphere(snapshot, CellA(c), CellB(c), draws[c], sqrt) == Some(small[i].sphere);
      assert ValidMaterial(CellMaterial(draws[c]));
    }
    var objects := RandomSceneObjects(snapshot, draws, sqrt);
    forall i | 0 <= i < |objects|
      ensures ValidHittable(objects[i])
    {
      if 1 <= i < 1 + |small| {
        assert objects[i] == small[i - 1];
      }
    }
  }

  // ---------------------------------------------------------------- src/main.rs

  const MaterialGround: Material := Lambertian(Vec3(0.8, 0.8, 0.0))
  const MaterialCentre: Material := Lambertian(Vec3(0.1, 0.2, 0.5))
  const MaterialLeft: Material := Dielectric(1.5)
  const MaterialRight: Material := Metal(Vec3(0.8, 0.6, 0.2), 0.0)

  /** The five spheres of src/main.rs, in the order they are added. */
  const FiveSpheres: seq<Hittable> := [
    HSphere(NewStationary(Vec3(0.0, -100.5, -1.0), 100.0, MaterialGround)),
    HSphere(NewStationary(Vec3(0.0, 0.0, -1.0), 0.5, MaterialCentre)),
    HSphere(NewStationary(Vec3(-1.0, 0.0, -1.0), 0.5, MaterialLeft)),
    HSphere(NewStationary(Vec3(-1.0, 0.0, -1.0), -0.4, MaterialLeft)),
    HSphere(NewStationary(Vec3(1.0, 0.0, -1.0), 0.5, MaterialRight))
  ]

  /** The world of src/main.rs, built by five `add` calls on an empty list. */
  method FiveSphereWorld() returns (world: HittableList)
    ensures fresh(world)
    ensures world.objects == FiveSpheres
  {
    world := new HittableList.NewEmpty();
    world.Add(HSphere(NewStationary(Vec3(0.0, -100.5, -1.0), 100.0, MaterialGround)));
    world.Add(HSphere(NewStationary(Vec3(0.0, 0.0, -1.0), 0.5, MaterialCentre)));
    world.Add(HSphere(NewStationary(Vec3(-1.0, 0.0, -1.0), 0.5, MaterialLeft)));
    world.Add(HSphere(NewStationary(Vec3(-1.0, 0.0, -1.0), -0.4, MaterialLeft)));
    world.Add(HSphere(NewStationary(Vec3(1.0, 0.0, -1.0), 0.5, MaterialRight)));
  }

  /**
    Five spheres, all valid; the two at `(-1, 0, -1)` share one glass material,
    the inner one with radius -0.4, which makes the pair a hollow glass shell.
  */
  lemma FiveSpheresShape()
    ensures |FiveSpheres| == 5 && ValidHittable(HList(FiveSpheres))
    ensures FiveSpheres[2].sphere.centre0 == FiveSpheres[3].sphere.centre0 == Vec3(-1.0, 0.0, -1.0)
    ensures FiveSpheres[2].sphere.mat == FiveSpheres[3].sphere.mat == Dielectric(1.5)
    ensures FiveSpheres[2].sphere.radius == 0.5 && FiveSpheres[3].sphere.radius == -0.4
  {
  }
}
