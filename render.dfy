/**
  The sequential parts of `render` (src/renderer/raytracer.rs, src/raytracer.rs)
  and `main` (src/main.rs): the sum of a pixel's samples, and the final pass
  that writes the matrix of accumulated colours into the image with its rows
  flipped, row `j` of the matrix becoming image row `height - 1 - j`. The
  parallel computation of the matrix is not modelled; its result is an input.
*/
module Rendering {
  import opened RtWeekend
  import opened Vectors
  import opened Rays
  import opened HittableLists
  import opened Scattering
  import opened Cameras
  import opened Colours
  import opened LegacyColours
  import opened Radiance

  /** The random numbers of one sample: the pixel jitter, the lens sample and the bounces' draws. */
  datatype SampleDraw = SampleDraw(du: real, dv: real, diskSample: Vec3, bounces: seq<ScatterDraw>)

  /** The colour one sample of pixel `(i, j)` contributes. */
  function SampleColour(cam: Camera, world: Hittable, i: int, j: int, width: int, height: int,
                        maxDepth: int, tMax: Bound, d: SampleDraw, sqrt: real -> real): Colour
    requires ValidHittable(world) && width > 1 && height > 1 && maxDepth <= |d.bounces|
  {
    var u := (i as real + d.du) / (width - 1) as real;
    var v := (j as real + d.dv) / (height - 1) as real;
    RayColour(GetRay(cam, u, v, d.diskSample), world, maxDepth, tMax, d.bounces, sqrt)
  }

  predicate DrawsCoverDepth(samples: seq<SampleDraw>, maxDepth: int) {
    forall k :: 0 <= k < |samples| ==> maxDepth <= |samples[k].bounces|
  }

  /** The sum of the first `n` samples' colours. */
  function SampleSum(cam: Camera, world: Hittable, i: int, j: int, width: int, height: int,
                     maxDepth: int, tMax: Bound, samples: seq<SampleDraw>, n: nat, sqrt: real -> real): Colour
    requires ValidHittable(world) && width > 1 && height > 1 && DrawsCoverDepth(samples, maxDepth) && n <= |samples|
  {
    if n == 0 then Zero
    else Add(SampleSum(cam, world, i, j, width, height, maxDepth, tMax, samples, n - 1, sqrt),
             SampleColour(cam, world, i, j, width, height, maxDepth, tMax, samples[n - 1], sqrt))
  }

  /** The per-pixel loop `for _ in 0..samples_per_pixel { pixel_colour += ray_colour(...) }`. */
  method PixelColour(cam: Camera, world: Hittable, i: int, j: int, width: int, height: int,
                     maxDepth: int, tMax: Bound, samples: seq<SampleDraw>, sqrt: real -> real)
    returns (pixel: Colour)
    requires ValidHittable(world) && width > 1 && height > 1 && DrawsCoverDepth(samples, maxDepth)
    ensures pixel == SampleSum(cam, world, i, j, width, height, maxDepth, tMax, samples, |samples|, sqrt)
  {
    pixel := Zero;
    for k := 0 to |samples|
      invariant pixel == SampleSum(cam, world, i, j, width, height, maxDepth, tMax, samples, k, sqrt)
    {
      var d := samples[k];
      var u := (i as real + d.du) / (width - 1) as real;
      var v := (j as real + d.dv) / (height - 1) as real;
      var r := GetRay(cam, u, v, d.diskSample);
      pixel := Add(pixel, RayColour(r, world, maxDepth, tMax, d.bounces, sqrt));
    }
  }

  /** Every component of `c` lies in `[0, m]`. */
  predicate WithinBox(c: Colour, m: real) {
    0.0 <= c.x <= m && 0.0 <= c.y <= m && 0.0 <= c.z <= m
  }

  /**
    With every albedo of the scene in the unit cube, each component of the sum
    of `n` samples lies in `[0, n]`; so dividing by the sample count, as
    `drawn_colour` does, gives a component in `[0, 1]`.
  */
  lemma {:induction false} SampleSumBounded(cam: Camera, world: Hittable, i: int, j: int, width: int, height: int,
                                            maxDepth: int, tMax: Bound, samples: seq<SampleDraw>, n: nat, sqrt: real -> real)
    requires IsSqrt(sqrt) && ValidHittable(world) && SceneAlbedosInUnitCube(world)
    requires width > 1 && height > 1 && DrawsCoverDepth(samples, maxDepth) && n <= |samples|
    ensures WithinBox(SampleSum(cam, world, i, j, width, height, maxDepth, tMax, samples, n, sqrt), n as real)
  {
    if n > 0 {
      SampleSumBounded(cam, world, i, j, width, height, maxDepth, tMax, samples, n - 1, sqrt);
      var d := samples[n - 1];
      var prev := SampleSum(cam, world, i, j, width, height, maxDepth, tMax, samples, n - 1, sqrt);
      var c := SampleColour(cam, world, i, j, width, height, maxDepth, tMax, d, sqrt);
      SampleColourInUnitCube(cam, world, i, j, width, height, maxDepth, tMax, d, sqrt);
      AddUnitCubeBound(prev, c, (n - 1) as real);
      assert SampleSum(cam, world, i, j, width, height, maxDepth, tMax, samples, n, sqrt) == Add(prev, c);
      assert (n - 1) as real + 1.0 == n as real;
    }
  }

  /** With every albedo of the scene in the unit cube, so is every sample's colour. */
  lemma SampleColourInUnitCube(cam: Camera, world: Hittable, i: int, j: int, width: int, height: int,
                               maxDepth: int, tMax: Bound, d: SampleDraw, sqrt: real -> real)
    requires IsSqrt(sqrt) && ValidHittable(world) && SceneAlbedosInUnitCube(world)
    requires width > 1 && height > 1 && maxDepth <= |d.bounces|
    ensures InUnitCube(SampleColour(cam, world, i, j, width, height, maxDepth, tMax, d, sqrt))
  {
    var u := (i as real + d.du) / (width - 1) as real;
    var v := (j as real + d.dv) / (height - 1) as real;
    RayColourInUnitCube(GetRay(cam, u, v, d.diskSample), world, maxDepth, tMax, d.bounces, sqrt);
  }

  /** Adding a colour of the unit cube to one within `[0, m]` gives one within `[0, m + 1]`. */
  lemma AddUnitCubeBound(s: Colour, c: Colour, m: real)
    requires WithinBox(s, m) && InUnitCube(c)
    ensures WithinBox(Add(s, c), m + 1.0)
  {
  }

  /**
    The final pass of src/renderer/raytracer.rs: pixel `i` of matrix row `j`
    goes to image pixel `(i, height - 1 - j)` through `write_to_img`, so every
    pixel of the image is written, from the matrix row mirrored about the middle.
  */
  method WriteFlipped(img: array2<seq<byte>>, matrix: seq<seq<Colour>>, samplesPerPixel: nat, sqrt: real -> real)
    requires samplesPerPixel > 0
    requires img.Length1 == |matrix| && forall j :: 0 <= j < |matrix| ==> |matrix[j]| == img.Length0
    modifies img
    ensures forall i, y :: 0 <= i < img.Length0 && 0 <= y < img.Length1 ==>
      img[i, y] == DrawnColour(matrix[img.Length1 - 1 - y][i], samplesPerPixel, sqrt)
  {
    var height := |matrix|;
    for j := 0 to height
      invariant forall i, y :: 0 <= i < img.Length0 && height - j <= y < height ==>
        img[i, y] == DrawnColour(matrix[height - 1 - y][i], samplesPerPixel, sqrt)
    {
      var row := matrix[j];
      for i := 0 to |row|
        invariant forall i', y :: 0 <= i' < img.Length0 && height - j <= y < height ==>
          img[i', y] == DrawnColour(matrix[height - 1 - y][i'], samplesPerPixel, sqrt)
        invariant forall i' :: 0 <= i' < i ==>
          img[i', height - 1 - j] == DrawnColour(matrix[j][i'], samplesPerPixel, sqrt)
      {
        WriteToImg(img, row[i], samplesPerPixel, i, height - 1 - j, sqrt);
      }
    }
  }

  /**
    The same pass in src/raytracer.rs and src/main.rs, through the older
    `write_to_img` with an `i32` sample count.
  */
  method LegacyWriteFlipped(img: array2<seq<byte>>, matrix: seq<seq<Colour>>, samplesPerPixel: int, sqrt: real -> real)
    requires samplesPerPixel != 0
    requires img.Length1 == |matrix| && forall j :: 0 <= j < |matrix| ==> |matrix[j]| == img.Length0
    modifies img
    ensures forall i, y :: 0 <= i < img.Length0 && 0 <= y < img.Length1 ==>
      img[i, y] == LegacyGammaColour(matrix[img.Length1 - 1 - y][i], samplesPerPixel, sqrt)
  {
    var height := |matrix|;
    for j := 0 to height
      invariant forall i, y :: 0 <= i < img.Length0 && height - j <= y < height ==>
        img[i, y] == LegacyGammaColour(matrix[height - 1 - y][i], samplesPerPixel, sqrt)
    {
      var row := matrix[j];
      for i := 0 to |row|
        invariant forall i', y :: 0 <= i' < img.Length0 && height - j <= y < height ==>
          img[i', y] == LegacyGammaColour(matrix[height - 1 - y][i'], samplesPerPixel, sqrt)
        invariant forall i' :: 0 <= i' < i ==>
          img[i', height - 1 - j] == LegacyGammaColour(matrix[j][i'], samplesPerPixel, sqrt)
      {
        LegacyWriteToImg(img, row[i], samplesPerPixel, i, height - 1 - j, sqrt);
      }
    }
  }
}
