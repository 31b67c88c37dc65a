/**
  The older colour output (src/colour.rs), with an `i32` sample count:
  `write_colour` averages and quantises with no gamma correction and prints the
  channels as `i32`; `write_to_img` applies gamma 2 before quantising, as the
  newer `drawn_colour` does.
*/
module LegacyColours {
  import opened RtWeekend
  import opened Vectors
  import opened Colours

  /** `1. / samples_per_pixel as f64` for the `i32` sample count. */
  function SignedScale(samplesPerPixel: int): real
    requires samplesPerPixel != 0
  {
    1.0 / samplesPerPixel as real
  }

  /** One channel of the older `write_colour`: `(256. * clamp(c * scale, 0., 0.999)) as i32`. */
  function LinearChannel(c: real, samplesPerPixel: int): (v: int)
    requires samplesPerPixel != 0
    ensures 0 <= v <= 255
  {
    Quantise(c * SignedScale(samplesPerPixel)) as int
  }

  /** The three channels the older `write_colour` prints, red first. */
  function LinearColour(pixel: Colour, samplesPerPixel: int): (rgb: seq<byte>)
    requires samplesPerPixel != 0
    ensures |rgb| == 3
  {
    [LinearChannel(pixel.x, samplesPerPixel) as byte,
     LinearChannel(pixel.y, samplesPerPixel) as byte,
     LinearChannel(pixel.z, samplesPerPixel) as byte]
  }

  /** One channel of the older `write_to_img`: gamma 2 before quantising. */
  function LegacyGammaChannel(c: real, samplesPerPixel: int, sqrt: real -> real): byte
    requires samplesPerPixel != 0
  {
    Quantise(sqrt(c * SignedScale(samplesPerPixel)))
  }

  function LegacyGammaColour(pixel: Colour, samplesPerPixel: int, sqrt: real -> real): (rgb: seq<byte>)
    requires samplesPerPixel != 0
    ensures |rgb| == 3
  {
    [LegacyGammaChannel(pixel.x, samplesPerPixel, sqrt),
     LegacyGammaChannel(pixel.y, samplesPerPixel, sqrt),
     LegacyGammaChannel(pixel.z, samplesPerPixel, sqrt)]
  }

  /** The linear channel is the byte bucket of the averaged component: no square root is taken. */
  lemma LinearChannelIsAverage(c: real, samplesPerPixel: int)
    requires samplesPerPixel > 0
    requires 0.0 <= c <= 0.999 * samplesPerPixel as real
    ensures LinearChannel(c, samplesPerPixel) as real / 256.0 <= c / samplesPerPixel as real
    ensures c / samplesPerPixel as real < (LinearChannel(c, samplesPerPixel) as real + 1.0) / 256.0
  {
    var x := c * SignedScale(samplesPerPixel);
    assert x == c / samplesPerPixel as real;
    QuantiseBucket(x);
  }

  lemma LegacyGammaChannelAgrees(c: real, samplesPerPixel: int, sqrt: real -> real)
    requires samplesPerPixel > 0
    ensures LegacyGammaChannel(c, samplesPerPixel, sqrt) == GammaChannel(c, samplesPerPixel as nat, sqrt)
  {
    var signed := c * SignedScale(samplesPerPixel);
    var unsigned := c * SampleScale(samplesPerPixel as nat);
    assert signed == unsigned;
  }

  /** With a positive count, the older gamma path draws exactly what `drawn_colour` draws. */
  lemma LegacyGammaAgrees(pixel: Colour, samplesPerPixel: int, sqrt: real -> real)
    requires samplesPerPixel > 0
    ensures LegacyGammaColour(pixel, samplesPerPixel, sqrt) == DrawnColour(pixel, samplesPerPixel as nat, sqrt)
  {
    LegacyGammaChannelAgrees(pixel.x, samplesPerPixel, sqrt);
    LegacyGammaChannelAgrees(pixel.y, samplesPerPixel, sqrt);
    LegacyGammaChannelAgrees(pixel.z, samplesPerPixel, sqrt);
  }

  /**
    Gamma correction only brightens: for a non-negative component the gamma
    channel is never below the linear channel, because `sqrt(x) >= x` on `[0, 1]`
    and both saturate above 1.
  */
  lemma GammaBrightens(c: real, samplesPerPixel: int, sqrt: real -> real)
    requires IsSqrt(sqrt) && samplesPerPixel > 0 && 0.0 <= c
    ensures LinearChannel(c, samplesPerPixel) <= LegacyGammaChannel(c, samplesPerPixel, sqrt) as int
  {
    var x := c * SignedScale(samplesPerPixel);
    assert 0.0 <= x;
    var r := sqrt(x);
    assert 0.0 <= r && r * r == x;
    if r <= 1.0 {
      assert r * r <= r * 1.0;
      QuantiseMonotone(x, r);
    } else {
      SqrtAtLeastOne(sqrt, 1.0);
      QuantiseExtremes(r);
      QuantiseExtremes(x);
    }
  }

  /** A black pixel gives 0 in every channel of both older functions. */
  lemma LegacyZeroColourIsBlack(samplesPerPixel: int, sqrt: real -> real)
    requires IsSqrt(sqrt) && samplesPerPixel != 0
    ensures LinearColour(Zero, samplesPerPixel) == [0, 0, 0]
    ensures LegacyGammaColour(Zero, samplesPerPixel, sqrt) == [0, 0, 0]
  {
    SqrtFacts(sqrt, 0.0);
  }

  /** The older `write_colour`: appends the line of the linear channels. */
  method LegacyWriteColour(out: OutputStream, pixel: Colour, samplesPerPixel: int)
    requires samplesPerPixel != 0
    modifies out
    ensures out.written == old(out.written) + PpmLine(LinearColour(pixel, samplesPerPixel))
  {
    out.written := out.written + PpmLine(LinearColour(pixel, samplesPerPixel));
  }

  /** The older `write_to_img`: pixel `(posx, posy)` becomes the gamma colour and no other pixel changes. */
  method LegacyWriteToImg(img: array2<seq<byte>>, pixel: Colour, samplesPerPixel: int,
                          posx: int, posy: int, sqrt: real -> real)
    requires samplesPerPixel != 0
    requires 0 <= posx < img.Length0 && 0 <= posy < img.Length1
    modifies img
    ensures img[posx, posy] == LegacyGammaColour(pixel, samplesPerPixel, sqrt)
    ensures forall i, j :: 0 <= i < img.Length0 && 0 <= j < img.Length1 && (i != posx || j != posy) ==>
      img[i, j] == old(img[i, j])
  {
    img[posx, posy] := LegacyGammaColour(pixel, samplesPerPixel, sqrt);
  }
}
