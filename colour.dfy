/**
  Turning an accumulated pixel colour into bytes (src/util/colour.rs):
  `drawn_colour` divides by the sample count, applies gamma 2 (a square root),
  clamps to `[0, 0.999]`, scales by 256 and truncates to a byte;
  `drawn_colour_with_alpha` appends an opaque alpha byte; `write_to_img` stores
  the result in one pixel of an RGB image; `write_colour` prints it as one line
  of a PPM file.
*/
module Colours {
  import opened RtWeekend
  import opened Vectors
  import opened Wrappers

  /** `u8`. */
  newtype byte = x: int | 0 <= x < 256

  /** `num::clamp(x, lo, hi)` for `lo <= hi`. */
  function Clamp(x: real, lo: real, hi: real): (r: real)
    requires lo <= hi
    ensures lo <= r <= hi
    ensures lo <= x <= hi ==> r == x
  {
    if x < lo then lo else if x > hi then hi else x
  }

  /**
    `(256. * clamp(c, 0., 0.999)) as u8`. The product lies in `[0, 255.744]`,
    so the cast truncates without saturating, and truncation of a non-negative
    number is its floor.
  */
  function Quantise(c: real): byte {
    var v := 256.0 * Clamp(c, 0.0, 0.999);
    v.Floor as byte
  }

  /** `1. / samples_per_pixel as f64` for the `u32` sample count. */
  function SampleScale(samplesPerPixel: nat): real
    requires samplesPerPixel > 0
  {
    1.0 / samplesPerPixel as real
  }

  /** `c * scale`: the component averaged over the samples. */
  function Averaged(c: real, samplesPerPixel: nat): real
    requires samplesPerPixel > 0
  {
    c * SampleScale(samplesPerPixel)
  }

  /** One channel of `drawn_colour`: average, gamma-correct, quantise. */
  function GammaChannel(c: real, samplesPerPixel: nat, sqrt: real -> real): byte
    requires samplesPerPixel > 0
  {
    Quantise(sqrt(Averaged(c, samplesPerPixel)))
  }

  /** `drawn_colour`: the three gamma-corrected bytes, red first. */
  function DrawnColour(pixel: Colour, samplesPerPixel: nat, sqrt: real -> real): (rgb: seq<byte>)
    requires samplesPerPixel > 0
    ensures |rgb| == 3
  {
    [GammaChannel(pixel.x, samplesPerPixel, sqrt),
     GammaChannel(pixel.y, samplesPerPixel, sqrt),
     GammaChannel(pixel.z, samplesPerPixel, sqrt)]
  }

  /** `drawn_colour_with_alpha`: `drawn_colour` followed by the opaque alpha `0xFF`. */
  function DrawnColourWithAlpha(pixel: Colour, samplesPerPixel: nat, sqrt: real -> real): (rgba: seq<byte>)
    requires samplesPerPixel > 0
    ensures |rgba| == 4
    ensures rgba[..3] == DrawnColour(pixel, samplesPerPixel, sqrt)
    ensures rgba[3] == 0xFF
  {
    DrawnColour(pixel, samplesPerPixel, sqrt) + [0xFF]
  }

  /** Quantisation never decreases as its argument grows. */
  lemma QuantiseMonotone(a: real, b: real)
    requires a <= b
    ensures Quantise(a) <= Quantise(b)
  {
    var ca := Clamp(a, 0.0, 0.999);
    var cb := Clamp(b, 0.0, 0.999);
    assert ca <= cb;
    assert (256.0 * ca).Floor <= (256.0 * cb).Floor;
  }

  /**
    Quantisation puts `c` in bucket `k` of width `1/256`: the byte `k`
    satisfies `k/256 <= c < (k+1)/256` whenever `c` is in `[0, 0.999]`.
  */
  lemma QuantiseBucket(c: real)
    requires 0.0 <= c <= 0.999
    ensures Quantise(c) as real / 256.0 <= c < (Quantise(c) as real + 1.0) / 256.0
  {
    assert Clamp(c, 0.0, 0.999) == c;
  }

  /**
    The two ends of the byte range: the channel is 0 exactly below `1/256`,
    and 255 exactly from `255/256` on.
  */
  lemma QuantiseExtremes(c: real)
    ensures Quantise(c) == 0 <==> c < 1.0 / 256.0
    ensures Quantise(c) == 255 <==> c >= 255.0 / 256.0
  {
  }

  /** A square root at least 1 means a saturated channel; `sqrt(0) == 0` means a zero channel. */
  lemma GammaChannelEnds(c: real, samplesPerPixel: nat, sqrt: real -> real)
    requires IsSqrt(sqrt) && samplesPerPixel > 0
    ensures c == 0.0 ==> GammaChannel(c, samplesPerPixel, sqrt) == 0
    ensures samplesPerPixel as real <= c ==> GammaChannel(c, samplesPerPixel, sqrt) == 255
  {
    var x := Averaged(c, samplesPerPixel);
    SqrtFacts(sqrt, 0.0);
    if samplesPerPixel as real <= c {
      assert 1.0 <= x by {
        assert x == c / samplesPerPixel as real;
      }
      SqrtAtLeastOne(sqrt, x);
      QuantiseExtremes(sqrt(x));
    }
  }

  /** A channel is monotone in its own non-negative component. */
  lemma GammaChannelMonotone(a: real, b: real, samplesPerPixel: nat, sqrt: real -> real)
    requires IsSqrt(sqrt) && samplesPerPixel > 0
    requires 0.0 <= a <= b
    ensures GammaChannel(a, samplesPerPixel, sqrt) <= GammaChannel(b, samplesPerPixel, sqrt)
  {
    ScaledOrder(a, b, SampleScale(samplesPerPixel));
    SqrtMonotone(sqrt, Averaged(a, samplesPerPixel), Averaged(b, samplesPerPixel));
    QuantiseMonotone(sqrt(Averaged(a, samplesPerPixel)), sqrt(Averaged(b, samplesPerPixel)));
  }

  lemma ScaledOrder(a: real, b: real, s: real)
    requires 0.0 <= a <= b && 0.0 < s
    ensures 0.0 <= a * s <= b * s
  {
    MulNonNeg(a, s);
    MulNonNeg(b - a, s);
    assert b * s - a * s == (b - a) * s;
  }

  /** A black pixel is drawn as `[0, 0, 0]`. */
  lemma ZeroColourIsBlack(samplesPerPixel: nat, sqrt: real -> real)
    requires IsSqrt(sqrt) && samplesPerPixel > 0
    ensures DrawnColour(Zero, samplesPerPixel, sqrt) == [0, 0, 0]
  {
    GammaChannelEnds(0.0, samplesPerPixel, sqrt);
  }

  /** A component whose sum over the samples reaches the sample count is drawn as 255. */
  lemma BrightComponentSaturates(pixel: Colour, samplesPerPixel: nat, sqrt: real -> real)
    requires IsSqrt(sqrt) && samplesPerPixel > 0
    ensures samplesPerPixel as real <= pixel.x ==> DrawnColour(pixel, samplesPerPixel, sqrt)[0] == 255
    ensures samplesPerPixel as real <= pixel.y ==> DrawnColour(pixel, samplesPerPixel, sqrt)[1] == 255
    ensures samplesPerPixel as real <= pixel.z ==> DrawnColour(pixel, samplesPerPixel, sqrt)[2] == 255
  {
    GammaChannelEnds(pixel.x, samplesPerPixel, sqrt);
    GammaChannelEnds(pixel.y, samplesPerPixel, sqrt);
    GammaChannelEnds(pixel.z, samplesPerPixel, sqrt);
  }

  /** Each output byte depends on its own input component only. */
  lemma ChannelsIndependent(a: Colour, b: Colour, samplesPerPixel: nat, sqrt: real -> real)
    requires samplesPerPixel > 0
    ensures a.x == b.x ==> DrawnColour(a, samplesPerPixel, sqrt)[0] == DrawnColour(b, samplesPerPixel, sqrt)[0]
    ensures a.y == b.y ==> DrawnColour(a, samplesPerPixel, sqrt)[1] == DrawnColour(b, samplesPerPixel, sqrt)[1]
    ensures a.z == b.z ==> DrawnColour(a, samplesPerPixel, sqrt)[2] == DrawnColour(b, samplesPerPixel, sqrt)[2]
  {
  }

  /** A brighter (component-wise larger, non-negative) colour is never drawn darker. */
  lemma DrawnColourMonotone(a: Colour, b: Colour, samplesPerPixel: nat, sqrt: real -> real)
    requires IsSqrt(sqrt) && samplesPerPixel > 0
    requires 0.0 <= a.x <= b.x && 0.0 <= a.y <= b.y && 0.0 <= a.z <= b.z
    ensures forall i :: 0 <= i < 3 ==>
      DrawnColour(a, samplesPerPixel, sqrt)[i] <= DrawnColour(b, samplesPerPixel, sqrt)[i]
  {
    GammaChannelMonotone(a.x, b.x, samplesPerPixel, sqrt);
    GammaChannelMonotone(a.y, b.y, samplesPerPixel, sqrt);
    GammaChannelMonotone(a.z, b.z, samplesPerPixel, sqrt);
  }

  /**
    `write_to_img`: pixel `(posx, posy)` of the image (column, row) becomes the
    drawn colour and no other pixel changes. Outside the image `get_pixel_mut`
    panics, hence the bounds.
  */
  method WriteToImg(img: array2<seq<byte>>, pixel: Colour, samplesPerPixel: nat,
                    posx: int, posy: int, sqrt: real -> real)
    requires samplesPerPixel > 0
    requires 0 <= posx < img.Length0 && 0 <= posy < img.Length1
    modifies img
    ensures img[posx, posy] == DrawnColour(pixel, samplesPerPixel, sqrt)
    ensures forall i, j :: 0 <= i < img.Length0 && 0 <= j < img.Length1 && (i != posx || j != posy) ==>
      img[i, j] == old(img[i, j])
  {
    var rgb := DrawnColour(pixel, samplesPerPixel, sqrt);
    img[posx, posy] := [rgb[0], rgb[1], rgb[2]];
  }

  // Decimal text, as `format!("{}", n)` prints a non-negative integer.

  predicate IsDigit(c: char) { '0' <= c <= '9' }

  function DigitChar(d: nat): (c: char)
    requires d < 10
    ensures IsDigit(c)
  {
    ['0', '1', '2', '3', '4', '5', '6', '7', '8', '9'][d]
  }

  function DigitValue(c: char): nat
    requires IsDigit(c)
  {
    (c as int - '0' as int) as nat
  }

  /** The decimal digits of `n`, most significant first, without leading zeros. */
  function Decimal(n: nat): (s: seq<char>)
    ensures 0 < |s|
    ensures forall i :: 0 <= i < |s| ==> IsDigit(s[i])
    decreases n
  {
    if n < 10 then [DigitChar(n)] else Decimal(n / 10) + [DigitChar(n % 10)]
  }

  /** The number a string of digits denotes. */
  function DecimalValue(s: seq<char>): nat
    requires forall i :: 0 <= i < |s| ==> IsDigit(s[i])
  {
    if |s| == 0 then 0 else 10 * DecimalValue(s[..|s| - 1]) + DigitValue(s[|s| - 1])
  }

  /** The length of the longest prefix of `s` made of digits. */
  function LeadingDigits(s: seq<char>): (n: nat)
    ensures n <= |s|
    ensures forall i :: 0 <= i < n ==> IsDigit(s[i])
    ensures n < |s| ==> !IsDigit(s[n])
  {
    if |s| > 0 && IsDigit(s[0]) then 1 + LeadingDigits(s[1..]) else 0
  }

  lemma DigitRoundTrip(d: nat)
    requires d < 10
    ensures DigitValue(DigitChar(d)) == d
  {
  }

  /** Reading back the printed digits gives the number: `DecimalValue` inverts `Decimal`. */
  lemma {:induction false} DecimalRoundTrip(n: nat)
    ensures DecimalValue(Decimal(n)) == n
    decreases n
  {
    var s := Decimal(n);
    if n < 10 {
      DigitRoundTrip(n);
    } else {
      DecimalRoundTrip(n / 10);
      DigitRoundTrip(n % 10);
      assert s[..|s| - 1] == Decimal(n / 10);
    }
  }

  /** A number's digits followed by a non-digit end exactly where the digits end. */
  lemma {:induction false} LeadingDigitsStopAt(d: seq<char>, rest: seq<char>)
    requires forall i :: 0 <= i < |d| ==> IsDigit(d[i])
    requires 0 < |rest| && !IsDigit(rest[0])
    ensures LeadingDigits(d + rest) == |d|
    decreases |d|
  {
    if |d| > 0 {
      assert (d + rest)[1..] == d[1..] + rest;
      LeadingDigitsStopAt(d[1..], rest);
    } else {
      assert d + rest == rest;
    }
  }

  /** `format!("{} {} {}\n", r, g, b)` for the three bytes. */
  function PpmLine(rgb: seq<byte>): (line: seq<char>)
    requires |rgb| == 3
  {
    Decimal(rgb[0] as nat) + [' '] + Decimal(rgb[1] as nat) + [' '] + Decimal(rgb[2] as nat) + ['\n']
  }

  /**
    A reader for one PPM pixel line: three runs of digits separated by single
    spaces and terminated by a newline; anything else is rejected.
  */
  function ParsePpmLine(s: seq<char>): (fields: Option<seq<nat>>)
    ensures fields.Some? ==> |fields.value| == 3
  {
    var n0 := LeadingDigits(s);
    if n0 == 0 || n0 == |s| || s[n0] != ' ' then None
    else
      var s1 := s[n0 + 1..];
      var n1 := LeadingDigits(s1);
      if n1 == 0 || n1 == |s1| || s1[n1] != ' ' then None
      else
        var s2 := s1[n1 + 1..];
        var n2 := LeadingDigits(s2);
        if n2 == 0 || n2 + 1 != |s2| || s2[n2] != '\n' then None
        else Some([DecimalValue(s[..n0]), DecimalValue(s1[..n1]), DecimalValue(s2[..n2])])
  }

  /** Digits followed by a separator: the digit run, the separator and the rest come apart again. */
  lemma SplitAtSeparator(d: seq<char>, c: char, rest: seq<char>)
    requires forall i :: 0 <= i < |d| ==> IsDigit(d[i])
    requires !IsDigit(c)
    ensures LeadingDigits(d + [c] + rest) == |d|
    ensures (d + [c] + rest)[|d|] == c
    ensures (d + [c] + rest)[..|d|] == d
    ensures (d + [c] + rest)[|d| + 1..] == rest
  {
    assert d + [c] + rest == d + ([c] + rest);
    LeadingDigitsStopAt(d, [c] + rest);
  }

  /** The printed line reads back as exactly the three channel values. */
  lemma PpmLineRoundTrip(rgb: seq<byte>)
    requires |rgb| == 3
    ensures ParsePpmLine(PpmLine(rgb)) == Some([rgb[0] as nat, rgb[1] as nat, rgb[2] as nat])
  {
    var d0, d1, d2 := Decimal(rgb[0] as nat), Decimal(rgb[1] as nat), Decimal(rgb[2] as nat);
    var t2: seq<char> := [];
    var t1 := d2 + ['\n'] + t2;
    var t0 := d1 + [' '] + t1;
    assert PpmLine(rgb) == d0 + [' '] + t0;
    SplitAtSeparator(d0, ' ', t0);
    SplitAtSeparator(d1, ' ', t1);
    SplitAtSeparator(d2, '\n', t2);
    DecimalRoundTrip(rgb[0] as nat);
    DecimalRoundTrip(rgb[1] as nat);
    DecimalRoundTrip(rgb[2] as nat);
  }

  /** The stream `write_colour` writes to: the characters written so far. */
  class OutputStream {
    var written: seq<char>

    constructor ()
      ensures written == []
    {
      written := [];
    }

    /** `write_colour`: appends the pixel's PPM line and nothing else. */
    method WriteColour(pixel: Colour, samplesPerPixel: nat, sqrt: real -> real)
      requires samplesPerPixel > 0
      modifies this
      ensures written == old(written) + PpmLine(DrawnColour(pixel, samplesPerPixel, sqrt))
    {
      written := written + PpmLine(DrawnColour(pixel, samplesPerPixel, sqrt));
    }
  }
}
