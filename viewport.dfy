/**
  The pixel helpers of the interactive viewer (src/viewport.rs):
  `to_drawn_colour` turns an accumulated colour into four RGBA bytes and
  `plot_pixel` copies four bytes into the frame buffer.
*/
module Viewport {
  import opened RtWeekend
  import opened Vectors
  import opened Colours
  import opened LegacyColours

  /** `to_drawn_colour`: the gamma-corrected bytes for an `i32` sample count, then `0xFF`. */
  function ToDrawnColour(pixel: Colour, samplesPerPixel: int, sqrt: real -> real): (rgba: seq<byte>)
    requires samplesPerPixel != 0
    ensures |rgba| == 4 && rgba[3] == 0xFF
  {
    LegacyGammaColour(pixel, samplesPerPixel, sqrt) + [0xFF]
  }

  /** For a positive sample count the viewer draws what `drawn_colour_with_alpha` draws. */
  lemma ToDrawnColourAgrees(pixel: Colour, samplesPerPixel: int, sqrt: real -> real)
    requires samplesPerPixel > 0
    ensures ToDrawnColour(pixel, samplesPerPixel, sqrt) == DrawnColourWithAlpha(pixel, samplesPerPixel as nat, sqrt)
  {
    LegacyGammaAgrees(pixel, samplesPerPixel, sqrt);
  }

  /** The byte offset `plot_pixel` computes, as written: `x + y * stride * 4`. */
  function PlotOffset(x: nat, y: nat, stride: nat): nat {
    x + y * stride * 4
  }

  /**
    The offset of pixel `(x, y)` in an RGBA frame whose rows hold `stride`
    pixels: four bytes per pixel.
  */
  function FrameOffset(x: nat, y: nat, stride: nat): nat {
    4 * (x + y * stride)
  }

  /** `copy_from_slice` into `buffer[i..i + 4]`; a slice of the wrong length panics. */
  method CopyPixel(buffer: array<byte>, i: nat, colour: seq<byte>)
    requires |colour| == 4 && i + 4 <= buffer.Length
    modifies buffer
    ensures buffer[i..i + 4] == colour
    ensures forall k :: 0 <= k < buffer.Length && !(i <= k < i + 4) ==> buffer[k] == old(buffer[k])
  {
    for j := 0 to 4
      invariant forall k :: 0 <= k < j ==> buffer[i + k] == colour[k]
      invariant forall k :: 0 <= k < buffer.Length && !(i <= k < i + j) ==> buffer[k] == old(buffer[k])
    {
      buffer[i + j] := colour[j];
    }
  }

  /** `plot_pixel` as written: the four bytes at `x + y * stride * 4` and nothing else. */
  method PlotPixel(buffer: array<byte>, x: nat, y: nat, stride: nat, colour: seq<byte>)
    requires |colour| == 4 && PlotOffset(x, y, stride) + 4 <= buffer.Length
    modifies buffer
    ensures buffer[PlotOffset(x, y, stride)..PlotOffset(x, y, stride) + 4] == colour
    ensures forall k :: 0 <= k < buffer.Length && !(PlotOffset(x, y, stride) <= k < PlotOffset(x, y, stride) + 4) ==>
      buffer[k] == old(buffer[k])
  {
    CopyPixel(buffer, PlotOffset(x, y, stride), colour);
  }

  /**
    As written, two horizontally adjacent pixels share three bytes: plotting
    `(x + 1, y)` overwrites the green, blue and alpha bytes of `(x, y)`.
  */
  lemma AdjacentPlotsOverlap(x: nat, y: nat, stride: nat)
    ensures PlotOffset(x + 1, y, stride) == PlotOffset(x, y, stride) + 1
    ensures PlotOffset(x, y, stride) < PlotOffset(x + 1, y, stride) < PlotOffset(x, y, stride) + 4
  {
  }

  /** `plot_pixel` with four bytes per pixel, the evidently intended offset. */
  method PlotFramePixel(buffer: array<byte>, x: nat, y: nat, stride: nat, colour: seq<byte>)
    requires |colour| == 4 && FrameOffset(x, y, stride) + 4 <= buffer.Length
    modifies buffer
    ensures buffer[FrameOffset(x, y, stride)..FrameOffset(x, y, stride) + 4] == colour
    ensures forall k :: 0 <= k < buffer.Length && !(FrameOffset(x, y, stride) <= k < FrameOffset(x, y, stride) + 4) ==>
      buffer[k] == old(buffer[k])
  {
    CopyPixel(buffer, FrameOffset(x, y, stride), colour);
  }

  lemma RowsApart(x: nat, y: nat, x': nat, y': nat, stride: nat)
    requires x < stride && x' < stride && y < y'
    ensures x + y * stride + 1 <= x' + y' * stride
  {
    assert (y' - y - 1) * stride >= 0;
    assert y' * stride == y * stride + stride + (y' - y - 1) * stride;
  }

  /**
    With the intended offset, distinct pixels of a row of `stride` pixels own
    disjoint four-byte windows, so no plot disturbs another pixel.
  */
  lemma FrameWindowsDisjoint(x: nat, y: nat, x': nat, y': nat, stride: nat)
    requires x < stride && x' < stride && (x != x' || y != y')
    ensures FrameOffset(x, y, stride) + 4 <= FrameOffset(x', y', stride)
         || FrameOffset(x', y', stride) + 4 <= FrameOffset(x, y, stride)
  {
    if y < y' {
      RowsApart(x, y, x', y', stride);
    } else if y' < y {
      RowsApart(x', y', x, y, stride);
    }
  }

  /** With the intended offset, every pixel of a `stride` by `height` image lies inside its frame. */
  lemma FrameWindowInside(x: nat, y: nat, stride: nat, height: nat)
    requires x < stride && y < height
    ensures FrameOffset(x, y, stride) + 4 <= 4 * stride * height
  {
    RowsApart(x, y, 0, height, stride);
  }
}
