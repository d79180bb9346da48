// Grayscale extraction (step 1 of preprocessImage in script.js): the
// 28x28 RGBA buffer read back from the canvas becomes one intensity in
// [0, 1] per pixel, taken from the red byte and flipped when the drawing
// surface has a light background.

module Grayscale {
  import opened Grid

  /** An 8-bit channel value of the RGBA buffer. */
  type Byte = b: int | 0 <= b < 256

  /** Intensity of a pixel whose red byte is red; inverted flips polarity. */
  function Intensity(red: Byte, inverted: bool): (v: real)
    ensures 0.0 <= v <= 1.0
    ensures v * 255.0 == if inverted then 255.0 - red as real else red as real
  {
    var v := red as real / 255.0;
    if inverted then 1.0 - v else v
  }

  /** The grid extracted from an RGBA buffer: pixel i reads byte 4 * i. */
  ghost function GrayscaleOf(rgba: seq<Byte>, inverted: bool): (g: seq<real>)
    requires |rgba| == Channels * PixelCount
    ensures |g| == PixelCount
  {
    seq(PixelCount, i requires 0 <= i < PixelCount => Intensity(rgba[Channels * i], inverted))
  }

  /** The loop of preprocessImage that fills grayscaleData. */
  method ExtractGrayscale(data: array<Byte>, inverted: bool) returns (gray: array<real>)
    requires data.Length == Channels * PixelCount
    ensures fresh(gray) && gray.Length == PixelCount
    ensures gray[..] == GrayscaleOf(data[..], inverted)
    ensures forall i :: 0 <= i < PixelCount ==> 0.0 <= gray[i] <= 1.0
  {
    gray := new real[PixelCount];
    var i := 0;
    while i < PixelCount
      invariant 0 <= i <= PixelCount
      invariant forall j :: 0 <= j < i ==> gray[j] == Intensity(data[Channels * j], inverted)
    {
      gray[i] := data[i * Channels] as real / 255.0;
      if inverted {
        gray[i] := 1.0 - gray[i];
      }
      i := i + 1;
    }
  }

  /** The red byte can be read back from the intensity: no two red values
      share an intensity under the same polarity. */
  lemma IntensityDeterminesRed(a: Byte, b: Byte, inverted: bool)
    requires Intensity(a, inverted) == Intensity(b, inverted)
    ensures a == b
  {
  }

  /** The two polarities give complementary grids. */
  lemma PolaritiesComplement(rgba: seq<Byte>)
    requires |rgba| == Channels * PixelCount
    ensures forall i :: 0 <= i < PixelCount ==>
              GrayscaleOf(rgba, true)[i] == 1.0 - GrayscaleOf(rgba, false)[i]
  {
  }

  /** Only the red byte of each pixel is read; green, blue and alpha are ignored. */
  lemma OnlyRedMatters(rgba: seq<Byte>, rgba': seq<Byte>, inverted: bool)
    requires |rgba| == Channels * PixelCount && |rgba'| == Channels * PixelCount
    requires forall i :: 0 <= i < PixelCount ==> rgba[Channels * i] == rgba'[Channels * i]
    ensures GrayscaleOf(rgba, inverted) == GrayscaleOf(rgba', inverted)
  {
  }

  /** The red byte of the background the canvas is filled with: white on a
      light (inverted) surface, black otherwise. */
  function BackgroundRed(inverted: bool): (red: Byte)
  {
    if inverted then 255 else 0
  }

  /** A blank canvas (every red byte the background) gives an all-zero grid
      whichever the polarity. */
  lemma BlankCanvasIsBlack(rgba: seq<Byte>, inverted: bool)
    requires |rgba| == Channels * PixelCount
    requires forall i :: 0 <= i < PixelCount ==> rgba[Channels * i] == BackgroundRed(inverted)
    ensures GrayscaleOf(rgba, inverted) == seq(PixelCount, _ => 0.0)
  {
  }
}
