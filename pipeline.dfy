// preprocessImage in script.js: grayscale extraction, dilation,
// normalization and packing, composed.

module Pipeline {
  import opened Grid
  import opened Grayscale
  import opened Dilation
  import opened Normalization

  /** The tensor preprocessImage produces from an RGBA buffer. */
  ghost function Preprocessed(rgba: seq<Byte>, inverted: bool): (t: seq<real>)
    requires |rgba| == Channels * PixelCount
    ensures |t| == PixelCount
  {
    Normalized(Dilated(GrayscaleOf(rgba, inverted), Side, Side))
  }

  /** preprocessImage, from the buffer getImageData returns onwards. */
  method Preprocess(data: array<Byte>, inverted: bool) returns (tensor: array<real>)
    requires data.Length == Channels * PixelCount
    ensures fresh(tensor) && tensor.Length == PixelCount
    ensures tensor[..] == Preprocessed(data[..], inverted)
  {
    var grayscaleData := ExtractGrayscale(data, inverted);
    var dilatedData := Dilate(grayscaleData, Side, Side);
    var normalizedData := Normalize(dilatedData);
    tensor := Pack(normalizedData);
  }

  /** Every tensor element lies between the standardized black and the
      standardized white, and is at least the standardized grayscale value. */
  lemma PreprocessedRange(rgba: seq<Byte>, inverted: bool)
    requires |rgba| == Channels * PixelCount
    ensures forall i :: 0 <= i < PixelCount ==>
              Standardize(0.0) <= Preprocessed(rgba, inverted)[i] <= Standardize(1.0)
    ensures forall i :: 0 <= i < PixelCount ==>
              Standardize(GrayscaleOf(rgba, inverted)[i]) <= Preprocessed(rgba, inverted)[i]
  {
  }

  /** A blank canvas, of either polarity, yields a uniform tensor of
      (0 - 0.1307) / 0.3081. */
  lemma BlankCanvasTensor(rgba: seq<Byte>, inverted: bool)
    requires |rgba| == Channels * PixelCount
    requires forall i :: 0 <= i < PixelCount ==> rgba[Channels * i] == BackgroundRed(inverted)
    ensures Preprocessed(rgba, inverted) == seq(PixelCount, _ => Standardize(0.0))
  {
  }
}
