// Steps 3 and 4 of preprocessImage in script.js: the fixed affine
// recalibration to the training distribution's mean and standard
// deviation, and the copy into the buffer handed to inference with
// shape [1, 1, 28, 28].

module Normalization {
  import opened Grid

  /** Mean intensity of the training corpus. */
  const Mean: real := 0.1307

  /** Standard deviation of the training corpus's intensities. */
  const StdDev: real := 0.3081

  /** Shape of the inference input: batch, channels, height, width. */
  const TensorShape: seq<nat> := [1, 1, Side, Side]

  /** (x - 0.1307) / 0.3081. */
  function Standardize(x: real): (z: real)
    ensures z * StdDev + Mean == x
  {
    (x - Mean) / StdDev
  }

  /** Inverse of Standardize. */
  function Destandardize(z: real): (x: real)
  {
    z * StdDev + Mean
  }

  /** Standardize is a bijection; Destandardize undoes it on both sides. */
  lemma StandardizeBijective(x: real, z: real)
    ensures Destandardize(Standardize(x)) == x
    ensures Standardize(Destandardize(z)) == z
  {
  }

  /** Standardize is strictly increasing, so it keeps the order of intensities
      (and with it the dilation threshold's meaning). */
  lemma StandardizeIncreasing(x: real, y: real)
    requires x < y
    ensures Standardize(x) < Standardize(y)
  {
  }

  /** The mean maps to 0 and one standard deviation above it to 1. */
  lemma StandardizeAnchors()
    ensures Standardize(Mean) == 0.0
    ensures Standardize(Mean + StdDev) == 1.0
  {
  }

  /** The normalized grid: every element standardized on its own. */
  ghost function Normalized(s: seq<real>): (r: seq<real>)
    ensures |r| == |s|
    ensures forall i :: 0 <= i < |s| ==> r[i] * StdDev + Mean == s[i]
  {
    seq(|s|, i requires 0 <= i < |s| => Standardize(s[i]))
  }

  /** The loop of preprocessImage that fills normalizedData. */
  method Normalize(dilated: array<real>) returns (normalized: array<real>)
    requires dilated.Length == PixelCount
    ensures fresh(normalized) && normalized.Length == PixelCount
    ensures normalized[..] == Normalized(dilated[..])
  {
    normalized := new real[PixelCount];
    var i := 0;
    while i < PixelCount
      invariant 0 <= i <= PixelCount
      invariant forall j :: 0 <= j < i ==> normalized[j] == Standardize(dilated[j])
    {
      normalized[i] := (dilated[i] - Mean) / StdDev;
      i := i + 1;
    }
  }

  /** Row-major offset of element (n, c, row, col) in a tensor of TensorShape. */
  function TensorOffset(n: nat, c: nat, row: nat, col: nat): (offset: nat)
  {
    ((n * TensorShape[1] + c) * TensorShape[2] + row) * TensorShape[3] + col
  }

  /** The tensor holds as many elements as the grid, and element (0, 0, row, col)
      sits at the grid offset of pixel (col, row): packing needs no transposition. */
  lemma TensorLayoutIsGridLayout(row: nat, col: nat)
    requires row < Side && col < Side
    ensures TensorShape[0] * TensorShape[1] * TensorShape[2] * TensorShape[3] == PixelCount
    ensures TensorOffset(0, 0, row, col) == Index(Side, Side, col, row)
  {
  }

  /** The loop of preprocessImage that copies normalizedData into the tensor. */
  method Pack(normalized: array<real>) returns (tensor: array<real>)
    requires normalized.Length == PixelCount
    ensures fresh(tensor)
    ensures tensor.Length == TensorShape[0] * TensorShape[1] * TensorShape[2] * TensorShape[3]
    ensures forall row, col :: 0 <= row < Side && 0 <= col < Side ==>
              tensor[TensorOffset(0, 0, row, col)] == normalized[Index(Side, Side, col, row)]
    ensures tensor[..] == normalized[..]
  {
    tensor := new real[1 * 1 * Side * Side];
    var i := 0;
    while i < PixelCount
      invariant 0 <= i <= PixelCount
      invariant forall j :: 0 <= j < i ==> tensor[j] == normalized[j]
    {
      tensor[i] := normalized[i];
      i := i + 1;
    }
    forall row, col | 0 <= row < Side && 0 <= col < Side
      ensures tensor[TensorOffset(0, 0, row, col)] == normalized[Index(Side, Side, col, row)]
    {
      TensorLayoutIsGridLayout(row, col);
    }
  }
}
