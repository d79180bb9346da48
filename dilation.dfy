// Morphological dilation of an intensity grid (dilateImage in script.js).
//
// The result starts as a copy of the input; every interior pixel whose
// ORIGINAL intensity exceeds the threshold raises each pixel of its 3x3
// neighbourhood in the result to max(result, 0.9).  The closed form of
// that loop nest is Dilated below; Dilate is proved to compute it.

module Dilation {
  import opened Grid

  /** A pixel brighter than this is part of a stroke. */
  const Threshold: real := 0.3

  /** Intensity the neighbourhood of a stroke pixel is raised to. */
  const Ink: real := 0.9

  function Max(a: real, b: real): (m: real)
  {
    if a >= b then a else b
  }

  /** (ax, ay) and (qx, qy) are at Chebyshev distance at most 1. */
  predicate Adjacent(ax: int, ay: int, qx: int, qy: int)
  {
    -1 <= ax - qx <= 1 && -1 <= ay - qy <= 1
  }

  /** (sx, sy) triggers dilation: it lies off the border and its original
      intensity exceeds the threshold. */
  predicate IsSource(img: seq<real>, width: nat, height: nat, sx: int, sy: int)
    requires |img| == width * height
  {
    1 <= sx <= width - 2 && 1 <= sy <= height - 2 &&
    img[Index(width, height, sx, sy)] > Threshold
  }

  /** Pixel (px, py) lies within Chebyshev distance 1 of some source. */
  ghost predicate NearSource(img: seq<real>, width: nat, height: nat, px: int, py: int)
    requires |img| == width * height
  {
    exists sx, sy :: IsSource(img, width, height, sx, sy) && Adjacent(px, py, sx, sy)
  }

  /** The value dilation gives pixel p. */
  ghost function DilatedAt(img: seq<real>, width: nat, height: nat, p: int): (v: real)
    requires |img| == width * height && 0 <= p < |img|
  {
    IndexOfOffset(width, height, p);
    if NearSource(img, width, height, p % width, p / width) then Max(img[p], Ink) else img[p]
  }

  /** Closed form of dilateImage: a pixel near a source becomes max(input, 0.9),
      every other pixel keeps its input value. */
  ghost function Dilated(img: seq<real>, width: nat, height: nat): (r: seq<real>)
    requires |img| == width * height
    ensures |r| == |img|
    ensures forall p :: 0 <= p < |img| ==> r[p] >= img[p]
    ensures forall p :: 0 <= p < |img| ==> r[p] == img[p] || (img[p] < Ink && r[p] == Ink)
  {
    seq(|img|, p requires 0 <= p < |img| => DilatedAt(img, width, height, p))
  }

  // ---------------------------------------------------------------------
  // The scan order of dilateImage: rows top to bottom, columns left to right.

  /** (sx, sy) is visited before (x, y) by the row-major scan. */
  predicate ScannedBefore(sx: int, sy: int, x: int, y: int)
  {
    sy < y || (sy == y && sx < x)
  }

  /** Pixel (px, py) is near a source that the scan has already visited
      when it reaches (x, y). */
  ghost predicate NearScannedSource(img: seq<real>, width: nat, height: nat,
                                    px: int, py: int, x: int, y: int)
    requires |img| == width * height
  {
    exists sx, sy :: IsSource(img, width, height, sx, sy) && Adjacent(px, py, sx, sy) &&
                     ScannedBefore(sx, sy, x, y)
  }

  /** The value of pixel p once the scan has reached (x, y), with the stamp of
      (x, y) itself applied to the neighbours that come before (dx, dy) in
      the 3x3 scan when stamping is true. */
  ghost function Partial(img: seq<real>, width: nat, height: nat, p: int,
                         x: int, y: int, stamping: bool, dx: int, dy: int): real
    requires |img| == width * height && 0 <= p < |img|
  {
    IndexOfOffset(width, height, p);
    var px, py := p % width, p / width;
    if NearScannedSource(img, width, height, px, py, x, y) ||
       (stamping && Adjacent(px, py, x, y) && ScannedBefore(px - x, py - y, dx, dy))
    then Max(img[p], Ink) else img[p]
  }

  /** Visiting (x, y) adds it to the visited sources exactly when it is one. */
  lemma ScanStep(img: seq<real>, width: nat, height: nat, px: int, py: int, x: int, y: int)
    requires |img| == width * height
    ensures NearScannedSource(img, width, height, px, py, x + 1, y) <==>
            NearScannedSource(img, width, height, px, py, x, y) ||
            (IsSource(img, width, height, x, y) && Adjacent(px, py, x, y))
  {
  }

  /** Columns past width - 2 hold no source, so ending row y is starting row y + 1. */
  lemma ScanNextRow(img: seq<real>, width: nat, height: nat, px: int, py: int, x: int, y: int)
    requires |img| == width * height && x >= width - 1
    ensures NearScannedSource(img, width, height, px, py, x, y) <==>
            NearScannedSource(img, width, height, px, py, 1, y + 1)
  {
  }

  /** Rows past height - 2 hold no source, so the finished scan has visited all. */
  lemma ScanComplete(img: seq<real>, width: nat, height: nat, px: int, py: int, y: int)
    requires |img| == width * height && y >= height - 1
    ensures NearScannedSource(img, width, height, px, py, 1, y) <==>
            NearSource(img, width, height, px, py)
  {
  }

  /** dilateImage(imageData, width, height). */
  method Dilate(image: array<real>, width: nat, height: nat) returns (result: array<real>)
    requires image.Length == width * height
    ensures fresh(result) && result.Length == image.Length
    ensures result[..] == Dilated(image[..], width, height)
  {
    ghost var img := image[..];
    result := new real[width * height];

    // Copy the original data first.
    var i := 0;
    while i < width * height
      invariant 0 <= i <= width * height
      invariant forall j :: 0 <= j < i ==> result[j] == image[j]
    {
      result[i] := image[i];
      i := i + 1;
    }
    assert forall p :: 0 <= p < |img| ==> result[p] == Partial(img, width, height, p, 1, 1, false, 0, 0);

    var y := 1;
    while y < height - 1
      invariant 1 <= y && (height >= 2 ==> y <= height - 1)
      invariant forall p :: 0 <= p < |img| ==>
                  result[p] == Partial(img, width, height, p, 1, y, false, 0, 0)
    {
      var x := 1;
      while x < width - 1
        invariant 1 <= x && (width >= 2 ==> x <= width - 1)
        invariant forall p :: 0 <= p < |img| ==>
                    result[p] == Partial(img, width, height, p, x, y, false, 0, 0)
      {
        var idx := Index(width, height, x, y);
        if image[idx] > Threshold {
          StampNeighbourhood(result, img, width, height, x, y);
        }
        forall p | 0 <= p < |img|
          ensures result[p] == Partial(img, width, height, p, x + 1, y, false, 0, 0)
        {
          IndexOfOffset(width, height, p);
          ScanStep(img, width, height, p % width, p / width, x, y);
        }
        x := x + 1;
      }
      forall p | 0 <= p < |img|
        ensures result[p] == Partial(img, width, height, p, 1, y + 1, false, 0, 0)
      {
        IndexOfOffset(width, height, p);
        ScanNextRow(img, width, height, p % width, p / width, x, y);
      }
      y := y + 1;
    }

    forall p | 0 <= p < |img|
      ensures result[p] == Dilated(img, width, height)[p]
    {
      IndexOfOffset(width, height, p);
      ScanComplete(img, width, height, p % width, p / width, y);
    }
  }

  /** The two innermost loops of dilateImage: raise the 3x3 neighbourhood of
      the source (x, y) to max(result, 0.9). */
  method StampNeighbourhood(result: array<real>, ghost img: seq<real>,
                            width: nat, height: nat, x: int, y: int)
    requires |img| == width * height && result.Length == |img|
    requires 1 <= x <= width - 2 && 1 <= y <= height - 2
    requires forall p :: 0 <= p < |img| ==>
               result[p] == Partial(img, width, height, p, x, y, false, 0, 0)
    modifies result
    ensures forall p :: 0 <= p < |img| ==>
              result[p] == Partial(img, width, height, p, x, y, true, -1, 2)
    ensures forall p :: 0 <= p < |img| ==>
              result[p] == if Adjacent(p % width, p / width, x, y) then Max(old(result[p]), Ink)
                           else old(result[p])
  {
    var dy := -1;
    while dy <= 1
      invariant -1 <= dy <= 2
      invariant forall p :: 0 <= p < |img| ==>
                  result[p] == Partial(img, width, height, p, x, y, true, -1, dy)
    {
      var dx := -1;
      while dx <= 1
        invariant -1 <= dx <= 2
        invariant forall p :: 0 <= p < |img| ==>
                    result[p] == Partial(img, width, height, p, x, y, true, dx, dy)
      {
        var target := Index(width, height, x + dx, y + dy);
        result[target] := Max(result[target], Ink);
        forall p | 0 <= p < |img|
          ensures result[p] == Partial(img, width, height, p, x, y, true, dx + 1, dy)
        {
          IndexOfOffset(width, height, p);
        }
        dx := dx + 1;
      }
      dy := dy + 1;
    }
    forall p | 0 <= p < |img|
      ensures result[p] == if Adjacent(p % width, p / width, x, y) then Max(old(result[p]), Ink)
                           else old(result[p])
    {
      IndexOfOffset(width, height, p);
    }
  }

  // ---------------------------------------------------------------------
  // Properties of the closed form.

  /** Every pixel within Chebyshev distance 1 of a source ends at 0.9 or more. */
  lemma SourceRaisesNeighbourhood(img: seq<real>, width: nat, height: nat,
                                  sx: int, sy: int, px: int, py: int)
    requires |img| == width * height
    requires IsSource(img, width, height, sx, sy) && Adjacent(px, py, sx, sy)
    ensures 0 <= px < width && 0 <= py < height
    ensures Dilated(img, width, height)[Index(width, height, px, py)] >= Ink
  {
  }

  /** A pixel with no source within Chebyshev distance 1 keeps its input value. */
  lemma FarPixelUnchanged(img: seq<real>, width: nat, height: nat, px: int, py: int)
    requires |img| == width * height && 0 <= px < width && 0 <= py < height
    requires forall sx, sy :: IsSource(img, width, height, sx, sy) ==> !Adjacent(px, py, sx, sy)
    ensures Dilated(img, width, height)[Index(width, height, px, py)] ==
            img[Index(width, height, px, py)]
  {
  }

  /** A pixel on the outer ring is never a source: changing its value changes
      no other pixel of the result, however bright it is. */
  lemma BorderPixelNeverSpreads(img: seq<real>, img': seq<real>, width: nat, height: nat,
                                bx: int, by': int)
    requires |img| == width * height && |img'| == width * height
    requires 0 <= bx < width && 0 <= by' < height
    requires bx == 0 || bx == width - 1 || by' == 0 || by' == height - 1
    requires forall p :: 0 <= p < |img| && p != Index(width, height, bx, by') ==> img[p] == img'[p]
    ensures forall p :: 0 <= p < |img| && p != Index(width, height, bx, by') ==>
              Dilated(img, width, height)[p] == Dilated(img', width, height)[p]
  {
    forall sx, sy ensures IsSource(img, width, height, sx, sy) <==> IsSource(img', width, height, sx, sy) {
      if 1 <= sx <= width - 2 && 1 <= sy <= height - 2 {
        var s := Index(width, height, sx, sy);
        assert s != Index(width, height, bx, by');
      }
    }
    forall p | 0 <= p < |img| && p != Index(width, height, bx, by')
      ensures Dilated(img, width, height)[p] == Dilated(img', width, height)[p]
    {
      IndexOfOffset(width, height, p);
      var px, py := p % width, p / width;
      if NearSource(img, width, height, px, py) {
        var sx, sy :| IsSource(img, width, height, sx, sy) && Adjacent(px, py, sx, sy);
        assert IsSource(img', width, height, sx, sy);
      }
      if NearSource(img', width, height, px, py) {
        var sx, sy :| IsSource(img', width, height, sx, sy) && Adjacent(px, py, sx, sy);
        assert IsSource(img, width, height, sx, sy);
      }
    }
  }

  /** A grid less than three pixels wide or high has no interior, so dilation
      returns it unchanged. */
  lemma NarrowGridUnchanged(img: seq<real>, width: nat, height: nat)
    requires |img| == width * height && (width < 3 || height < 3)
    ensures Dilated(img, width, height) == img
  {
  }

  /** A grid with no pixel above the threshold is left unchanged. */
  lemma FaintGridUnchanged(img: seq<real>, width: nat, height: nat)
    requires |img| == width * height
    requires forall p :: 0 <= p < |img| ==> img[p] <= Threshold
    ensures Dilated(img, width, height) == img
  {
  }

  /** A single bright pixel at (14, 14) of an otherwise black 28x28 grid:
      its eight neighbours become 0.9, it keeps 1.0, everything else stays 0. */
  lemma SingleInteriorPixel(img: seq<real>)
    requires |img| == PixelCount
    requires forall p :: 0 <= p < PixelCount ==>
               img[p] == if p == Index(Side, Side, 14, 14) then 1.0 else 0.0
    ensures forall px, py :: 0 <= px < Side && 0 <= py < Side ==>
              Dilated(img, Side, Side)[Index(Side, Side, px, py)] ==
                if px == 14 && py == 14 then 1.0
                else if Adjacent(px, py, 14, 14) then Ink
                else 0.0
  {
  }

  // ---------------------------------------------------------------------
  // Order independence: the sources are read from the ORIGINAL image, so
  // stamping them in any order, even with repetitions, gives the same grid.

  /** Raise the 3x3 neighbourhood of (sx, sy) in r to max(r, 0.9). */
  ghost function Stamp(r: seq<real>, width: nat, height: nat, sx: int, sy: int): (r': seq<real>)
    requires |r| == width * height
    ensures |r'| == |r|
  {
    seq(|r|, p requires 0 <= p < |r| =>
      IndexOfOffset(width, height, p);
      if Adjacent(p % width, p / width, sx, sy) then Max(r[p], Ink) else r[p])
  }

  /** Stamp the given pixels, first to last. */
  ghost function StampAll(r: seq<real>, width: nat, height: nat, order: seq<(int, int)>): (r': seq<real>)
    requires |r| == width * height
    ensures |r'| == |r|
    decreases |order|
  {
    if order == [] then r
    else StampAll(Stamp(r, width, height, order[0].0, order[0].1), width, height, order[1..])
  }

  /** Pixel p ends raised exactly when some stamped pixel is adjacent to it. */
  lemma {:induction false} StampAllAt(r: seq<real>, width: nat, height: nat,
                                      order: seq<(int, int)>, p: int)
    requires |r| == width * height && 0 <= p < |r|
    ensures width > 0
    ensures StampAll(r, width, height, order)[p] ==
              if exists k :: 0 <= k < |order| && Adjacent(p % width, p / width, order[k].0, order[k].1)
              then Max(r[p], Ink) else r[p]
    decreases |order|
  {
    IndexOfOffset(width, height, p);
    if order != [] {
      var r1 := Stamp(r, width, height, order[0].0, order[0].1);
      StampAllAt(r1, width, height, order[1..], p);
      var px, py := p % width, p / width;
      if exists k :: 0 <= k < |order| && Adjacent(px, py, order[k].0, order[k].1) {
        var k :| 0 <= k < |order| && Adjacent(px, py, order[k].0, order[k].1);
        if k > 0 {
          assert order[1..][k - 1] == order[k];
        }
      } else {
        forall k | 0 <= k < |order[1..]| ensures !Adjacent(px, py, order[1..][k].0, order[1..][k].1) {
          assert order[1..][k] == order[k + 1];
        }
      }
    }
  }

  /** The pixels of order are exactly the sources of img, so being adjacent to
      one of them is being near a source. */
  lemma OrderNearSource(img: seq<real>, width: nat, height: nat, order: seq<(int, int)>,
                        px: int, py: int)
    requires |img| == width * height
    requires forall k :: 0 <= k < |order| ==> IsSource(img, width, height, order[k].0, order[k].1)
    requires forall sx, sy :: IsSource(img, width, height, sx, sy) ==> (sx, sy) in order
    ensures NearSource(img, width, height, px, py) <==>
            exists k :: 0 <= k < |order| && Adjacent(px, py, order[k].0, order[k].1)
  {
  }

  /** Stamping every source of img, in any order and with any repetitions,
      starting from img itself yields Dilated(img): the result does not depend
      on the scan order of dilateImage. */
  lemma DilationOrderIndependent(img: seq<real>, width: nat, height: nat, order: seq<(int, int)>)
    requires |img| == width * height
    requires forall k :: 0 <= k < |order| ==> IsSource(img, width, height, order[k].0, order[k].1)
    requires forall sx, sy :: IsSource(img, width, height, sx, sy) ==> (sx, sy) in order
    ensures StampAll(img, width, height, order) == Dilated(img, width, height)
  {
    var r := StampAll(img, width, height, order);
    forall p | 0 <= p < |img| ensures r[p] == Dilated(img, width, height)[p] {
      StampAllAt(img, width, height, order, p);
      OrderNearSource(img, width, height, order, p % width, p / width);
    }
  }
}
