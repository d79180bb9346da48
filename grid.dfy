// Row-major addressing of the flat intensity buffers used by the
// preprocessing pipeline (script.js keeps every grid in a flat
// Float32Array and addresses pixel (x, y) as y * width + x).

module Grid {

  /** Side of the canonical grid the classifier was trained on. */
  const Side: nat := 28

  /** Number of pixels in the canonical grid. */
  const PixelCount: nat := Side * Side

  /** Bytes per pixel in the RGBA buffer returned by getImageData. */
  const Channels: nat := 4

  /** Offset of pixel (x, y) in a row-major grid of the given width and height. */
  function Index(width: nat, height: nat, x: int, y: int): (i: nat)
    requires 0 <= x < width && 0 <= y < height
    ensures i < width * height
    ensures i % width == x && i / width == y
  {
    IndexInRange(width, height, x, y);
    IndexCoordinates(width, x, y);
    y * width + x
  }

  lemma IndexInRange(width: nat, height: nat, x: int, y: int)
    requires 0 <= x < width && 0 <= y < height
    ensures 0 <= y * width + x < width * height
  {
    assert y * width <= (height - 1) * width by {
      MulMonotone(y, height - 1, width);
    }
  }

  lemma MulMonotone(a: int, b: int, c: nat)
    requires a <= b
    ensures a * c <= b * c
  {
  }

  lemma IndexCoordinates(width: nat, x: int, y: int)
    requires 0 <= x < width
    ensures (y * width + x) % width == x && (y * width + x) / width == y
  {
    var i := y * width + x;
    var q, r := i / width, i % width;
    assert i == q * width + r;
    assert (q - y) * width == x - r;
    if q > y {
      MulMonotone(1, q - y, width);
      assert false;
    } else if q < y {
      MulMonotone(1, y - q, width);
      assert false;
    }
  }

  /** Every in-range offset is the offset of its own coordinates. */
  lemma IndexOfOffset(width: nat, height: nat, i: int)
    requires 0 <= i < width * height
    ensures width > 0 && 0 <= i % width < width && 0 <= i / width < height
    ensures Index(width, height, i % width, i / width) == i
  {
  }
}
