# MNIST drawing-pad preprocessing, modelled in Dafny

This project models the preprocessing pipeline of the handwritten-digit app in
`script.js`, and the way it picks the predicted class. `preprocessImage`
turns the 28×28 RGBA buffer read back from the canvas into the tensor that
goes to the ONNX model, in four steps:

1. grayscale extraction: red byte / 255, flipped when the colours are inverted;
2. morphological dilation (`dilateImage`): every interior pixel brighter than
   0.3 raises its 3×3 neighbourhood to at least 0.9;
3. normalisation with the MNIST mean 0.1307 and standard deviation 0.3081;
4. packing into a buffer of shape [1, 1, 28, 28].

`predict` then runs inference on that tensor and returns the index of the
first largest of the ten scores, or -1 when anything fails.

The code's loops are modelled as methods with loop invariants. The
grayscale, dilation, normalisation and packing loops work over arrays: each
returns a freshly allocated array and is proved equal to a ghost
specification function. The argmax loop reads the score sequence and is
proved against the predicate `IsPrediction`. Intensities are
exact `real`s. The closure variable `isInverted` becomes the explicit parameter
`inverted`. The inference call becomes a function parameter `infer` that
returns either scores or a failure.

Files, one module each:

- `grid.dfy` (`Grid`): the 28×28 constants and row-major indexing `y * width + x`.
- `grayscale.dfy` (`Grayscale`): step 1.
- `dilation.dfy` (`Dilation`): step 2, with its closed form `Dilated`. The
  module also proves that the scan order does not matter.
- `normalization.dfy` (`Normalization`): steps 3 and 4.
- `pipeline.dfy` (`Pipeline`): `preprocessImage` as a whole.
- `prediction.dfy` (`Prediction`): the argmax loop and `predict`.

Two facts about the code that shape the model:

- `predict` returns only the class index and computes no confidence value
  (script.js:311); `Predict` does the same.
- An all-zero grid comes out only when every red byte equals the background
  colour filled at script.js:120-125 (`BlankCanvasIsBlack`).

## Model

| member | source | states |
|---|---|---|
| `Grid.Index` | script.js:181-188 | The offset `y * width + x` of an in-grid pixel lies inside the `width * height` buffer, and the pixel's column and row can be read back from it with `%` and `/`. |
| `Grayscale.Intensity` | script.js:139-144 | A pixel's intensity lies in [0, 1]. Times 255 it gives the red byte back, or 255 minus the red byte when inverted. |
| `Grayscale.ExtractGrayscale` | script.js:133-145 | Fills a fresh 784-element array with `GrayscaleOf(data)`. Pixel i reads byte `4 * i`. Every value lies in [0, 1]. |
| `Grayscale.GrayscaleOf` | script.js:133-145 | The extracted grid always has exactly 784 elements. |
| `Grayscale.IntensityDeterminesRed` | script.js:139-144 | Under a fixed polarity, equal intensities come from equal red bytes: extraction loses no information. |
| `Grayscale.PolaritiesComplement` | script.js:142-144 | The inverted grid is 1 minus the non-inverted grid, pixel by pixel. |
| `Grayscale.OnlyRedMatters` | script.js:137-139 | Two buffers that agree on every red byte give the same grid: green, blue and alpha are ignored. |
| `Grayscale.BlankCanvasIsBlack` | script.js:120-144 | A canvas whose red bytes all equal the background of its polarity (255 when inverted, 0 otherwise) gives an all-zero grid. |
| `Dilation.Dilated` | script.js:170-198 | Closed form of the dilation; the result has the input's length. No pixel decreases. A pixel that changes is raised to exactly 0.9 from below 0.9. |
| `Dilation.Dilate` | script.js:170-198 | The copy loop followed by the four nested loops returns a fresh array of length `width * height` equal to `Dilated(image)`. |
| `Dilation.StampNeighbourhood` | script.js:186-192 | The two innermost loops set every pixel of the 3×3 neighbourhood of the current source to `max(old value, 0.9)` and leave every other pixel at its old value. |
| `Dilation.SourceRaisesNeighbourhood` | script.js:179-192 | Every pixel within Chebyshev distance 1 of an interior pixel whose original value exceeds 0.3 is in the grid and ends at 0.9 or more. |
| `Dilation.FarPixelUnchanged` | script.js:173-176 | A pixel with no source within Chebyshev distance 1 keeps its input value exactly. |
| `Dilation.BorderPixelNeverSpreads` | script.js:179-180 | Changing one pixel of the outer ring, to any value, changes no other pixel of the result: border pixels are never sources. |
| `Dilation.NarrowGridUnchanged` | script.js:179-180 | When width < 3 or height < 3, dilation returns its input unchanged. |
| `Dilation.FaintGridUnchanged` | script.js:184 | A grid with no pixel above 0.3 is returned unchanged. |
| `Dilation.SingleInteriorPixel` | script.js:179-192 | A lone 1.0 at (14, 14) in a black 28×28 grid keeps 1.0. Its eight neighbours become 0.9 and every other pixel stays 0. |
| `Dilation.StampAllAt` | script.js:186-190 | After a sequence of stamps, a pixel is `max(value, 0.9)` exactly when some stamped pixel is adjacent to it, and unchanged otherwise. |
| `Dilation.DilationOrderIndependent` | script.js:184-190 | Stamping the sources of the original image in any order, even with repeats, gives `Dilated`. The threshold reads the input, not the result, so raised pixels never spread further. |
| `Normalization.Standardize` | script.js:154 | `(x - 0.1307) / 0.3081` is inverted by `z * 0.3081 + 0.1307`. |
| `Normalization.StandardizeBijective` | script.js:153-154 | Normalisation and its inverse undo each other in both directions. |
| `Normalization.StandardizeIncreasing` | script.js:153-154 | Normalisation is strictly increasing. |
| `Normalization.StandardizeAnchors` | script.js:153-154 | 0.1307 maps to 0, and 0.1307 + 0.3081 maps to 1. |
| `Normalization.Normalized` | script.js:151-155 | The normalised grid has the input's length. Each element maps back to the element at the same index, independently of the others. |
| `Normalization.Normalize` | script.js:151-155 | Fills a fresh 784-element array with `Normalized(dilated)`. |
| `Normalization.TensorLayoutIsGridLayout` | script.js:161 | The shape [1, 1, 28, 28] holds 784 elements. The row-major offset of element (0, 0, row, col) is the grid offset of pixel (col, row). |
| `Normalization.Pack` | script.js:160-164 | The tensor is a fresh array of 1·1·28·28 elements. It equals the normalised grid element for element, and puts pixel (col, row) at tensor position (0, 0, row, col): no reordering. |
| `Pipeline.Preprocessed` | script.js:129-166 | The pipeline always yields exactly 784 values. |
| `Pipeline.Preprocess` | script.js:129-166 | Grayscale, dilation, normalisation and packing, run in sequence, return a fresh array equal to `Preprocessed(data)`. |
| `Pipeline.PreprocessedRange` | script.js:139-154 | Every tensor value lies between the normalised 0 and the normalised 1, and is at least the normalised grayscale value of its pixel. |
| `Pipeline.BlankCanvasTensor` | script.js:120-166 | A blank canvas of either polarity gives the uniform tensor `(0 - 0.1307) / 0.3081`. |
| `Prediction.Scanned` | script.js:304-305 | The scan reads the first ten scores, or all of them if there are fewer. |
| `Prediction.Argmax` | script.js:301-311 | Returns -1 when there are no scores. Otherwise returns an index below ten whose score is at least every scanned score and strictly above every earlier one: the first maximum. |
| `Prediction.FirstArgmax` | script.js:301-309 | The reference first-maximum of a non-empty prefix is an index inside that prefix. |
| `Prediction.FirstArgmaxIsFirstMax` | script.js:301-309 | The reference definition satisfies the first-maximum property. |
| `Prediction.FirstMaxUnique` | script.js:305 | Two first maxima of the same prefix are the same index. |
| `Prediction.PredictionIsFirstArgmax` | script.js:301-311 | Any class meeting `Argmax`'s postcondition equals the reference `FirstArgmax`, or -1 for no scores. |
| `Prediction.Predict` | script.js:275-315 | When inference on the preprocessed tensor fails, the result is -1. Otherwise it is the first maximum of the scores. It always lies in [-1, 9]. |

## Left out

- DOM and UI: drawing, mouse and touch handlers, buttons, the inversion checkbox and the display of the result (script.js:2-109, 318-337). The polarity flag is a parameter instead.
- Canvas resampling: the 28×28 temporary canvas, the background fill and `drawImage` (script.js:113-127). The browser's scaling filter cannot be seen. The model starts from the 3136-byte buffer `getImageData` returns.
- `displayProcessedImage` (script.js:158, 201-272): it only draws on screen. Its min/max scan is never used.
- ONNX Runtime session creation and `session.run` (script.js:281-297): a foreign asynchronous library. It is the parameter `infer`, which returns scores or a failure. Input and output names, shape descriptors and tensor construction are not modelled.
- Float32 storage and IEEE comparisons: every value is an exact `real`. Float32 rounding of 0.3, 0.9, the division by 255 and the normalisation constants is not captured. Neither are NaN or infinite scores: when every score is -Infinity, `output[i] > maxProb` never holds and the code returns -1, a case real numbers cannot express.
- `async`/`await` and `console.log`/`console.error` (script.js:275-316).
- Exceptions thrown by preprocessing itself, such as canvas failures, are not modelled. All four modelled steps are total. Only the inference failure leads to -1.
- The "bounding box never shrinks" property of repeated dilation has no lemma of its own. It follows from `Dilation.Dilated`: no pixel ever decreases.
