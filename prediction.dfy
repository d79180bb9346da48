// The tail of predict in script.js: run inference on the preprocessed
// tensor and pick the class with the highest score, or -1 on failure.

module Prediction {
  import opened Grid
  import opened Grayscale
  import opened Pipeline

  /** Number of classes the model scores (the digits 0 to 9). */
  const Classes: nat := 10

  /** The class reported when no prediction could be made. */
  const NoClass: int := -1

  /** The running maximum of the scan; it starts below every real score. */
  datatype Score = NegInfinity | Finite(value: real)

  /** What the inference call yields: the output scores, or an error. */
  datatype Inference = Scores(output: seq<real>) | Failed(reason: string)

  /** x is strictly greater than the running maximum. */
  predicate Beats(x: real, best: Score)
  {
    best.NegInfinity? || x > best.value
  }

  /** How many of the outputs the scan reads: the first ten, or fewer if the
      output is shorter (reading past its end yields a value that beats nothing). */
  function Scanned(output: seq<real>): (n: nat)
    ensures n <= Classes && n <= |output|
    ensures n == Classes || n == |output|
  {
    if |output| < Classes then |output| else Classes
  }

  /** k is the first index below n holding the largest of s[0..n]. */
  predicate IsFirstMax(s: seq<real>, n: int, k: int)
  {
    0 <= k < n <= |s| &&
    (forall j :: 0 <= j < n ==> s[j] <= s[k]) &&
    (forall j :: 0 <= j < k ==> s[j] < s[k])
  }

  /** The class predict reports for the given outputs. */
  predicate IsPrediction(output: seq<real>, predictedClass: int)
  {
    if Scanned(output) == 0 then predictedClass == NoClass
    else IsFirstMax(output, Scanned(output), predictedClass)
  }

  /** Reference definition of the first maximum, by recursion on the prefix. */
  function FirstArgmax(s: seq<real>, n: nat): (k: nat)
    requires 0 < n <= |s|
    ensures k < n
    decreases n
  {
    if n == 1 then 0
    else
      var k := FirstArgmax(s, n - 1);
      if s[n - 1] > s[k] then n - 1 else k
  }

  lemma {:induction false} FirstArgmaxIsFirstMax(s: seq<real>, n: nat)
    requires 0 < n <= |s|
    ensures IsFirstMax(s, n, FirstArgmax(s, n))
    decreases n
  {
    if n > 1 {
      FirstArgmaxIsFirstMax(s, n - 1);
    }
  }

  /** The first maximum is unique, so IsPrediction determines the class. */
  lemma FirstMaxUnique(s: seq<real>, n: int, a: int, b: int)
    requires IsFirstMax(s, n, a) && IsFirstMax(s, n, b)
    ensures a == b
  {
    assert s[a] == s[b];
  }

  /** The prediction is the reference first maximum, or -1 for an empty output. */
  lemma PredictionIsFirstArgmax(output: seq<real>, predictedClass: int)
    requires IsPrediction(output, predictedClass)
    ensures predictedClass == if Scanned(output) == 0 then NoClass
                              else FirstArgmax(output, Scanned(output))
  {
    if Scanned(output) > 0 {
      FirstArgmaxIsFirstMax(output, Scanned(output));
      FirstMaxUnique(output, Scanned(output), predictedClass, FirstArgmax(output, Scanned(output)));
    }
  }

  /** The loop of predict that tracks maxProb and predictedClass. */
  method Argmax(output: seq<real>) returns (predictedClass: int)
    ensures IsPrediction(output, predictedClass)
  {
    var maxProb := NegInfinity;
    predictedClass := NoClass;
    for i := 0 to Classes
      invariant var n := if i < |output| then i else |output|;
        (n == 0 ==> predictedClass == NoClass && maxProb == NegInfinity) &&
        (n > 0 ==> IsFirstMax(output, n, predictedClass) &&
                   maxProb == Finite(output[predictedClass]))
    {
      if i < |output| && Beats(output[i], maxProb) {
        maxProb := Finite(output[i]);
        predictedClass := i;
      }
    }
  }

  /** predict: preprocess, run inference, pick the class; any inference
      failure yields -1. */
  method Predict(data: array<Byte>, inverted: bool, infer: seq<real> -> Inference)
    returns (predictedClass: int)
    requires data.Length == Channels * PixelCount
    ensures predictedClass == NoClass || 0 <= predictedClass < Classes
    ensures match infer(Preprocessed(data[..], inverted))
            case Failed(_) => predictedClass == NoClass
            case Scores(output) => IsPrediction(output, predictedClass)
  {
    var inputTensor := Preprocess(data, inverted);
    var outcome := infer(inputTensor[..]);
    match outcome
    case Failed(_) =>
      predictedClass := NoClass;
    case Scores(output) =>
      predictedClass := Argmax(output);
  }
}
