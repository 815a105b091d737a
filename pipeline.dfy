/** `main` (main.go:17-30): split the loaded frame, fit "Price" on
    "Distance" and "Landsize", and report the error. Loading the CSV file is
    I/O and is left out: the loaded frame is a parameter. */
module Pipeline {
  import opened Wrappers
  import opened Frames
  import opened RegressionModel
  import opened Split
  import opened Training
  import opened Validation

  const Distance: string := "Distance"
  const Price: string := "Price"

  predicate HasRegressionColumns(x: Frame) {
    x.Valid() && Distance in x.cols && Price in x.cols && Landsize in x.cols
  }

  /** The error `main` reports: a model fitted on the training rows
      `[0, k)` and scored on those same rows. */
  function InSampleError(x: Frame, solve: seq<Observation> -> Option<seq<real>>): Option<real>
    requires HasRegressionColumns(x)
  {
    var k := TrainingSize(x.nrow);
    var h, t, w := x.cols[Distance][..k], x.cols[Price][..k], x.cols[Landsize][..k];
    ValidationError(solve(Observations(h, t, w)), h, t, w)
  }

  /** The held-out error: a model fitted on rows `[0, k)` and
      scored on the held-out rows `[k, n)`. */
  function HeldOutError(x: Frame, solve: seq<Observation> -> Option<seq<real>>): Option<real>
    requires HasRegressionColumns(x)
  {
    var k := TrainingSize(x.nrow);
    ValidationError(solve(Observations(x.cols[Distance][..k], x.cols[Price][..k], x.cols[Landsize][..k])),
                    x.cols[Distance][k..], x.cols[Price][k..], x.cols[Landsize][k..])
  }

  /** The corrected error is the mean absolute error of the fitted model
      over the held-out rows: their summed absolute errors divided by the
      number of held-out rows. */
  lemma HeldOutErrorIsMeanOverHeldOutRows(x: Frame, solve: seq<Observation> -> Option<seq<real>>)
    requires HasRegressionColumns(x)
    ensures var k := TrainingSize(x.nrow);
      var c := solve(Observations(x.cols[Distance][..k], x.cols[Price][..k], x.cols[Landsize][..k]));
      Fitted(c) && k < x.nrow ==>
        HeldOutError(x, solve) ==
          Some(AbsErrorSum(c.value, x.cols[Distance][k..], x.cols[Price][k..], x.cols[Landsize][k..], x.nrow - k)
               / ((x.nrow - k) as real))
  {
    var k := TrainingSize(x.nrow);
    var c := solve(Observations(x.cols[Distance][..k], x.cols[Price][..k], x.cols[Landsize][..k]));
    ValidationIsMeanOverAllRows(c, x.cols[Distance][k..], x.cols[Price][k..], x.cols[Landsize][k..]);
  }

  /** As written, the reported error does not depend on the held-out rows at
      all: two frames that agree on the training rows report the same error,
      whatever their remaining rows hold. */
  lemma InSampleErrorIgnoresHeldOutRows(x: Frame, x': Frame, solve: seq<Observation> -> Option<seq<real>>)
    requires HasRegressionColumns(x) && HasRegressionColumns(x') && x.nrow == x'.nrow
    requires forall name, r :: name in {Distance, Price, Landsize} && 0 <= r < TrainingSize(x.nrow) ==>
               x.cols[name][r] == x'.cols[name][r]
    ensures InSampleError(x, solve) == InSampleError(x', solve)
  {
    var k := TrainingSize(x.nrow);
    assert x.cols[Distance][..k] == x'.cols[Distance][..k];
    assert x.cols[Price][..k] == x'.cols[Price][..k];
    assert x.cols[Landsize][..k] == x'.cols[Landsize][..k];
  }

  /** `main` as written: the testing frame is discarded, and the model is
      fitted and scored on the training frame. */
  method Run(x: Frame, solve: seq<Observation> -> Option<seq<real>>) returns (mae: Option<real>)
    requires HasRegressionColumns(x)
    ensures mae == InSampleError(x, solve)
  {
    var _, train := TrainingVSTesting(x);
    var r := CreateModel(train, Distance, Price, solve);
    mae := ValidateModel(r, train, Distance, Price);
    var k := TrainingSize(x.nrow);
    TrainingSizeBounds(x.nrow);
    var idx := WrittenIndices(x.nrow)[..k];
    SubsetConsecutive(x, idx, 0, k, Distance);
    SubsetConsecutive(x, idx, 0, k, Price);
    SubsetConsecutive(x, idx, 0, k, Landsize);
  }

  /** `main` as evidently intended: fit on the training frame, score on
      the testing frame of the corrected split. */
  method RunHeldOut(x: Frame, solve: seq<Observation> -> Option<seq<real>>) returns (mae: Option<real>)
    requires HasRegressionColumns(x)
    ensures mae == HeldOutError(x, solve)
  {
    var test, train := HeldOutSplit(x);
    var r := CreateModel(train, Distance, Price, solve);
    mae := ValidateModel(r, test, Distance, Price);
    var k, n := TrainingSize(x.nrow), x.nrow;
    TrainingSizeBounds(n);
    SlicesOfRange(x, k, Distance);
    SlicesOfRange(x, k, Price);
    SlicesOfRange(x, k, Landsize);
  }

  /** The two parts of the corrected split, column by column. */
  lemma SlicesOfRange(x: Frame, k: nat, name: string)
    requires x.Valid() && name in x.cols && k <= x.nrow
    ensures Subset(x, Range(0, k)).cols[name] == x.cols[name][..k]
    ensures Subset(x, Range(k, x.nrow)).cols[name] == x.cols[name][k..]
  {
    SubsetConsecutive(x, Range(0, k), 0, k, name);
    SubsetConsecutive(x, Range(k, x.nrow), k, x.nrow, name);
  }
}
