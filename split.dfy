/** `TrainingVSTesting` (main.go:123-133): the positional split of a frame
    into a training prefix and a testing part, and the split it was evidently
    meant to be. */
module Split {
  import opened Frames

  /** `(3 * df.Nrow()) / 4` with Go's integer division: the largest k with
      4k <= 3n. */
  function TrainingSize(n: nat): (k: nat)
    ensures 4 * k <= 3 * n < 4 * k + 4
  {
    (3 * n) / 4
  }

  /** The training part is a proper, non-empty part of the frame exactly when
      the frame has at least two rows; with one row it is empty. */
  lemma TrainingSizeBounds(n: nat)
    ensures TrainingSize(n) <= n
    ensures TrainingSize(n) == 0 <==> n < 2
    ensures 0 < n ==> TrainingSize(n) < n
  {
  }

  /** Contents of `indxs` after the loop of main.go:125-128: slots below the
      training size hold their own index, the rest keep the zero of `make`. */
  function WrittenIndices(n: nat): (idx: seq<int>)
  {
    seq(n, j => if j < TrainingSize(n) then j else 0)
  }

  function Range(lo: int, hi: int): (r: seq<int>)
    requires lo <= hi
  {
    seq(hi - lo, j => lo + j)
  }

  /** Every testing index keeps the zero of `make`; for every frame of at
      least two rows the first testing index is 0, a training row, where the
      held-out row k was meant. */
  lemma WrittenTestingIndicesRepeatRowZero(n: nat)
    ensures |WrittenIndices(n)| == n
    ensures forall j :: TrainingSize(n) <= j < n ==> WrittenIndices(n)[j] == 0
    ensures n >= 2 ==> WrittenIndices(n)[TrainingSize(n)] == 0 != TrainingSize(n) == Range(0, n)[TrainingSize(n)]
  {
    TrainingSizeBounds(n);
  }

  /** Training sizes for a few frame sizes. A three-row frame trains on two
      rows; only frames of fewer than two rows train on none. */
  lemma SplitBoundarySamples()
    ensures TrainingSize(0) == 0 && TrainingSize(1) == 0 && TrainingSize(2) == 1
    ensures TrainingSize(3) == 2 && TrainingSize(4) == 3 && TrainingSize(7) == 5
    ensures TrainingSize(8) == 6 && TrainingSize(100) == 75
  {
  }

  /** A four-row frame: the training rows are 0, 1, 2 and the testing frame
      is row 0 again instead of row 3. */
  lemma FourRowSplit()
    ensures TrainingSize(4) == 3
    ensures WrittenIndices(4) == [0, 1, 2, 0]
  {
  }

  /** The split as written. The testing frame (returned first) has
      `n - (3n)/4` rows, every one a copy of row 0; the training frame is
      rows `[0, (3n)/4)`. */
  method TrainingVSTesting(df: Frame) returns (testing: Frame, training: Frame)
    requires df.Valid()
    ensures training == Subset(df, WrittenIndices(df.nrow)[..TrainingSize(df.nrow)])
    ensures testing == Subset(df, WrittenIndices(df.nrow)[TrainingSize(df.nrow)..])
    ensures training.Valid() && testing.Valid()
    ensures training.cols.Keys == df.cols.Keys && testing.cols.Keys == df.cols.Keys
    ensures training.nrow == TrainingSize(df.nrow)
    ensures testing.nrow == df.nrow - TrainingSize(df.nrow)
    ensures forall name, j :: name in df.cols && 0 <= j < training.nrow ==> training.cols[name][j] == df.cols[name][j]
    ensures forall name, j :: name in df.cols && 0 <= j < testing.nrow ==> testing.cols[name][j] == df.cols[name][0]
  {
    var n := df.nrow;
    var trainingNum := (3 * n) / 4;
    TrainingSizeBounds(n);
    var indxs := new int[n](_ => 0);
    for i := 0 to trainingNum
      invariant forall j :: 0 <= j < i ==> indxs[j] == j
      invariant forall j :: i <= j < n ==> indxs[j] == 0
    {
      indxs[i] := i;
    }
    assert indxs[..] == WrittenIndices(n);
    assert indxs[0..trainingNum] == WrittenIndices(n)[..trainingNum];
    assert indxs[trainingNum..n] == WrittenIndices(n)[trainingNum..];
    training := Subset(df, indxs[0..trainingNum]);
    testing := Subset(df, indxs[trainingNum..n]);
  }

  /** The split the comment at main.go:122 ("training vs testing sets")
      evidently intends: training is rows `[0, k)` and
      testing rows `[k, n)`, so every row lands in exactly one part. */
  method HeldOutSplit(df: Frame) returns (testing: Frame, training: Frame)
    requires df.Valid()
    ensures training == Subset(df, Range(0, TrainingSize(df.nrow)))
    ensures testing == Subset(df, Range(TrainingSize(df.nrow), df.nrow))
    ensures training.Valid() && testing.Valid()
    ensures training.cols.Keys == df.cols.Keys && testing.cols.Keys == df.cols.Keys
    ensures training.nrow + testing.nrow == df.nrow
    ensures training.nrow == TrainingSize(df.nrow)
    ensures forall name, r :: name in df.cols && 0 <= r < df.nrow ==>
              if r < training.nrow then training.cols[name][r] == df.cols[name][r]
              else testing.cols[name][r - training.nrow] == df.cols[name][r]
  {
    var n := df.nrow;
    var trainingNum := (3 * n) / 4;
    TrainingSizeBounds(n);
    var indxs := new int[n](_ => 0);
    for i := 0 to n
      invariant forall j :: 0 <= j < i ==> indxs[j] == j
    {
      indxs[i] := i;
    }
    assert indxs[0..trainingNum] == Range(0, trainingNum);
    assert indxs[trainingNum..n] == Range(trainingNum, n);
    training := Subset(df, indxs[0..trainingNum]);
    testing := Subset(df, indxs[trainingNum..n]);
  }
}
