# Melbourne housing regression: the row loops of `main.go`

This project models the row-level logic of a small Go program that loads a
real-estate CSV file into a gota data frame, splits it into training and
testing frames, fits a least-squares regression of `Price` on `Distance` and
`Landsize`, and prints the mean absolute error (MAE). It also models the two
plotting helpers' loops, which count NaN cells and fill the buffers handed to
the plotting library.

A numeric cell is `Cell = Missing | Present(v)`; `Missing` stands for NaN.
A frame is a map from column name to a column of cells, all `nrow` long. The
regression library is a class `Regression` that logs its training points.
Its least-squares solve is a parameter `solve`. Arithmetic is over `real`.

Modules:
- `Frames`: cells, frames, `Subset`, and "row r is complete".
- `Masks`: generic buffers over `seq<Option<T>>`, either zero-filled or with missing slots dropped, and their lemmas.
- `RegressionModel`: observations, the `Regression` object, and `Predict`.
- `Split`: `TrainingVSTesting` and the corrected `HeldOutSplit`.
- `Training`: `CreateModel` and the observation filter.
- `Validation`: `ValidateModel` and the MAE accumulator.
- `Plots`: `CreateHistogram` and `CreateScatterPlot`.
- `Pipeline`: `main` as written (`Run`) and as intended (`RunHeldOut`).

Behaviour of the code the model keeps:
- The training size is `(3N)/4` with floor division, so k is 0 only for N < 2; N = 3 trains on 2 rows.
- The testing frame is row 0 repeated `N - k` times.
- `main` validates on the training frame.
- The plotting loops keep every slot and fill a missing one with 0.
- A failed prediction panics and ends `ValidateModel` before it prints.
- A training frame with no complete row raises no error: `Run` is still called, and its error is ignored.

## Model

| member | source | states |
|---|---|---|
| `Split.TrainingSize` | main.go:124 | The training size k is the floor of 3N/4: 4k <= 3N < 4k + 4. |
| `Split.TrainingSizeBounds` | main.go:124 | k <= N; k == 0 exactly when N < 2; k < N whenever N > 0. |
| `Split.SplitBoundarySamples` | main.go:124 | k for N = 0, 1, 2, 3, 4, 7, 8, 100 is 0, 0, 1, 2, 3, 5, 6, 75. |
| `Split.WrittenTestingIndicesRepeatRowZero` | main.go:125-131 | Every index slot at or past k keeps the zero from `make`. For N >= 2 the first testing index is 0, not k. |
| `Split.FourRowSplit` | main.go:125-131 | For N = 4 the index array is [0, 1, 2, 0], so the testing frame is row 0 instead of row 3. |
| `Split.TrainingVSTesting` | main.go:123-133 | Returns (testing, training). Training is rows [0, k). Testing has N - k rows, each a copy of row 0. Both keep every column. |
| `Split.HeldOutSplit` | main.go:123-133 | Corrected split: training is rows [0, k), testing is rows [k, N), and every row lands in exactly one of them. |
| `Training.CreateModel` | main.go:135-150 | The regression's trained points are exactly `Observations` of the three columns. Its names are set to "<target> Progression", "Distance" and "Landsize", and it is fitted once on those points. |
| `Training.ObservationsAreCompleteRows` | main.go:143-147 | Observations are the complete rows, in increasing row order. Row r is among them iff hypothesis, target and Landsize are all present. Each is (targ[r], [hyp[r], landsize[r]]). |
| `Training.IncompleteRowIsIgnored` | main.go:143-147 | Deleting a row with a missing cell leaves the observations, and so any fit, unchanged. |
| `Training.NoObservationsIffNoCompleteRow` | main.go:143-148 | Nothing is trained exactly when no row is complete. |
| `Validation.ValidateModel` | main.go:152-169 | Returns the MAE the function prints, or None when a prediction error panics before the print. |
| `Validation.ValidationIsMeanOverAllRows` | main.go:157-166 | For a fitted model, the result is the sum of abs(targ - prediction) over complete rows divided by the TOTAL row count (0 for an empty frame). An unfitted model aborts exactly when some row is complete. |
| `Validation.ValidationNonNegative` | main.go:157-166 | A reported MAE is >= 0. |
| `Validation.IncompleteRowScalesError` | main.go:158-166 | Appending a row with a missing cell turns MAE e into e*n/(n+1), and aborts exactly when the original aborts. |
| `Validation.ErrorIsScaledSum` | main.go:164 | Adding each term divided by N gives the running sum of absolute errors divided by N. |
| `Validation.ErrorStaysAborted` | main.go:160-163 | After a failed prediction the result stays None: the panic ends the loop. |
| `Plots.CreateHistogram` | main.go:51-67 | Both buffers have the column's length. They hold the value at present positions and 0 at missing ones. `nanValues` is the number of missing cells. |
| `Plots.HistogramBufferIsValuesPlusZeros` | main.go:56-66 | The buffer holds exactly the column's numbers plus one 0 per missing cell (as multisets), and missing + present == length. |
| `Plots.CreateScatterPlot` | main.go:85-99 | `pts` has the X column's length. `pts[i]` is (x[i], y[i]) when both are present and (0, 0) otherwise. `nanValues` counts the rows where x or y is missing. |
| `Plots.ScatterBufferIsPointsPlusOrigins` | main.go:89-99 | The points are exactly the complete (x, y) pairs plus one (0, 0) per incomplete row, and incomplete + complete == length. |
| `Pipeline.Run` | main.go:17-30 | `main`: the reported error is that of a model fitted on rows [0, k) and scored on those same rows. |
| `Pipeline.InSampleErrorIgnoresHeldOutRows` | main.go:26-29 | Two frames that agree on the training rows report the same error, whatever their other rows hold. |
| `Pipeline.RunHeldOut` | main.go:26-29 | Corrected `main`: fit on rows [0, k), score on the held-out rows [k, N). |
| `Pipeline.HeldOutErrorIsMeanOverHeldOutRows` | main.go:26-29 | For a fitted model, the corrected error is the summed absolute error over rows [k, N) divided by N - k. |

## Left out

- `CsvToDataframe` (main.go:41-49) opens and parses a file, which is I/O. The loaded frame is a parameter of `Pipeline.Run`, and the print-and-continue behaviour on an open failure is not modelled.
- The gota library is not part of this model. `Float()` on text columns is not modelled: every column is taken in its numeric view. A column name the frame lacks is excluded by `requires`, because the library's behaviour for it is not in view. `Subset` of an empty index list gives an empty frame.
- The least-squares solve (`r.Run`, main.go:148) is foreign numerics. It is the parameter `solve`, which may fail (`None`). The formula string it builds, and its printing at main.go:28, are left out.
- `RegressionModel.Predict`: the library's internals are not in view. It is modelled as intercept + c1*x1 + c2*x2, and it fails unless the fit has three coefficients.
- Rendering is left out: `plot.New`, the 50-bin histogram, the scatter glyphs and grid, axis labels (the X label is overwritten with `Yname` at main.go:105), and saving PNG files.
- `recoverPanic`, `panic` and `log.Fatal` (main.go:33-37, 70, 75, 79, 102, 110, 116) are left out, apart from the prediction panic. That panic is modelled as `ValidateModel` returning `None`.
- Printing and `%0.2f` formatting (main.go:67, 118, 168) are left out. The methods return the values that would be printed.
- `Validation.ValidateModel`: sums exact reals, not float64 values with rounding, and NaN is the `Missing` cell rather than an IEEE value.
- The commented-out exploratory code in `main` (main.go:19-25) is not modelled.

## Findings

| source | as written | input that shows it | evidently intended | confidence | as-written member | corrected member |
|---|---|---|---|---|---|---|
| main.go:125-131 | Only `indxs[0..k)` is written, so the testing indices are all 0 and the testing frame is row 0 repeated | a 4-row frame: indices [0, 1, 2, 0], testing frame = row 0 instead of row 3 | testing frame = rows [k, N) | high; not executed | `Split.FourRowSplit` | `Split.HeldOutSplit` |
| main.go:26-29 | The model is validated on the training frame, so the MAE is in-sample | any two frames that differ only in rows [k, N) report the same MAE | score on the held-out rows | medium; not executed | `Pipeline.InSampleErrorIgnoresHeldOutRows` | `Pipeline.RunHeldOut` |
