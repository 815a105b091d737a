/** `ValidateModel` (main.go:152-169): the mean absolute error of a fitted
    model over a frame, summed over the complete rows and divided by the
    frame's total row count. */
module Validation {
  import opened Wrappers
  import opened Frames
  import opened RegressionModel
  import opened Training

  function Abs(x: real): real
  {
    if x < 0.0 then -x else x
  }

  /** The accumulator `regressionError` after the first `i` rows, or `None`
      once a prediction has failed (the panic that ends the function before
      it prints). The divisor is the total row count `|h|`. */
  function ErrorUpTo(coeffs: Option<seq<real>>, h: seq<Cell>, t: seq<Cell>, w: seq<Cell>, i: nat): Option<real>
    requires |t| == |h| && |w| == |h| && i <= |h|
  {
    if i == 0 then Some(0.0)
    else match ErrorUpTo(coeffs, h, t, w, i - 1)
      case None => None
      case Some(acc) =>
        if RowComplete(h, t, w, i - 1) then
          match Predict(coeffs, h[i - 1].v, w[i - 1].v)
          case None => None
          case Some(p) => Some(acc + Abs(t[i - 1].v - p) / (|h| as real))
        else Some(acc)
  }

  /** What `ValidateModel` prints as `MAE = …`, or `None` when it panics. */
  function ValidationError(coeffs: Option<seq<real>>, h: seq<Cell>, t: seq<Cell>, w: seq<Cell>): Option<real>
    requires |t| == |h| && |w| == |h|
  {
    ErrorUpTo(coeffs, h, t, w, |h|)
  }

  /** The sum of absolute errors of fitted coefficients `c` over the complete
      rows among the first `i`. */
  function AbsErrorSum(c: seq<real>, h: seq<Cell>, t: seq<Cell>, w: seq<Cell>, i: nat): (s: real)
    requires |c| == 3 && |t| == |h| && |w| == |h| && i <= |h|
    ensures s >= 0.0
  {
    if i == 0 then 0.0
    else AbsErrorSum(c, h, t, w, i - 1)
         + (if RowComplete(h, t, w, i - 1) then Abs(t[i - 1].v - Estimate(c, h[i - 1].v, w[i - 1].v)) else 0.0)
  }

  lemma SumOfQuotients(a: real, e: real, n: real)
    requires n > 0.0
    ensures a / n + e / n == (a + e) / n
  {
  }

  lemma {:induction false} ErrorIsScaledSum(c: seq<real>, h: seq<Cell>, t: seq<Cell>, w: seq<Cell>, i: nat)
    requires |c| == 3 && |t| == |h| && |w| == |h| && 0 < |h| && i <= |h|
    ensures ErrorUpTo(Some(c), h, t, w, i) == Some(AbsErrorSum(c, h, t, w, i) / (|h| as real))
  {
    if i > 0 {
      ErrorIsScaledSum(c, h, t, w, i - 1);
      var n := |h| as real;
      var a := AbsErrorSum(c, h, t, w, i - 1);
      var e := if RowComplete(h, t, w, i - 1) then Abs(t[i - 1].v - Estimate(c, h[i - 1].v, w[i - 1].v)) else 0.0;
      SumOfQuotients(a, e, n);
    }
  }

  lemma {:induction false} UnfittedErrorUpTo(coeffs: Option<seq<real>>, h: seq<Cell>, t: seq<Cell>, w: seq<Cell>, i: nat)
    requires |t| == |h| && |w| == |h| && i <= |h| && !Fitted(coeffs)
    ensures ErrorUpTo(coeffs, h, t, w, i) == None <==> exists r :: 0 <= r < i && RowComplete(h, t, w, r)
    ensures ErrorUpTo(coeffs, h, t, w, i) != None ==> ErrorUpTo(coeffs, h, t, w, i) == Some(0.0)
  {
    if i > 0 {
      UnfittedErrorUpTo(coeffs, h, t, w, i - 1);
    }
  }

  /** The reported value is the mean absolute error over ALL rows of the
      frame: the absolute errors of the complete rows summed and divided by
      the total row count, not by the number of complete rows. An unfitted
      model aborts exactly when some row is complete. */
  lemma ValidationIsMeanOverAllRows(coeffs: Option<seq<real>>, h: seq<Cell>, t: seq<Cell>, w: seq<Cell>)
    requires |t| == |h| && |w| == |h|
    ensures Fitted(coeffs) ==>
      ValidationError(coeffs, h, t, w) ==
        Some(if |h| == 0 then 0.0 else AbsErrorSum(coeffs.value, h, t, w, |h|) / (|h| as real))
    ensures !Fitted(coeffs) ==>
      (ValidationError(coeffs, h, t, w) == None <==> exists r :: 0 <= r < |h| && RowComplete(h, t, w, r))
    ensures !Fitted(coeffs) && ValidationError(coeffs, h, t, w) != None ==> ValidationError(coeffs, h, t, w) == Some(0.0)
  {
    if Fitted(coeffs) {
      if |h| > 0 {
        ErrorIsScaledSum(coeffs.value, h, t, w, |h|);
      }
    } else {
      UnfittedErrorUpTo(coeffs, h, t, w, |h|);
    }
  }

  /** A reported error is never negative. */
  lemma ValidationNonNegative(coeffs: Option<seq<real>>, h: seq<Cell>, t: seq<Cell>, w: seq<Cell>)
    requires |t| == |h| && |w| == |h|
    ensures ValidationError(coeffs, h, t, w).Some? ==> ValidationError(coeffs, h, t, w).value >= 0.0
  {
    ValidationIsMeanOverAllRows(coeffs, h, t, w);
  }

  lemma {:induction false} AbsErrorSumPrefix(c: seq<real>, h: seq<Cell>, t: seq<Cell>, w: seq<Cell>,
                                               hc: Cell, tc: Cell, wc: Cell, i: nat)
    requires |c| == 3 && |t| == |h| && |w| == |h| && i <= |h|
    ensures AbsErrorSum(c, h + [hc], t + [tc], w + [wc], i) == AbsErrorSum(c, h, t, w, i)
  {
    if i > 0 {
      AbsErrorSumPrefix(c, h, t, w, hc, tc, wc, i - 1);
      assert RowComplete(h + [hc], t + [tc], w + [wc], i - 1) == RowComplete(h, t, w, i - 1);
    }
  }

  /** Appending a row with a missing cell changes the reported error from e
      to e*n/(n+1): the row adds nothing to the sum but one to the divisor. */
  lemma IncompleteRowScalesError(coeffs: Option<seq<real>>, h: seq<Cell>, t: seq<Cell>, w: seq<Cell>,
                                 hc: Cell, tc: Cell, wc: Cell)
    requires |t| == |h| && |w| == |h|
    requires !(hc.Present? && tc.Present? && wc.Present?)
    ensures ValidationError(coeffs, h + [hc], t + [tc], w + [wc]).None? <==> ValidationError(coeffs, h, t, w).None?
    ensures ValidationError(coeffs, h, t, w).Some? ==>
      ValidationError(coeffs, h + [hc], t + [tc], w + [wc]).value ==
        ValidationError(coeffs, h, t, w).value * (|h| as real) / ((|h| + 1) as real)
  {
    if Fitted(coeffs) {
      assert coeffs == Some(coeffs.value);
      FittedIncompleteRow(coeffs.value, h, t, w, hc, tc, wc);
    } else {
      UnfittedIncompleteRow(coeffs, h, t, w, hc, tc, wc);
      ValidationIsMeanOverAllRows(coeffs, h, t, w);
      assert 0.0 * (|h| as real) / ((|h| + 1) as real) == 0.0;
    }
  }

  lemma FittedIncompleteRow(c: seq<real>, h: seq<Cell>, t: seq<Cell>, w: seq<Cell>,
                            hc: Cell, tc: Cell, wc: Cell)
    requires |c| == 3 && |t| == |h| && |w| == |h|
    requires !(hc.Present? && tc.Present? && wc.Present?)
    ensures ValidationError(Some(c), h + [hc], t + [tc], w + [wc]).Some?
    ensures ValidationError(Some(c), h, t, w).Some?
    ensures ValidationError(Some(c), h + [hc], t + [tc], w + [wc]).value ==
            Rescaled(ValidationError(Some(c), h, t, w).value, |h|)
  {
    var s := AbsErrorSum(c, h, t, w, |h|);
    ExtendedSum(c, h, t, w, hc, tc, wc);
    ErrorIsScaledSum(c, h + [hc], t + [tc], w + [wc], |h| + 1);
    if |h| > 0 {
      ErrorIsScaledSum(c, h, t, w, |h|);
      RescaledMean(s, |h|, ValidationError(Some(c), h, t, w), ValidationError(Some(c), h + [hc], t + [tc], w + [wc]));
    }
  }

  /** An appended incomplete row adds nothing to the sum of absolute errors. */
  lemma ExtendedSum(c: seq<real>, h: seq<Cell>, t: seq<Cell>, w: seq<Cell>, hc: Cell, tc: Cell, wc: Cell)
    requires |c| == 3 && |t| == |h| && |w| == |h|
    requires !(hc.Present? && tc.Present? && wc.Present?)
    ensures AbsErrorSum(c, h + [hc], t + [tc], w + [wc], |h| + 1) == AbsErrorSum(c, h, t, w, |h|)
  {
    AbsErrorSumPrefix(c, h, t, w, hc, tc, wc, |h|);
    assert !RowComplete(h + [hc], t + [tc], w + [wc], |h|);
  }

  /** A mean over m rows, re-divided over m + 1 rows. */
  function Rescaled(e: real, m: nat): real
  {
    e * (m as real) / ((m + 1) as real)
  }

  /** A sum over m rows, divided by m and by m + 1. */
  lemma RescaledMean(s: real, m: nat, e: Option<real>, e': Option<real>)
    requires m > 0 && e == Some(s / (m as real)) && e' == Some(s / ((m + 1) as real))
    ensures e'.value == Rescaled(e.value, m)
  {
    assert e.value * (m as real) == s;
  }

  lemma UnfittedIncompleteRow(coeffs: Option<seq<real>>, h: seq<Cell>, t: seq<Cell>, w: seq<Cell>,
                              hc: Cell, tc: Cell, wc: Cell)
    requires |t| == |h| && |w| == |h| && !Fitted(coeffs)
    requires !(hc.Present? && tc.Present? && wc.Present?)
    ensures ValidationError(coeffs, h + [hc], t + [tc], w + [wc]) == ValidationError(coeffs, h, t, w)
  {
    var h', t', w' := h + [hc], t + [tc], w + [wc];
    ValidationIsMeanOverAllRows(coeffs, h, t, w);
    ValidationIsMeanOverAllRows(coeffs, h', t', w');
    assert forall r :: 0 <= r < |h| ==> RowComplete(h', t', w', r) == RowComplete(h, t, w, r);
    assert !RowComplete(h', t', w', |h|);
    if exists r :: 0 <= r < |h'| && RowComplete(h', t', w', r) {
      var r :| 0 <= r < |h'| && RowComplete(h', t', w', r);
      assert RowComplete(h, t, w, r);
    }
  }

  /** `ValidateModel(model, testing, hypothesisName, target)`: `Some(mae)`
      when it prints `MAE = mae`, `None` when a prediction error panics
      (recovered by the deferred handler, so nothing is printed). */
  method ValidateModel(model: Regression, testing: Frame, hypothesisName: string, target: string)
    returns (mae: Option<real>)
    requires testing.Valid()
    requires hypothesisName in testing.cols && target in testing.cols && Landsize in testing.cols
    ensures mae == ValidationError(model.coeffs, testing.cols[hypothesisName], testing.cols[target], testing.cols[Landsize])
  {
    var hypothosis := testing.cols[hypothesisName];
    var weight := testing.cols[Landsize];
    var targ := testing.cols[target];
    var regressionError := 0.0;
    for i := 0 to |hypothosis|
      invariant ErrorUpTo(model.coeffs, hypothosis, targ, weight, i) == Some(regressionError)
    {
      if hypothosis[i].Present? && targ[i].Present? && weight[i].Present? {
        var yPredicted := Predict(model.coeffs, hypothosis[i].v, weight[i].v);
        if yPredicted.None? {
          ErrorStaysAborted(model.coeffs, hypothosis, targ, weight, i + 1, |hypothosis|);
          return None;
        }
        regressionError := regressionError + Abs(targ[i].v - yPredicted.value) / (testing.nrow as real);
      }
    }
    mae := Some(regressionError);
  }

  /** Once a prediction has failed the function has ended: the result stays
      `None`. */
  lemma {:induction false} ErrorStaysAborted(coeffs: Option<seq<real>>, h: seq<Cell>, t: seq<Cell>, w: seq<Cell>, i: nat, j: nat)
    requires |t| == |h| && |w| == |h| && i <= j <= |h|
    requires ErrorUpTo(coeffs, h, t, w, i) == None
    ensures ErrorUpTo(coeffs, h, t, w, j) == None
    decreases j
  {
    if j > i {
      ErrorStaysAborted(coeffs, h, t, w, i, j - 1);
    }
  }
}
