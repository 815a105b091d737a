/** The part of the sajari/regression library that main.go drives: a
    regression object that records training points, is fitted once, and then
    predicts. The least-squares solve itself is foreign code and is passed in
    as `solve`. */
module RegressionModel {
  import opened Wrappers

  /** `regression.DataPoint(observed, variables)`. */
  datatype Observation = DataPoint(observed: real, variables: seq<real>)

  /** Fitted coefficients for the two predictors: an intercept and one
      coefficient each. */
  predicate Fitted(coeffs: Option<seq<real>>) {
    coeffs.Some? && |coeffs.value| == 3
  }

  /** `intercept + c1*x1 + c2*x2`. */
  function Estimate(c: seq<real>, x1: real, x2: real): real
    requires |c| == 3
  {
    c[0] + c[1] * x1 + c[2] * x2
  }

  /** `model.Predict([]float64{x1, x2})`: the linear estimate, or an error
      when the model holds no fit for two predictors. */
  function Predict(coeffs: Option<seq<real>>, x1: real, x2: real): (p: Option<real>)
    ensures p.Some? <==> Fitted(coeffs)
  {
    if Fitted(coeffs) then Some(Estimate(coeffs.value, x1, x2)) else None
  }

  class Regression {
    var observed: string
    var varNames: map<nat, string>
    var data: seq<Observation>
    var coeffs: Option<seq<real>>

    /** The zero value `var r regression.Regression`. */
    constructor ()
      ensures observed == "" && varNames == map[] && data == [] && coeffs == None
    {
      observed, varNames, data, coeffs := "", map[], [], None;
    }

    method SetObserved(name: string)
      modifies this`observed
      ensures observed == name
    {
      observed := name;
    }

    method SetVar(i: nat, name: string)
      modifies this`varNames
      ensures varNames == old(varNames)[i := name]
    {
      varNames := varNames[i := name];
    }

    /** Appends one training point. */
    method Train(d: Observation)
      modifies this`data
      ensures data == old(data) + [d]
    {
      data := data + [d];
    }

    /** Fits the model to the points trained so far. */
    method Run(solve: seq<Observation> -> Option<seq<real>>)
      modifies this`coeffs
      ensures coeffs == solve(data)
    {
      coeffs := solve(data);
    }
  }
}
