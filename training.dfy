/** `CreateModel` (main.go:135-150): which rows of the training frame become
    regression observations, and in what shape. */
module Training {
  import opened Wrappers
  import opened Frames
  import opened Masks
  import opened RegressionModel

  /** The second predictor, fixed by name in main.go. */
  const Landsize: string := "Landsize"

  /** The observation row i would contribute: `(targ, [hyp, landsize])` when
      all three cells are numbers, nothing otherwise. */
  function RowObservation(h: Cell, t: Cell, w: Cell): Option<Observation>
  {
    if h.Present? && t.Present? && w.Present? then Some(DataPoint(t.v, [h.v, w.v])) else None
  }

  function RowObservations(h: seq<Cell>, t: seq<Cell>, w: seq<Cell>): (s: seq<Option<Observation>>)
    requires |t| == |h| && |w| == |h|
  {
    seq(|h|, i requires 0 <= i < |h| => RowObservation(h[i], t[i], w[i]))
  }

  /** The points the loop of main.go:143-147 passes to `r.Train`, in order. */
  function Observations(h: seq<Cell>, t: seq<Cell>, w: seq<Cell>): (obs: seq<Observation>)
    requires |t| == |h| && |w| == |h|
  {
    Somes(RowObservations(h, t, w))
  }

  /** The observations are exactly the complete rows, in their original
      order, each as `(targ[r], [hyp[r], landsize[r]])`. */
  lemma ObservationsAreCompleteRows(h: seq<Cell>, t: seq<Cell>, w: seq<Cell>)
    requires |t| == |h| && |w| == |h|
    ensures var rows := SomeIndices(RowObservations(h, t, w));
      && |rows| == |Observations(h, t, w)|
      && (forall r :: 0 <= r < |h| ==> (RowComplete(h, t, w, r) <==> r in rows))
      && (forall j, j' :: 0 <= j < j' < |rows| ==> rows[j] < rows[j'])
      && (forall j :: 0 <= j < |rows| ==>
            RowComplete(h, t, w, rows[j]) &&
            Observations(h, t, w)[j] == DataPoint(t[rows[j]].v, [h[rows[j]].v, w[rows[j]].v]))
  {
    SomesInOrder(RowObservations(h, t, w));
  }

  /** A row with a missing hypothesis, target or land size has no influence:
      deleting it leaves the observations, and so any fit made from them,
      unchanged. */
  lemma IncompleteRowIsIgnored(h: seq<Cell>, t: seq<Cell>, w: seq<Cell>, r: int)
    requires |t| == |h| && |w| == |h|
    requires 0 <= r < |h| && !RowComplete(h, t, w, r)
    ensures Observations(h[..r] + h[r + 1..], t[..r] + t[r + 1..], w[..r] + w[r + 1..]) == Observations(h, t, w)
  {
    var s := RowObservations(h, t, w);
    assert RowObservations(h[..r] + h[r + 1..], t[..r] + t[r + 1..], w[..r] + w[r + 1..]) == s[..r] + s[r + 1..];
    SomesSkipNone(s, r);
  }

  /** Nothing is trained exactly when no row is complete; the source then
      still calls `Run`. */
  lemma NoObservationsIffNoCompleteRow(h: seq<Cell>, t: seq<Cell>, w: seq<Cell>)
    requires |t| == |h| && |w| == |h|
    ensures Observations(h, t, w) == [] <==> forall r :: 0 <= r < |h| ==> !RowComplete(h, t, w, r)
  {
    var s := RowObservations(h, t, w);
    SomesEmptyIffAllNone(s);
    assert forall r :: 0 <= r < |h| ==> (s[r].None? <==> !RowComplete(h, t, w, r));
  }

  /** `CreateModel(training, hypothesisName, target)`. The variable names are
      fixed to "Distance" and "Landsize" whatever `hypothesisName` is. */
  method CreateModel(training: Frame, hypothesisName: string, target: string,
                     solve: seq<Observation> -> Option<seq<real>>)
    returns (r: Regression)
    requires training.Valid()
    requires hypothesisName in training.cols && target in training.cols && Landsize in training.cols
    ensures fresh(r)
    ensures r.observed == target + " Progression"
    ensures r.varNames == map[0 := "Distance", 1 := "Landsize"]
    ensures r.data == Observations(training.cols[hypothesisName], training.cols[target], training.cols[Landsize])
    ensures r.coeffs == solve(r.data)
  {
    var hypothosis := training.cols[hypothesisName];
    var targ := training.cols[target];
    var weight := training.cols[Landsize];
    ghost var s := RowObservations(hypothosis, targ, weight);
    r := new Regression();
    r.SetObserved(target + " Progression");
    r.SetVar(0, "Distance");
    r.SetVar(1, "Landsize");
    for i := 0 to |hypothosis|
      invariant r.observed == target + " Progression"
      invariant r.varNames == map[0 := "Distance", 1 := "Landsize"]
      invariant r.data == Somes(s[..i])
    {
      assert s[..i + 1][..i] == s[..i];
      if hypothosis[i].Present? && targ[i].Present? && weight[i].Present? {
        r.Train(DataPoint(targ[i].v, [hypothosis[i].v, weight[i].v]));
      }
    }
    assert s[..|hypothosis|] == s;
    r.Run(solve);
  }
}
