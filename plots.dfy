/** The buffers `CreateHistogram` (main.go:51-81) and `CreateScatterPlot`
    (main.go:85-120) hand to the plotting library, and the NaN counts they
    print. Missing slots are zero-filled, not dropped. */
module Plots {
  import opened Wrappers
  import opened Frames
  import opened Masks

  /** A point of `plotter.XYs`. */
  datatype XY = XY(x: real, y: real)

  function Reading(c: Cell): Option<real>
  {
    if c.Present? then Some(c.v) else None
  }

  /** The column as optional values. */
  function Readings(col: seq<Cell>): (s: seq<Option<real>>)
  {
    seq(|col|, i requires 0 <= i < |col| => Reading(col[i]))
  }

  /** Row i as a point when both of its cells are numbers. */
  function Pairs(xs: seq<Cell>, ys: seq<Cell>): (s: seq<Option<XY>>)
    requires |ys| >= |xs|
  {
    seq(|xs|, i requires 0 <= i < |xs| => if xs[i].Present? && ys[i].Present? then Some(XY(xs[i].v, ys[i].v)) else None)
  }

  /** `CreateHistogram(name, df)`: `plotVals` and `summaryVals` hold the
      column's value at each present position and 0 at each missing one, and
      `nanValues` is the number of missing positions. */
  method CreateHistogram(name: string, df: Frame) returns (plotVals: seq<real>, summaryVals: seq<real>, nanValues: nat)
    requires name in df.cols
    ensures |plotVals| == |df.cols[name]|
    ensures forall i :: 0 <= i < |plotVals| ==>
              plotVals[i] == (if df.cols[name][i].Present? then df.cols[name][i].v else 0.0)
    ensures summaryVals == plotVals
    ensures plotVals == Filled(Readings(df.cols[name]), 0.0)
    ensures nanValues == CountNone(Readings(df.cols[name]))
  {
    var column := df.cols[name];
    ghost var s := Readings(column);
    nanValues := 0;
    var vals := new real[|column|](_ => 0.0);
    var summary := new real[|column|](_ => 0.0);
    for i := 0 to |column|
      invariant forall j :: 0 <= j < |column| ==>
                  vals[j] == (if j < i && column[j].Present? then column[j].v else 0.0)
      invariant forall j :: 0 <= j < |column| ==> summary[j] == vals[j]
      invariant nanValues == CountNone(s[..i])
    {
      assert s[..i + 1][..i] == s[..i];
      if column[i].Present? {
        vals[i] := column[i].v;
        summary[i] := column[i].v;
      } else {
        nanValues := nanValues + 1;
      }
    }
    assert s[..|column|] == s;
    plotVals := vals[..];
    summaryVals := summary[..];
  }

  /** `CreateScatterPlot(yName, xName, df)`: `pts` has one point per row,
      `(x[i], y[i])` when both cells are numbers and `(0, 0)` otherwise, and
      `nanValues` counts the rows where x or y is missing. */
  method CreateScatterPlot(yName: string, xName: string, df: Frame) returns (pts: seq<XY>, nanValues: nat)
    requires df.Valid() && yName in df.cols && xName in df.cols
    ensures |pts| == |df.cols[xName]|
    ensures forall i :: 0 <= i < |pts| ==>
              pts[i] == (if df.cols[xName][i].Present? && df.cols[yName][i].Present?
                         then XY(df.cols[xName][i].v, df.cols[yName][i].v) else XY(0.0, 0.0))
    ensures pts == Filled(Pairs(df.cols[xName], df.cols[yName]), XY(0.0, 0.0))
    ensures nanValues == CountNone(Pairs(df.cols[xName], df.cols[yName]))
  {
    var y := df.cols[yName];
    var column := df.cols[xName];
    ghost var s := Pairs(column, y);
    var buf := new XY[|column|](_ => XY(0.0, 0.0));
    nanValues := 0;
    for i := 0 to |column|
      invariant forall j :: 0 <= j < |column| ==>
                  buf[j] == (if j < i && column[j].Present? && y[j].Present? then XY(column[j].v, y[j].v) else XY(0.0, 0.0))
      invariant nanValues == CountNone(s[..i])
    {
      assert s[..i + 1][..i] == s[..i];
      if column[i].Present? && y[i].Present? {
        buf[i] := XY(column[i].v, y[i].v);
      } else {
        nanValues := nanValues + 1;
      }
    }
    assert s[..|column|] == s;
    pts := buf[..];
  }

  /** The histogram buffer is the column's numbers plus one 0 per missing
      cell, and the count of missing cells plus the count of numbers is the
      column's length. */
  lemma HistogramBufferIsValuesPlusZeros(col: seq<Cell>)
    ensures multiset(Filled(Readings(col), 0.0)) ==
            multiset(Somes(Readings(col))) + multiset(Repeat(0.0, CountNone(Readings(col))))
    ensures CountNone(Readings(col)) + |Somes(Readings(col))| == |col|
  {
    FilledIsSomesPlusZeros(Readings(col), 0.0);
    CountNonePlusSomes(Readings(col));
  }

  /** The scatter buffer is the complete points plus one (0, 0) per row
      with a missing cell. */
  lemma ScatterBufferIsPointsPlusOrigins(xs: seq<Cell>, ys: seq<Cell>)
    requires |ys| >= |xs|
    ensures multiset(Filled(Pairs(xs, ys), XY(0.0, 0.0))) ==
            multiset(Somes(Pairs(xs, ys))) + multiset(Repeat(XY(0.0, 0.0), CountNone(Pairs(xs, ys))))
    ensures CountNone(Pairs(xs, ys)) + |Somes(Pairs(xs, ys))| == |xs|
  {
    FilledIsSomesPlusZeros(Pairs(xs, ys), XY(0.0, 0.0));
    CountNonePlusSomes(Pairs(xs, ys));
  }
}
