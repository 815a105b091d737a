/** The numeric view of a gota data frame, as main.go reads it through
    `df.Col(name).Float()`: every column is a sequence of float cells, and a
    cell that is NaN (unparseable or empty in the CSV) is `Missing`. */
module Frames {
  /** One float cell of a column; `Missing` stands for IEEE NaN. */
  datatype Cell = Missing | Present(v: real)

  /** A data frame: named columns, all `nrow` cells long. */
  datatype Frame = Frame(cols: map<string, seq<Cell>>, nrow: nat) {
    predicate Valid() {
      forall name :: name in cols ==> |cols[name]| == nrow
    }
  }

  /** Row `r` holds a number in each of the three columns a regression row
      needs: the hypothesis (predictor), the target and the land size. */
  predicate RowComplete(h: seq<Cell>, t: seq<Cell>, w: seq<Cell>, r: int) {
    0 <= r < |h| && r < |t| && r < |w| && h[r].Present? && t[r].Present? && w[r].Present?
  }

  /** Every index names a row of an `n`-row frame. */
  predicate InRange(idx: seq<int>, n: nat) {
    forall j :: 0 <= j < |idx| ==> 0 <= idx[j] < n
  }

  /** `df.Subset(idx)` of the data-frame library: row j of the result is row
      `idx[j]` of `df`, in every column. */
  function Subset(df: Frame, idx: seq<int>): (r: Frame)
    requires df.Valid() && InRange(idx, df.nrow)
    ensures r.Valid() && r.nrow == |idx| && r.cols.Keys == df.cols.Keys
    ensures forall name, j :: name in r.cols && 0 <= j < |idx| ==> r.cols[name][j] == df.cols[name][idx[j]]
  {
    Frame(map name | name in df.cols :: seq(|idx|, j requires 0 <= j < |idx| => df.cols[name][idx[j]]), |idx|)
  }

  /** Subsetting by the consecutive indices `lo, lo+1, …, hi-1` slices every
      column. */
  lemma SubsetConsecutive(df: Frame, idx: seq<int>, lo: int, hi: int, name: string)
    requires df.Valid() && name in df.cols && 0 <= lo <= hi <= df.nrow
    requires |idx| == hi - lo && forall j :: 0 <= j < |idx| ==> idx[j] == lo + j
    ensures Subset(df, idx).cols[name] == df.cols[name][lo..hi]
  {
    var r := Subset(df, idx);
    assert |r.cols[name]| == hi - lo;
    forall j | 0 <= j < hi - lo
      ensures r.cols[name][j] == df.cols[name][lo..hi][j]
    {
    }
  }
}
