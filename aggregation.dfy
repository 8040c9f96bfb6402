/**
 * The aggregation pass of transformMarks (d3-timeline/src/App.js lines
 * 20-29): one percentile per mark column that has data.
 */
module Aggregation {
  import opened TimelineTypes

  /** A marks column holds numbers and null or undefined cells only. */
  predicate NumericColumn(cells: seq<Cell>) {
    forall i :: 0 <= i < |cells| ==> !cells[i].Text?
  }

  /** JavaScript truthiness of a numeric cell. */
  predicate Truthy(c: Cell) {
    c.Num? && c.n != 0.0
  }

  /**
   * `colValues.filter((v) => (v == null ? 0 : v))`: the callback's value is
   * used as a truth test, so null/undefined cells and zeros are dropped
   * (they are not replaced by 0), and the remaining numbers keep their order.
   */
  function KeepTruthy(cells: seq<Cell>): (r: seq<real>)
    requires NumericColumn(cells)
    ensures |r| <= |cells|
    ensures forall i :: 0 <= i < |r| ==> r[i] != 0.0
    ensures forall i :: 0 <= i < |r| ==> Num(r[i]) in cells
  {
    if cells == [] then []
    else
      var rest := KeepTruthy(cells[1..]);
      assert forall c :: c in cells[1..] ==> c in cells;
      if Truthy(cells[0]) then [cells[0].n] + rest else rest
  }

  /** Filtering distributes over concatenation of columns. */
  lemma {:induction false} KeepTruthyAppend(a: seq<Cell>, b: seq<Cell>)
    requires NumericColumn(a) && NumericColumn(b)
    ensures NumericColumn(a + b)
    ensures KeepTruthy(a + b) == KeepTruthy(a) + KeepTruthy(b)
    decreases |a|
  {
    if a == [] {
      assert a + b == b;
    } else {
      assert (a + b)[1..] == a[1..] + b;
      KeepTruthyAppend(a[1..], b);
    }
  }

  /** The filter keeps a single cell exactly when the cell is truthy. */
  lemma KeepTruthySingle(c: Cell)
    requires !c.Text?
    ensures KeepTruthy([c]) == if Truthy(c) then [c.n] else []
  {
  }

  /**
   * A null or undefined cell and a zero cell are indistinguishable to the
   * aggregation: all are dropped before the percentile is taken.
   */
  lemma NullLikeZero(cells: seq<Cell>, i: nat)
    requires NumericColumn(cells) && i < |cells| && (cells[i].Null? || cells[i].Undefined?)
    ensures NumericColumn(cells[i := Num(0.0)])
    ensures KeepTruthy(cells[i := Num(0.0)]) == KeepTruthy(cells)
  {
    var zeroed, absent := cells[i := Num(0.0)], cells[i];
    assert cells == cells[..i] + [absent] + cells[i + 1..];
    assert zeroed == cells[..i] + [Num(0.0)] + cells[i + 1..];
    KeepTruthySingle(absent);
    KeepTruthySingle(Num(0.0));
    KeepTruthyAppend(cells[..i], [absent]);
    KeepTruthyAppend(cells[..i] + [absent], cells[i + 1..]);
    KeepTruthyAppend(cells[..i], [Num(0.0)]);
    KeepTruthyAppend(cells[..i] + [Num(0.0)], cells[i + 1..]);
  }

  function NumCells(xs: seq<real>): seq<Cell> {
    seq(|xs|, i requires 0 <= i < |xs| => Num(xs[i]))
  }

  /** A column of non-zero numbers reaches the percentile unchanged. */
  lemma {:induction false} KeepTruthyNonzero(xs: seq<real>)
    requires forall i :: 0 <= i < |xs| ==> xs[i] != 0.0
    ensures KeepTruthy(NumCells(xs)) == xs
    decreases |xs|
  {
    if xs != [] {
      assert NumCells(xs)[1..] == NumCells(xs[1..]);
      KeepTruthyNonzero(xs[1..]);
    }
  }

  /** The percentile of every mark column that has a value array. */
  function Aggregated(marks: seq<ColId>, data: map<ColId, seq<Cell>>, pct: Percentile, p: real): (agg: map<ColId, real>)
    requires forall c :: c in marks && c in data ==> NumericColumn(data[c])
  {
    map c | c in marks && c in data :: pct(KeepTruthy(data[c]), p)
  }

  /**
   * Lines 22-29: a column gets an aggregate exactly when it is a mark column
   * with a value array, and the aggregate is the percentile of its truthy
   * values in column order.
   */
  method Aggregate(marks: seq<ColId>, data: map<ColId, seq<Cell>>, pct: Percentile, p: real) returns (agg: map<ColId, real>)
    requires forall c :: c in marks && c in data ==> NumericColumn(data[c])
    ensures forall c :: c in agg <==> c in marks && c in data
    ensures forall c :: c in agg ==> agg[c] == pct(KeepTruthy(data[c]), p)
    ensures agg == Aggregated(marks, data, pct, p)
  {
    agg := map[];
    for i := 0 to |marks|
      invariant forall c :: c in agg <==> c in marks[..i] && c in data
      invariant forall c :: c in agg ==> agg[c] == pct(KeepTruthy(data[c]), p)
    {
      var colId := marks[i];
      assert marks[..i + 1] == marks[..i] + [colId];
      if colId in data {
        agg := agg[colId := pct(KeepTruthy(data[colId]), p)];
      }
    }
    assert marks[..|marks|] == marks;
  }
}
