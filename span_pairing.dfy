/**
 * The span-pairing pass of transformMarks (d3-timeline/src/App.js lines
 * 30-50): mark columns named "<label>StartTime" / "<label>EndTime" fill an
 * insertion-ordered table label -> [start, end] and widen the domain.
 */
module SpanPairing {
  import opened FirstSeen
  import opened SpanNames
  import opened TimelineTypes

  /** How a mark column pairs: by its display name, or not at all when it has no metadata. */
  function Kind(info: map<ColId, ColumnInfo>, c: ColId): SpanName {
    if c in info then Classify(info[c].name) else NoMatch
  }

  /** Every mark column whose name pairs into a span has an aggregate. */
  predicate SpansAggregated(marks: seq<ColId>, info: map<ColId, ColumnInfo>, agg: map<ColId, real>) {
    forall i :: 0 <= i < |marks| && Kind(info, marks[i]) != NoMatch ==> marks[i] in agg
  }

  /**
   * The aggregate the pass reads for a column. Where SpansAggregated holds
   * (as it does on admissible inputs) the default is only read for columns
   * that do not pair, whose value the pass ignores; a pairing column with no
   * aggregate, where the source would write `undefined`, is not modelled.
   */
  function AggOf(agg: map<ColId, real>, c: ColId): real {
    if c in agg then agg[c] else 0.0
  }

  /**
   * `timeSpans` with its keys in insertion order (`labels`) and the running
   * `domain`.
   */
  datatype SpanTable = SpanTable(labels: seq<string>, spans: map<string, TimeRange>, domain: Domain)

  const Initial: SpanTable := SpanTable([], map[], Domain(0.0, 0.0))

  function Min(a: real, b: real): real {
    if a <= b then a else b
  }

  function Max(a: real, b: real): real {
    if a <= b then b else a
  }

  /** One iteration of the loop at lines 32-50, for a column of kind `k` with aggregate `v`. */
  function Step(t: SpanTable, k: SpanName, v: real): SpanTable {
    match k
    case NoMatch => t
    case Start(l) =>
      var cur := if l in t.spans then t.spans[l] else TimeRange(0.0, 0.0);
      SpanTable(if l in t.spans then t.labels else t.labels + [l],
                t.spans[l := cur.(start := v)],
                t.domain.(lo := Min(t.domain.lo, v)))
    case End(l) =>
      var cur := if l in t.spans then t.spans[l] else TimeRange(0.0, 0.0);
      SpanTable(if l in t.spans then t.labels else t.labels + [l],
                t.spans[l := cur.(end := v)],
                t.domain.(hi := Max(t.domain.hi, v)))
  }

  /**
   * A pairing column writes one end of its label's span and nothing else: a
   * new label is appended to the key order with range [0, 0] before the
   * write, the other end and every other label keep their values, and only
   * the matching side of the domain moves, outwards, to take in `v`.
   */
  lemma StepWrites(t: SpanTable, k: SpanName, v: real)
    requires !k.NoMatch?
    ensures
      var l, r := k.prefix, Step(t, k, v);
      var old_ := if l in t.spans then t.spans[l] else TimeRange(0.0, 0.0);
      && l in r.spans
      && r.labels == (if l in t.spans then t.labels else t.labels + [l])
      && (forall m :: m != l ==> (m in r.spans <==> m in t.spans))
      && (forall m :: m != l && m in t.spans ==> r.spans[m] == t.spans[m])
      && (k.Start? ==> r.spans[l] == TimeRange(v, old_.end))
      && (k.End? ==> r.spans[l] == TimeRange(old_.start, v))
      && (k.Start? ==> r.domain.hi == t.domain.hi && r.domain.lo <= t.domain.lo && r.domain.lo <= v
                       && (r.domain.lo == t.domain.lo || r.domain.lo == v))
      && (k.End? ==> r.domain.lo == t.domain.lo && r.domain.hi >= t.domain.hi && r.domain.hi >= v
                     && (r.domain.hi == t.domain.hi || r.domain.hi == v))
  {
  }

  /** The loop run over `marks`, starting from table `t`. */
  function Run(t: SpanTable, marks: seq<ColId>, info: map<ColId, ColumnInfo>, agg: map<ColId, real>): SpanTable
    decreases |marks|
  {
    if marks == [] then t
    else
      var c := marks[|marks| - 1];
      Step(Run(t, marks[..|marks| - 1], info, agg), Kind(info, c), AggOf(agg, c))
  }

  function Pass(marks: seq<ColId>, info: map<ColId, ColumnInfo>, agg: map<ColId, real>): SpanTable {
    Run(Initial, marks, info, agg)
  }

  /** The labels captured from the mark columns that pair, in column order, repeats included. */
  function SpanLabels(marks: seq<ColId>, info: map<ColId, ColumnInfo>): seq<string> {
    if marks == [] then []
    else
      var k := Kind(info, marks[|marks| - 1]);
      SpanLabels(marks[..|marks| - 1], info) + (if k.NoMatch? then [] else [k.prefix])
  }

  /** The aggregate of the last mark column of kind `k`, or 0 when there is none. */
  function LastValue(marks: seq<ColId>, info: map<ColId, ColumnInfo>, agg: map<ColId, real>, k: SpanName): real {
    if marks == [] then 0.0
    else
      var c := marks[|marks| - 1];
      if Kind(info, c) == k then AggOf(agg, c) else LastValue(marks[..|marks| - 1], info, agg, k)
  }

  /**
   * Lines 32-50 with `domain` as a two-element array updated in place. The
   * table it returns is the specification Pass; the domain contains 0, lies
   * below every start aggregate and above every end aggregate.
   */
  method PairSpans(marks: seq<ColId>, info: map<ColId, ColumnInfo>, agg: map<ColId, real>) returns (t: SpanTable)
    requires SpansAggregated(marks, info, agg)
    ensures t == Pass(marks, info, agg)
    ensures t.domain.lo <= 0.0 <= t.domain.hi
    ensures forall i :: 0 <= i < |marks| && Kind(info, marks[i]).Start? ==> t.domain.lo <= agg[marks[i]]
    ensures forall i :: 0 <= i < |marks| && Kind(info, marks[i]).End? ==> agg[marks[i]] <= t.domain.hi
  {
    var labels: seq<string> := [];
    var spans: map<string, TimeRange> := map[];
    var domain := new real[2];
    domain[0], domain[1] := 0.0, 0.0;
    for i := 0 to |marks|
      invariant SpanTable(labels, spans, Domain(domain[0], domain[1])) == Run(Initial, marks[..i], info, agg)
    {
      var colId := marks[i];
      assert marks[..i + 1][..i] == marks[..i];
      if colId in info {
        match Classify(info[colId].name)
        case Start(l) =>
          if l !in spans {
            labels := labels + [l];
            spans := spans[l := TimeRange(0.0, 0.0)];
          }
          spans := spans[l := spans[l].(start := agg[colId])];
          domain[0] := Min(domain[0], agg[colId]);
        case End(l) =>
          if l !in spans {
            labels := labels + [l];
            spans := spans[l := TimeRange(0.0, 0.0)];
          }
          spans := spans[l := spans[l].(end := agg[colId])];
          domain[1] := Max(domain[1], agg[colId]);
        case NoMatch =>
      }
    }
    assert marks[..|marks|] == marks;
    t := SpanTable(labels, spans, Domain(domain[0], domain[1]));
    PassDomain(marks, info, agg);
  }

  /** A label that no column captured reads 0 on both sides, the seed of a fresh span. */
  lemma {:induction false} LastValueUnpaired(marks: seq<ColId>, info: map<ColId, ColumnInfo>, agg: map<ColId, real>, l: string)
    requires l !in SpanLabels(marks, info)
    ensures LastValue(marks, info, agg, Start(l)) == 0.0
    ensures LastValue(marks, info, agg, End(l)) == 0.0
    decreases |marks|
  {
    if marks != [] {
      LastValueUnpaired(marks[..|marks| - 1], info, agg, l);
    }
  }

  /**
   * The table holds exactly the captured labels, and a label's span is
   * [aggregate of its last start column, aggregate of its last end column],
   * with 0 for a side that never matched: a start match writes only index 0,
   * an end match only index 1, and a later match on the same side wins.
   */
  lemma {:induction false} PassSpans(marks: seq<ColId>, info: map<ColId, ColumnInfo>, agg: map<ColId, real>)
    ensures forall l :: l in Pass(marks, info, agg).spans <==> l in SpanLabels(marks, info)
    ensures forall l :: l in Pass(marks, info, agg).spans ==>
      Pass(marks, info, agg).spans[l] == TimeRange(LastValue(marks, info, agg, Start(l)), LastValue(marks, info, agg, End(l)))
    decreases |marks|
  {
    if marks != [] {
      var init, c := marks[..|marks| - 1], marks[|marks| - 1];
      PassSpans(init, info, agg);
      match Kind(info, c)
      case NoMatch =>
      case Start(l0) =>
        if l0 !in SpanLabels(init, info) {
          LastValueUnpaired(init, info, agg, l0);
        }
      case End(l0) =>
        if l0 !in SpanLabels(init, info) {
          LastValueUnpaired(init, info, agg, l0);
        }
    }
  }

  /** The table's keys are the captured labels in first-discovery order. */
  lemma {:induction false} PassLabels(marks: seq<ColId>, info: map<ColId, ColumnInfo>, agg: map<ColId, real>)
    ensures Pass(marks, info, agg).labels == Firsts(SpanLabels(marks, info))
    decreases |marks|
  {
    if marks != [] {
      var init, c := marks[..|marks| - 1], marks[|marks| - 1];
      PassLabels(init, info, agg);
      PassSpans(init, info, agg);
      var k := Kind(info, c);
      assert Pass(marks, info, agg) == Step(Pass(init, info, agg), k, AggOf(agg, c));
      if k.NoMatch? {
        assert SpanLabels(marks, info) == SpanLabels(init, info);
      } else {
        FirstsSnoc(SpanLabels(init, info), k.prefix);
      }
    }
  }

  /**
   * The domain starts at [0, 0] and is only widened: its low end is 0 or the
   * least start aggregate, its high end 0 or the greatest end aggregate.
   */
  lemma {:induction false} PassDomain(marks: seq<ColId>, info: map<ColId, ColumnInfo>, agg: map<ColId, real>)
    ensures Pass(marks, info, agg).domain.lo <= 0.0 <= Pass(marks, info, agg).domain.hi
    ensures forall i :: 0 <= i < |marks| && Kind(info, marks[i]).Start? ==>
      Pass(marks, info, agg).domain.lo <= AggOf(agg, marks[i])
    ensures forall i :: 0 <= i < |marks| && Kind(info, marks[i]).End? ==>
      AggOf(agg, marks[i]) <= Pass(marks, info, agg).domain.hi
    ensures Pass(marks, info, agg).domain.lo == 0.0 ||
      exists i :: 0 <= i < |marks| && Kind(info, marks[i]).Start? && AggOf(agg, marks[i]) == Pass(marks, info, agg).domain.lo
    ensures Pass(marks, info, agg).domain.hi == 0.0 ||
      exists i :: 0 <= i < |marks| && Kind(info, marks[i]).End? && AggOf(agg, marks[i]) == Pass(marks, info, agg).domain.hi
    decreases |marks|
  {
    if marks != [] {
      var init := marks[..|marks| - 1];
      PassDomain(init, info, agg);
      assert forall i :: 0 <= i < |init| ==> marks[i] == init[i];
    }
  }

  /** With no mark column that pairs, the table stays empty and the domain [0, 0]. */
  lemma {:induction false} PassNoSpans(marks: seq<ColId>, info: map<ColId, ColumnInfo>, agg: map<ColId, real>)
    requires forall i :: 0 <= i < |marks| ==> Kind(info, marks[i]) == NoMatch
    ensures Pass(marks, info, agg) == Initial
    decreases |marks|
  {
    if marks != [] {
      PassNoSpans(marks[..|marks| - 1], info, agg);
    }
  }

  /** Running the loop over two halves in turn is running it over the whole. */
  lemma {:induction false} RunAppend(t: SpanTable, a: seq<ColId>, b: seq<ColId>, info: map<ColId, ColumnInfo>, agg: map<ColId, real>)
    ensures Run(t, a + b, info, agg) == Run(Run(t, a, info, agg), b, info, agg)
    decreases |b|
  {
    if b == [] {
      assert a + b == a;
    } else {
      assert (a + b)[..|a + b| - 1] == a + b[..|b| - 1];
      RunAppend(t, a, b[..|b| - 1], info, agg);
    }
  }

  /** A mark column that does not pair leaves the table and the domain as they were. */
  lemma PassSkipsUnpaired(a: seq<ColId>, c: ColId, b: seq<ColId>, info: map<ColId, ColumnInfo>, agg: map<ColId, real>)
    requires Kind(info, c) == NoMatch
    ensures Pass(a + [c] + b, info, agg) == Pass(a + b, info, agg)
  {
    RunAppend(Initial, a + [c], b, info, agg);
    RunAppend(Initial, a, [c], info, agg);
    RunAppend(Initial, a, b, info, agg);
    assert Run(Initial, a + [c], info, agg) == Run(Initial, a, info, agg) by {
      assert (a + [c])[..|a|] == a;
    }
  }
}
