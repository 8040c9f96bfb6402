/**
 * transformMarks (d3-timeline/src/App.js lines 16-85): from the plugin
 * configuration, the columnar data and the column metadata to the grouped
 * series and the colour domain handed to the timeline chart.
 */
module Transform {
  import opened Wrappers
  import opened FirstSeen
  import opened SpanNames
  import opened TimelineTypes
  import opened Aggregation
  import opened SpanPairing
  import opened Entries

  const DefaultPercentile: real := 0.5
  const MarksGroupName: string := "marks"

  /** Line 17: the result when there are no mark columns. */
  const NoMarksResult: Output := Output([], Domain(0.0, 1.0))

  function MarksOf(config: Config): seq<ColId> {
    if config.marks.Some? then config.marks.value else []
  }

  function EntriesOf(config: Config): seq<ColId> {
    if config.entries.Some? then config.entries.value else []
  }

  /** Line 19: `percentile = 0.5` when the setting is absent. */
  function PercentileOf(config: Config): real {
    if config.percentile.Some? then config.percentile.value else DefaultPercentile
  }

  /** Every decoded record's name is a plain object key. */
  predicate PlainNames(decoded: Option<seq<EntryRecord>>) {
    decoded.Some? ==> forall r :: r in decoded.value ==> PlainKey(r.name)
  }

  /**
   * The inputs on which transformMarks behaves as an ordinary total
   * function, excluding what JavaScript does differently:
   * - a column id or span label that Object.prototype already holds would be
   *   looked up through the prototype;
   * - a span label or entry name that is an array index would be enumerated
   *   first, out of insertion order;
   * - a mark column that pairs into a span but has no data would write
   *   `undefined` and turn the domain into NaN;
   * - a mark column holding strings would hand strings to the percentile.
   * The decoder is also required to behave as JSON.parse does on a `null` or numeric cell.
   */
  ghost predicate Admissible(config: Config, data: map<ColId, seq<Cell>>, info: map<ColId, ColumnInfo>, decode: Decoder) {
    var marks := MarksOf(config);
    && (forall c :: c in marks ==> c !in PrototypeKeys)
    && (forall c :: c in EntriesOf(config) ==> c !in PrototypeKeys)
    && (forall c :: c in marks && c in data ==> NumericColumn(data[c]))
    && (forall c :: c in marks && Kind(info, c) != NoMatch ==> c in data && PlainKey(Kind(info, c).prefix))
    && (forall c :: c in EntriesOf(config) ==> PlainNames(DecodeRows(RawRows(data, c), decode)))
    && JsonDecoder(decode)
  }

  /** Every label of the table has a span. */
  predicate TableKeyed(t: SpanTable) {
    forall l :: l in t.labels ==> l in t.spans
  }

  lemma PassKeyed(marks: seq<ColId>, info: map<ColId, ColumnInfo>, agg: map<ColId, real>)
    ensures TableKeyed(Pass(marks, info, agg))
  {
    PassLabels(marks, info, agg);
    PassSpans(marks, info, agg);
  }

  /**
   * Lines 69-81: one series per label, in the table's key order, each with
   * the single point `{ timeRange, val: timeRange[1] - timeRange[0] }`.
   */
  function MarksGroup(t: SpanTable): Group
    requires TableKeyed(t)
  {
    Group(Some(MarksGroupName),
      seq(|t.labels|, k requires 0 <= k < |t.labels| => Series(t.labels[k], [PointOf(t.spans[t.labels[k]])])))
  }

  /** The value transformMarks returns or, as Failure, the exception it throws. */
  function Transform(config: Config, data: map<ColId, seq<Cell>>, info: map<ColId, ColumnInfo>, pct: Percentile, decode: Decoder)
    : Result<Output, TransformError>
    requires Admissible(config, data, info, decode)
  {
    var marks := MarksOf(config);
    if |marks| == 0 then Success(NoMarksResult)
    else
      var agg := Aggregated(marks, data, pct, PercentileOf(config));
      PassKeyed(marks, info, agg);
      Assemble(Pass(marks, info, agg), EntryGroups(EntriesOf(config), data, info, decode))
  }

  /** Lines 69-84: an exception from the entries map escapes; otherwise "marks" comes first. */
  function Assemble(t: SpanTable, entryData: Result<seq<Group>, TransformError>): Result<Output, TransformError>
    requires TableKeyed(t)
  {
    match entryData
    case Failure(e) => Failure(e)
    case Success(gs) => Success(Output([MarksGroup(t)] + gs, t.domain))
  }

  /**
   * transformMarks itself: aggregation, span pairing, the entries map and
   * the output assembly, in the source's order.
   */
  method TransformMarks(config: Config, data: map<ColId, seq<Cell>>, info: map<ColId, ColumnInfo>, pct: Percentile, decode: Decoder)
    returns (r: Result<Output, TransformError>)
    requires Admissible(config, data, info, decode)
    ensures r == Transform(config, data, info, pct, decode)
    ensures |MarksOf(config)| == 0 ==> r == Success(NoMarksResult)
    ensures r.Success? && |MarksOf(config)| > 0 ==>
      && |r.value.groups| == 1 + |EntriesOf(config)|
      && r.value.groups[0].group == Some(MarksGroupName)
      && r.value.domain.lo <= 0.0 <= r.value.domain.hi
  {
    if config.marks.None? || |config.marks.value| == 0 {
      return Success(NoMarksResult);
    }
    var marks := config.marks.value;
    var percentile := if config.percentile.Some? then config.percentile.value else DefaultPercentile;
    var aggregatedData := Aggregate(marks, data, pct, percentile);
    var table := PairSpans(marks, info, aggregatedData);
    var entries := if config.entries.Some? then config.entries.value else [];
    var entryData := CollectEntryGroups(entries, data, info, decode);
    if entryData.Failure? {
      return Failure(entryData.error);
    }
    PassKeyed(marks, info, aggregatedData);
    EntryGroupsSuccess(entries, data, info, decode);
    r := Success(Output([MarksGroup(table)] + entryData.value, table.domain));
  }

  /** The percentile of mark column `c`'s truthy values, as line 25 computes it. */
  function ColumnPercentile(config: Config, data: map<ColId, seq<Cell>>, pct: Percentile, c: ColId): real
    requires c in data && NumericColumn(data[c])
  {
    pct(KeepTruthy(data[c]), PercentileOf(config))
  }

  /**
   * The "marks" group comes first and has one series per captured label, in
   * first-discovery order; each series has the single point whose range is
   * [aggregate of the label's last start column, aggregate of its last end
   * column] (0 for a missing side) and whose `val` is end - start.
   */
  lemma TransformMarksSeries(config: Config, data: map<ColId, seq<Cell>>, info: map<ColId, ColumnInfo>, pct: Percentile, decode: Decoder)
    requires Admissible(config, data, info, decode)
    requires |MarksOf(config)| > 0 && Transform(config, data, info, pct, decode).Success?
    ensures
      var marks := MarksOf(config);
      var agg := Aggregated(marks, data, pct, PercentileOf(config));
      var labels := Firsts(SpanLabels(marks, info));
      var g := Transform(config, data, info, pct, decode).value.groups[0];
      && g.group == Some(MarksGroupName)
      && |g.data| == |labels|
      && forall k :: 0 <= k < |labels| ==>
           var span := TimeRange(LastValue(marks, info, agg, Start(labels[k])), LastValue(marks, info, agg, End(labels[k])));
           g.data[k] == Series(labels[k], [Point(span, span.end - span.start)])
  {
    var marks := MarksOf(config);
    var agg := Aggregated(marks, data, pct, PercentileOf(config));
    PassMarksGroup(marks, info, agg);
    assert Transform(config, data, info, pct, decode).value.groups[0] == MarksGroup(Pass(marks, info, agg));
  }

  /** The "marks" group built from the pass: one series per label, spanning its last start and end. */
  lemma PassMarksGroup(marks: seq<ColId>, info: map<ColId, ColumnInfo>, agg: map<ColId, real>)
    ensures TableKeyed(Pass(marks, info, agg))
    ensures
      var labels := Firsts(SpanLabels(marks, info));
      var g := MarksGroup(Pass(marks, info, agg));
      && |g.data| == |labels|
      && forall k :: 0 <= k < |labels| ==>
           var span := TimeRange(LastValue(marks, info, agg, Start(labels[k])), LastValue(marks, info, agg, End(labels[k])));
           g.data[k] == Series(labels[k], [Point(span, span.end - span.start)])
  {
    var t := Pass(marks, info, agg);
    PassLabels(marks, info, agg);
    PassKeyed(marks, info, agg);
    var g := MarksGroup(t);
    forall k | 0 <= k < |t.labels|
      ensures
        var span := TimeRange(LastValue(marks, info, agg, Start(t.labels[k])), LastValue(marks, info, agg, End(t.labels[k])));
        g.data[k] == Series(t.labels[k], [Point(span, span.end - span.start)])
    {
      var l := t.labels[k];
      PassSpanOf(marks, info, agg, l);
      assert g.data[k] == Series(l, [PointOf(t.spans[l])]);
    }
  }

  /** The span of one discovered label: its last start and last end aggregate. */
  lemma PassSpanOf(marks: seq<ColId>, info: map<ColId, ColumnInfo>, agg: map<ColId, real>, l: string)
    requires l in Firsts(SpanLabels(marks, info))
    ensures l in Pass(marks, info, agg).spans
    ensures Pass(marks, info, agg).spans[l] == TimeRange(LastValue(marks, info, agg, Start(l)), LastValue(marks, info, agg, End(l)))
  {
    PassSpans(marks, info, agg);
  }

  /**
   * The domain contains 0, lies below the percentile of every start column
   * and above that of every end column, and each end is 0 or attained by
   * such a column; with no column that pairs it stays [0, 0] and the
   * "marks" group has no series.
   */
  lemma TransformDomain(config: Config, data: map<ColId, seq<Cell>>, info: map<ColId, ColumnInfo>, pct: Percentile, decode: Decoder)
    requires Admissible(config, data, info, decode)
    requires |MarksOf(config)| > 0 && Transform(config, data, info, pct, decode).Success?
    ensures
      var marks := MarksOf(config);
      var out := Transform(config, data, info, pct, decode).value;
      && out.domain.lo <= 0.0 <= out.domain.hi
      && (forall c :: c in marks && Kind(info, c).Start? ==> out.domain.lo <= ColumnPercentile(config, data, pct, c))
      && (forall c :: c in marks && Kind(info, c).End? ==> ColumnPercentile(config, data, pct, c) <= out.domain.hi)
      && (out.domain.lo == 0.0 ||
          exists c :: c in marks && Kind(info, c).Start? && ColumnPercentile(config, data, pct, c) == out.domain.lo)
      && (out.domain.hi == 0.0 ||
          exists c :: c in marks && Kind(info, c).End? && ColumnPercentile(config, data, pct, c) == out.domain.hi)
      && ((forall c :: c in marks ==> Kind(info, c) == NoMatch) ==>
            out.domain == Domain(0.0, 0.0) && out.groups[0].data == [])
  {
    var marks := MarksOf(config);
    var agg := Aggregated(marks, data, pct, PercentileOf(config));
    PassDomain(marks, info, agg);
    forall c | c in marks && Kind(info, c) != NoMatch
      ensures AggOf(agg, c) == ColumnPercentile(config, data, pct, c)
    {
    }
    if forall c :: c in marks ==> Kind(info, c) == NoMatch {
      PassNoSpans(marks, info, agg);
    }
  }

  /**
   * After the "marks" group come the entries groups, one per entries column
   * in order, each named by the column's display name and holding its
   * decoded records grouped by name. The call fails exactly when some
   * column's single cell does not decode, and the error names the first
   * such column.
   */
  lemma TransformEntries(config: Config, data: map<ColId, seq<Cell>>, info: map<ColId, ColumnInfo>, pct: Percentile, decode: Decoder)
    requires Admissible(config, data, info, decode) && |MarksOf(config)| > 0
    ensures
      var entries := EntriesOf(config);
      var r := Transform(config, data, info, pct, decode);
      && (r.Success? <==> forall k :: 0 <= k < |entries| ==> DecodeRows(RawRows(data, entries[k]), decode).Some?)
      && (r.Success? ==>
            && |r.value.groups| == 1 + |entries|
            && forall k :: 0 <= k < |entries| ==>
                 r.value.groups[k + 1] == Group(GroupName(info, entries[k]), Grouped(DecodeRows(RawRows(data, entries[k]), decode).value)))
      && (r.Failure? ==> exists k :: FirstFailure(entries, data, decode, k) && r.error == MalformedPayload(entries[k]))
  {
    var entries := EntriesOf(config);
    var eg := EntryGroups(entries, data, info, decode);
    TransformAssembles(config, data, info, pct, decode);
    AssembleGroups(Pass(MarksOf(config), info, Aggregated(MarksOf(config), data, pct, PercentileOf(config))), eg);
    EntryGroupsSuccess(entries, data, info, decode);
    if eg.Failure? {
      EntryGroupsFailure(entries, data, info, decode);
    }
  }

  /** With mark columns, the result is assembled from the span table and the entries map. */
  lemma TransformAssembles(config: Config, data: map<ColId, seq<Cell>>, info: map<ColId, ColumnInfo>, pct: Percentile, decode: Decoder)
    requires Admissible(config, data, info, decode) && |MarksOf(config)| > 0
    ensures TableKeyed(Pass(MarksOf(config), info, Aggregated(MarksOf(config), data, pct, PercentileOf(config))))
    ensures Transform(config, data, info, pct, decode)
         == Assemble(Pass(MarksOf(config), info, Aggregated(MarksOf(config), data, pct, PercentileOf(config))),
                     EntryGroups(EntriesOf(config), data, info, decode))
  {
    PassKeyed(MarksOf(config), info, Aggregated(MarksOf(config), data, pct, PercentileOf(config)));
  }

  /** The entries map's failure escapes; otherwise "marks" comes first, then its groups, with the table's domain. */
  lemma AssembleGroups(t: SpanTable, entryData: Result<seq<Group>, TransformError>)
    requires TableKeyed(t)
    ensures entryData.Failure? ==> Assemble(t, entryData) == Failure(entryData.error)
    ensures entryData.Success? ==>
      var r := Assemble(t, entryData);
      && r.Success?
      && r.value.domain == t.domain
      && |r.value.groups| == 1 + |entryData.value|
      && r.value.groups[0] == MarksGroup(t)
      && forall k :: 0 <= k < |entryData.value| ==> r.value.groups[k + 1] == entryData.value[k]
  {
  }

  /**
   * Adding to a non-empty `config.marks` a column that has no data, at any
   * position, leaves the result unchanged (when the column pairs into a span
   * the inputs are not admissible: the source would produce NaN). From an
   * empty list it does not: see FirstMarkColumnNotNeutral.
   */
  lemma TransformSkipsMissingColumn(config: Config, data: map<ColId, seq<Cell>>, info: map<ColId, ColumnInfo>, pct: Percentile, decode: Decoder,
                                    i: nat, c: ColId)
    requires |MarksOf(config)| > 0 && i <= |MarksOf(config)| && c !in data
    requires Admissible(config.(marks := Some(MarksOf(config)[..i] + [c] + MarksOf(config)[i..])), data, info, decode)
    ensures Admissible(config, data, info, decode)
    ensures Transform(config.(marks := Some(MarksOf(config)[..i] + [c] + MarksOf(config)[i..])), data, info, pct, decode)
         == Transform(config, data, info, pct, decode)
  {
    var marks := MarksOf(config);
    var a, b := marks[..i], marks[i..];
    var wider := config.(marks := Some(a + [c] + b));
    assert marks == a + b;
    assert forall x :: x in a + [c] + b <==> x in marks || x == c;
    assert Kind(info, c) == NoMatch;
    var p := PercentileOf(config);
    assert Aggregated(a + [c] + b, data, pct, p) == Aggregated(marks, data, pct, p);
    PassSkipsUnpaired(a, c, b, info, Aggregated(marks, data, pct, p));
  }

  /**
   * Adding a mark column without data is only neutral once the marks list is
   * non-empty: from no marks at all, the result changes from
   * `[[], [0, 1]]` to a "marks" group with no series and domain [0, 0].
   */
  lemma FirstMarkColumnNotNeutral(config: Config, data: map<ColId, seq<Cell>>, info: map<ColId, ColumnInfo>, pct: Percentile, decode: Decoder,
                                  c: ColId)
    requires MarksOf(config) == [] && EntriesOf(config) == []
    requires c !in data && c !in info && c !in PrototypeKeys
    requires JsonDecoder(decode)
    ensures Admissible(config, data, info, decode)
    ensures Admissible(config.(marks := Some([c])), data, info, decode)
    ensures Transform(config, data, info, pct, decode) == Success(NoMarksResult)
    ensures Transform(config.(marks := Some([c])), data, info, pct, decode)
         == Success(Output([Group(Some(MarksGroupName), [])], Domain(0.0, 0.0)))
    ensures Transform(config.(marks := Some([c])), data, info, pct, decode) != Transform(config, data, info, pct, decode)
  {
    var wider := config.(marks := Some([c]));
    assert MarksOf(wider) == [c];
    assert Kind(info, c) == NoMatch;
    var agg := Aggregated([c], data, pct, PercentileOf(wider));
    PassNoSpans([c], info, agg);
    PassKeyed([c], info, agg);
    assert [c][..0] == [];
    assert Pass([c], info, agg) == Initial;
    assert MarksGroup(Initial).data == [];
    assert EntryGroups(EntriesOf(wider), data, info, decode) == Success([]);
    var t := Pass(MarksOf(wider), info, agg);
    assert Transform(wider, data, info, pct, decode) == Success(Output([MarksGroup(t)] + [], t.domain));
    assert MarksGroup(t) == Group(Some(MarksGroupName), []);
    assert [MarksGroup(t)] + [] == [Group(Some(MarksGroupName), [])];
  }

  /**
   * With at least one mark column, an entries column whose only cell is a
   * number or `undefined` makes transformMarks throw: JSON.parse returns the
   * number and its missing `reduce` is called, or it rejects the text
   * "undefined".
   */
  lemma TransformScalarEntryThrows(config: Config, data: map<ColId, seq<Cell>>, info: map<ColId, ColumnInfo>, pct: Percentile, decode: Decoder,
                                    c: ColId)
    requires Admissible(config, data, info, decode) && |MarksOf(config)| > 0
    requires c in EntriesOf(config) && c in data && |data[c]| == 1 && (data[c][0].Num? || data[c][0].Undefined?)
    ensures Transform(config, data, info, pct, decode).Failure?
  {
    var entries := EntriesOf(config);
    var k :| 0 <= k < |entries| && entries[k] == c;
    DecodeRowsNoRecords(data, c, decode);
    TransformEntries(config, data, info, pct, decode);
  }
}
