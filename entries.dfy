/**
 * The entries pass of transformMarks (d3-timeline/src/App.js lines 52-67):
 * each entries column's payload is decoded and its records are grouped by
 * name into one series per distinct name.
 */
module Entries {
  import opened Wrappers
  import opened FirstSeen
  import opened TimelineTypes

  function Names(rs: seq<EntryRecord>): seq<string> {
    seq(|rs|, i requires 0 <= i < |rs| => rs[i].name)
  }

  /** The points made from the records named `n`, in input order. */
  function PointsNamed(rs: seq<EntryRecord>, n: string): seq<Point> {
    if rs == [] then []
    else
      var r := rs[|rs| - 1];
      PointsNamed(rs[..|rs| - 1], n) + (if r.name == n then [PointOf(r.timeRange)] else [])
  }

  /**
   * The series that the reduce at lines 57-65 builds, in the order
   * Object.values lists them: one per distinct name, in first-seen order.
   */
  function Grouped(rs: seq<EntryRecord>): seq<Series> {
    var labels := Firsts(Names(rs));
    seq(|labels|, k requires 0 <= k < |labels| => Series(labels[k], PointsNamed(rs, labels[k])))
  }

  /**
   * The reduce at lines 57-65: an accumulator object from name to row whose
   * `data` list is pushed onto, followed by Object.values.
   */
  method GroupByName(rs: seq<EntryRecord>) returns (series: seq<Series>)
    ensures series == Grouped(rs)
  {
    var order: seq<string> := [];
    var rows: map<string, seq<Point>> := map[];
    assert Names(rs[..0]) == [];
    for i := 0 to |rs|
      invariant order == Firsts(Names(rs[..i]))
      invariant forall n :: n in rows <==> n in order
      invariant forall n :: n in rows ==> rows[n] == PointsNamed(rs[..i], n)
    {
      var entry := rs[i];
      GroupStep(rs, i);
      assert entry.name in rows <==> entry.name in Names(rs[..i]);
      if entry.name !in rows {
        PointsNamedAbsent(rs[..i], entry.name);
        order := order + [entry.name];
        rows := rows[entry.name := []];
      }
      rows := rows[entry.name := rows[entry.name] + [PointOf(entry.timeRange)]];
      assert rows[entry.name] == PointsNamed(rs[..i + 1], entry.name);
    }
    assert rs[..|rs|] == rs;
    assert order == Firsts(Names(rs));
    assert forall k :: 0 <= k < |order| ==> rows[order[k]] == PointsNamed(rs, order[k]);
    series := seq(|order|, k requires 0 <= k < |order| => Series(order[k], rows[order[k]]));
  }

  /** What one more record does to the names and to each name's points. */
  lemma GroupStep(rs: seq<EntryRecord>, i: nat)
    requires i < |rs|
    ensures Names(rs[..i + 1]) == Names(rs[..i]) + [rs[i].name]
    ensures Firsts(Names(rs[..i + 1])) ==
      if rs[i].name in Names(rs[..i]) then Firsts(Names(rs[..i])) else Firsts(Names(rs[..i])) + [rs[i].name]
    ensures forall n ::
      PointsNamed(rs[..i + 1], n) == PointsNamed(rs[..i], n) + (if rs[i].name == n then [PointOf(rs[i].timeRange)] else [])
  {
    var pre, cur := rs[..i], rs[..i + 1];
    assert cur[..|cur| - 1] == pre && cur[|cur| - 1] == rs[i];
    assert Names(cur) == Names(pre) + [rs[i].name];
    FirstsSnoc(Names(pre), rs[i].name);
    forall n
      ensures PointsNamed(cur, n) == PointsNamed(pre, n) + (if rs[i].name == n then [PointOf(rs[i].timeRange)] else [])
    {
    }
  }

  /** A name that no record carries collects no points. */
  lemma {:induction false} PointsNamedAbsent(rs: seq<EntryRecord>, n: string)
    requires n !in Names(rs)
    ensures PointsNamed(rs, n) == []
    decreases |rs|
  {
    if rs != [] {
      assert Names(rs[..|rs| - 1]) == Names(rs)[..|rs| - 1];
      assert Names(rs)[|rs| - 1] == rs[|rs| - 1].name;
      PointsNamedAbsent(rs[..|rs| - 1], n);
    }
  }

  /** A name that some record carries collects at least one point. */
  lemma {:induction false} PointsNamedPresent(rs: seq<EntryRecord>, n: string)
    requires n in Names(rs)
    ensures |PointsNamed(rs, n)| > 0
    decreases |rs|
  {
    var r := rs[|rs| - 1];
    if r.name != n {
      assert Names(rs) == Names(rs[..|rs| - 1]) + [r.name];
      PointsNamedPresent(rs[..|rs| - 1], n);
    }
  }

  /** Every point carries its record's time range and the range's length as `val`. */
  lemma {:induction false} PointsNamedVals(rs: seq<EntryRecord>, n: string, j: nat)
    requires j < |PointsNamed(rs, n)|
    ensures PointsNamed(rs, n)[j].val == PointsNamed(rs, n)[j].timeRange.end - PointsNamed(rs, n)[j].timeRange.start
    ensures exists i :: 0 <= i < |rs| && rs[i].name == n && rs[i].timeRange == PointsNamed(rs, n)[j].timeRange
    decreases |rs|
  {
    var init, r := rs[..|rs| - 1], rs[|rs| - 1];
    if j < |PointsNamed(init, n)| {
      PointsNamedVals(init, n, j);
      var i :| 0 <= i < |init| && init[i].name == n && init[i].timeRange == PointsNamed(init, n)[j].timeRange;
      assert rs[i] == init[i];
    } else {
      assert rs[|rs| - 1] == r;
    }
  }

  /** The number of points over a list of series. */
  function TotalPoints(ss: seq<Series>): nat {
    if ss == [] then 0 else TotalPoints(ss[..|ss| - 1]) + |ss[|ss| - 1].data|
  }

  /** The number of points collected for the names in `labels`. */
  function CountFor(rs: seq<EntryRecord>, labels: seq<string>): nat {
    if labels == [] then 0 else CountFor(rs, labels[..|labels| - 1]) + |PointsNamed(rs, labels[|labels| - 1])|
  }

  lemma {:induction false} CountForSnoc(rs: seq<EntryRecord>, r: EntryRecord, labels: seq<string>)
    requires Distinct(labels)
    ensures CountFor(rs + [r], labels) == CountFor(rs, labels) + (if r.name in labels then 1 else 0)
    decreases |labels|
  {
    assert (rs + [r])[..|rs|] == rs;
    if labels != [] {
      var init := labels[..|labels| - 1];
      assert labels == init + [labels[|labels| - 1]];
      CountForSnoc(rs, r, init);
    }
  }

  lemma {:induction false} TotalPointsIsCount(rs: seq<EntryRecord>, labels: seq<string>)
    ensures TotalPoints(seq(|labels|, k requires 0 <= k < |labels| => Series(labels[k], PointsNamed(rs, labels[k]))))
      == CountFor(rs, labels)
    decreases |labels|
  {
    if labels != [] {
      var init := labels[..|labels| - 1];
      var ss := seq(|labels|, k requires 0 <= k < |labels| => Series(labels[k], PointsNamed(rs, labels[k])));
      assert ss[..|ss| - 1] == seq(|init|, k requires 0 <= k < |init| => Series(init[k], PointsNamed(rs, init[k])));
      TotalPointsIsCount(rs, init);
    }
  }

  /** Grouping neither loses nor duplicates a record: the points number the records. */
  lemma GroupedTotal(rs: seq<EntryRecord>)
    ensures TotalPoints(Grouped(rs)) == |rs|
  {
    TotalPointsIsCount(rs, Firsts(Names(rs)));
    CountAll(rs);
  }

  /** Counting the points of every distinct name counts every record once. */
  lemma {:induction false} CountAll(rs: seq<EntryRecord>)
    ensures CountFor(rs, Firsts(Names(rs))) == |rs|
    decreases |rs|
  {
    if rs != [] {
      var init, r := rs[..|rs| - 1], rs[|rs| - 1];
      assert rs == init + [r];
      assert Names(rs) == Names(init) + [r.name];
      FirstsSnoc(Names(init), r.name);
      CountAll(init);
      if r.name in Names(init) {
        CountForSnoc(init, r, Firsts(Names(init)));
      } else {
        CountNewName(init, r);
      }
    }
  }

  /** A record under a name not seen before adds exactly one to the count over the grown label list. */
  lemma CountNewName(init: seq<EntryRecord>, r: EntryRecord)
    requires r.name !in Names(init)
    ensures CountFor(init + [r], Firsts(Names(init)) + [r.name]) == CountFor(init, Firsts(Names(init))) + 1
  {
    var labels := Firsts(Names(init));
    CountForSnoc(init, r, labels + [r.name]);
    PointsNamedAbsent(init, r.name);
    assert (labels + [r.name])[..|labels|] == labels;
  }

  /**
   * The series are the distinct names in first-seen order, each holding at
   * least one point, and each point's `val` is its range's length.
   */
  lemma GroupedShape(rs: seq<EntryRecord>)
    ensures |Grouped(rs)| == |Firsts(Names(rs))|
    ensures forall k :: 0 <= k < |Grouped(rs)| ==> Grouped(rs)[k].name == Firsts(Names(rs))[k]
    ensures forall k :: 0 <= k < |Grouped(rs)| ==> Grouped(rs)[k].data == PointsNamed(rs, Grouped(rs)[k].name)
    ensures forall k :: 0 <= k < |Grouped(rs)| ==> |Grouped(rs)[k].data| > 0
    ensures forall n :: n in Names(rs) <==> exists k :: 0 <= k < |Grouped(rs)| && Grouped(rs)[k].name == n
  {
    var labels := Firsts(Names(rs));
    forall k | 0 <= k < |labels| ensures |PointsNamed(rs, labels[k])| > 0 {
      PointsNamedPresent(rs, labels[k]);
    }
    forall n | n in Names(rs) ensures exists k :: 0 <= k < |Grouped(rs)| && Grouped(rs)[k].name == n {
      var k :| 0 <= k < |labels| && labels[k] == n;
      assert Grouped(rs)[k].name == n;
    }
  }

  /** The entries cells of column `c`, or none when the column has no data (`data?.[c] ?? []`). */
  function RawRows(data: map<ColId, seq<Cell>>, c: ColId): seq<Cell> {
    if c in data then data[c] else []
  }

  /** Line 54: the single cell is decoded; any other row count reads as '[]', no records. */
  function DecodeRows(rows: seq<Cell>, decode: Decoder): Option<seq<EntryRecord>> {
    if |rows| == 1 then decode(rows[0]) else Some([])
  }

  /**
   * A missing, empty or multi-row column, and a single `null` cell, give no
   * records; a single `undefined` or numeric cell always throws; otherwise
   * only a single cell that the decoder rejects makes the call throw.
   */
  lemma DecodeRowsNoRecords(data: map<ColId, seq<Cell>>, c: ColId, decode: Decoder)
    requires JsonDecoder(decode)
    ensures c !in data ==> DecodeRows(RawRows(data, c), decode) == Some([])
    ensures c in data && (|data[c]| != 1 || data[c][0] == Null) ==> DecodeRows(RawRows(data, c), decode) == Some([])
    ensures c in data && |data[c]| == 1 && (data[c][0].Undefined? || data[c][0].Num?) ==> DecodeRows(RawRows(data, c), decode).None?
    ensures DecodeRows(RawRows(data, c), decode).None? ==>
      c in data && |data[c]| == 1 && data[c][0] != Null && decode(data[c][0]).None?
  {
  }

  /** Line 56: `columnInfo?.[c]?.name`. */
  function GroupName(info: map<ColId, ColumnInfo>, c: ColId): Option<string> {
    if c in info then Some(info[c].name) else None
  }

  /**
   * `config.entries.map(...)`: one group per entries column, in order; the
   * first column whose payload fails to decode aborts the whole map.
   */
  function EntryGroups(cols: seq<ColId>, data: map<ColId, seq<Cell>>, info: map<ColId, ColumnInfo>, decode: Decoder): Result<seq<Group>, TransformError>
    decreases |cols|
  {
    if cols == [] then Success([])
    else
      match DecodeRows(RawRows(data, cols[0]), decode)
      case None => Failure(MalformedPayload(cols[0]))
      case Some(rs) =>
        match EntryGroups(cols[1..], data, info, decode)
        case Failure(e) => Failure(e)
        case Success(gs) => Success([Group(GroupName(info, cols[0]), Grouped(rs))] + gs)
  }

  /**
   * The map succeeds exactly when every column's payload decodes, and then
   * yields, column by column, the column's display name and its grouped records.
   */
  lemma {:induction false} EntryGroupsSuccess(cols: seq<ColId>, data: map<ColId, seq<Cell>>, info: map<ColId, ColumnInfo>, decode: Decoder)
    ensures EntryGroups(cols, data, info, decode).Success? <==>
      forall k :: 0 <= k < |cols| ==> DecodeRows(RawRows(data, cols[k]), decode).Some?
    ensures EntryGroups(cols, data, info, decode).Success? ==>
      var gs := EntryGroups(cols, data, info, decode).value;
      |gs| == |cols| &&
      forall k :: 0 <= k < |cols| ==>
        gs[k] == Group(GroupName(info, cols[k]), Grouped(DecodeRows(RawRows(data, cols[k]), decode).value))
    decreases |cols|
  {
    if cols != [] {
      EntryGroupsSuccess(cols[1..], data, info, decode);
      assert forall k :: 1 <= k < |cols| ==> cols[k] == cols[1..][k - 1];
    }
  }

  /** Column `k` is the first whose payload does not decode. */
  predicate FirstFailure(cols: seq<ColId>, data: map<ColId, seq<Cell>>, decode: Decoder, k: int) {
    && 0 <= k < |cols|
    && DecodeRows(RawRows(data, cols[k]), decode).None?
    && forall j :: 0 <= j < k ==> DecodeRows(RawRows(data, cols[j]), decode).Some?
  }

  /** On failure the error names the first column whose payload does not decode. */
  lemma {:induction false} EntryGroupsFailure(cols: seq<ColId>, data: map<ColId, seq<Cell>>, info: map<ColId, ColumnInfo>, decode: Decoder)
    requires EntryGroups(cols, data, info, decode).Failure?
    ensures exists k :: FirstFailure(cols, data, decode, k) && EntryGroups(cols, data, info, decode).error == MalformedPayload(cols[k])
    decreases |cols|
  {
    if DecodeRows(RawRows(data, cols[0]), decode).Some? {
      EntryGroupsFailure(cols[1..], data, info, decode);
      var k :| FirstFailure(cols[1..], data, decode, k) && EntryGroups(cols[1..], data, info, decode).error == MalformedPayload(cols[1..][k]);
      assert forall j :: 1 <= j < k + 1 ==> cols[j] == cols[1..][j - 1];
      assert cols[k + 1] == cols[1..][k];
    }
  }

  /** `Success(gs)` with `gs` placed after `front`; failures pass through. */
  function After(front: seq<Group>, r: Result<seq<Group>, TransformError>): Result<seq<Group>, TransformError> {
    match r
    case Success(gs) => Success(front + gs)
    case Failure(e) => Failure(e)
  }

  lemma AfterAfter(a: seq<Group>, b: seq<Group>, r: Result<seq<Group>, TransformError>)
    ensures After(a, After(b, r)) == After(a + b, r)
  {
    if r.Success? {
      assert a + (b + r.value) == (a + b) + r.value;
    }
  }

  /** The map from column `k` on: column k's group, or its failure, then the rest. */
  lemma EntryGroupsFrom(cols: seq<ColId>, data: map<ColId, seq<Cell>>, info: map<ColId, ColumnInfo>, decode: Decoder, k: nat)
    requires k < |cols|
    ensures EntryGroups(cols[k..], data, info, decode) ==
      match DecodeRows(RawRows(data, cols[k]), decode)
      case None => Failure(MalformedPayload(cols[k]))
      case Some(rs) => After([Group(GroupName(info, cols[k]), Grouped(rs))], EntryGroups(cols[k + 1..], data, info, decode))
  {
  }

  /**
   * Lines 52-67: the callback for each entries column, run in order, with
   * JSON.parse's exception ending the run.
   */
  method CollectEntryGroups(cols: seq<ColId>, data: map<ColId, seq<Cell>>, info: map<ColId, ColumnInfo>, decode: Decoder)
    returns (r: Result<seq<Group>, TransformError>)
    ensures r == EntryGroups(cols, data, info, decode)
  {
    var groups: seq<Group> := [];
    assert cols[0..] == cols;
    AfterAfter([], [], EntryGroups(cols, data, info, decode));
    assert After([], EntryGroups(cols, data, info, decode)) == EntryGroups(cols, data, info, decode) by {
      if EntryGroups(cols, data, info, decode).Success? {
        assert [] + EntryGroups(cols, data, info, decode).value == EntryGroups(cols, data, info, decode).value;
      }
    }
    for k := 0 to |cols|
      invariant EntryGroups(cols, data, info, decode) == After(groups, EntryGroups(cols[k..], data, info, decode))
    {
      var entryColId := cols[k];
      var entriesRaw := RawRows(data, entryColId);
      var entryRaw := DecodeRows(entriesRaw, decode);
      EntryGroupsFrom(cols, data, info, decode, k);
      if entryRaw.None? {
        return Failure(MalformedPayload(entryColId));
      }
      var series := GroupByName(entryRaw.value);
      AfterAfter(groups, [Group(GroupName(info, entryColId), series)], EntryGroups(cols[k + 1..], data, info, decode));
      groups := groups + [Group(GroupName(info, entryColId), series)];
    }
    assert groups + [] == groups;
    r := Success(groups);
  }

  const ExampleA0: EntryRecord := EntryRecord("A", TimeRange(0.0, 5.0))
  const ExampleA1: EntryRecord := EntryRecord("A", TimeRange(5.0, 9.0))
  const ExampleB0: EntryRecord := EntryRecord("B", TimeRange(1.0, 2.0))

  lemma ExampleLabels()
    ensures Firsts(Names([ExampleA0, ExampleA1, ExampleB0])) == ["A", "B"]
  {
    assert Names([ExampleA0, ExampleA1, ExampleB0]) == ["A", "A"] + ["B"];
    assert Firsts(["A"]) == ["A"];
    assert Firsts(["A", "A"]) == ["A"] by { assert ["A", "A"][..1] == ["A"]; }
    FirstsSnoc(["A", "A"], "B");
  }

  lemma ExamplePoints()
    ensures PointsNamed([ExampleA0, ExampleA1, ExampleB0], "A") == [Point(TimeRange(0.0, 5.0), 5.0), Point(TimeRange(5.0, 9.0), 4.0)]
    ensures PointsNamed([ExampleA0, ExampleA1, ExampleB0], "B") == [Point(TimeRange(1.0, 2.0), 1.0)]
  {
    assert "A" != "B" by { assert "A"[0] != "B"[0]; }
    assert [ExampleA0, ExampleA1, ExampleB0][..2] == [ExampleA0, ExampleA1];
    assert [ExampleA0, ExampleA1][..1] == [ExampleA0] && [ExampleA0][..0] == [];
    assert PointsNamed([ExampleA0], "A") == [PointOf(ExampleA0.timeRange)];
    assert PointsNamed([ExampleA0], "B") == [];
    assert PointsNamed([ExampleA0, ExampleA1], "A") == [PointOf(ExampleA0.timeRange), PointOf(ExampleA1.timeRange)];
    assert PointsNamed([ExampleA0, ExampleA1], "B") == [];
  }

  /**
   * Records A[0,5], A[5,9], B[1,2] group into series "A" with durations 5
   * and 4, in input order, and series "B" with duration 1.
   */
  lemma GroupedExample()
    ensures Grouped([ExampleA0, ExampleA1, ExampleB0]) ==
      [Series("A", [Point(TimeRange(0.0, 5.0), 5.0), Point(TimeRange(5.0, 9.0), 4.0)]),
       Series("B", [Point(TimeRange(1.0, 2.0), 1.0)])]
  {
    ExampleLabels();
    ExamplePoints();
  }
}
