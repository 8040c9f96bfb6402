/**
 * The inputs and outputs of transformMarks (d3-timeline/src/App.js lines
 * 16-85): the plugin configuration, the columnar data and column metadata
 * supplied by the host, and the grouped series plus domain handed to the
 * timeline chart.
 */
module TimelineTypes {
  import opened Wrappers

  type ColId = string

  /** One raw cell of a column: JavaScript `null`, `undefined`, a number, or a string. */
  datatype Cell = Null | Undefined | Num(n: real) | Text(s: string)

  /** Column metadata; only the display name is used. */
  datatype ColumnInfo = ColumnInfo(name: string)

  /** `config.marks`, `config.entries` and `config.percentile`, each possibly absent. */
  datatype Config = Config(marks: Option<seq<ColId>>, entries: Option<seq<ColId>>, percentile: Option<real>)

  /** A two-element `[start, end]` array. */
  datatype TimeRange = TimeRange(start: real, end: real)

  /** One decoded element of an entries payload: `{ name, timeRange }`. */
  datatype EntryRecord = EntryRecord(name: string, timeRange: TimeRange)

  datatype Point = Point(timeRange: TimeRange, val: real)
  /** A chart row; `name` is the source's `label` field (a reserved word in Dafny). */
  datatype Series = Series(name: string, data: seq<Point>)
  datatype Group = Group(group: Option<string>, data: seq<Series>)

  /** The `[min, max]` pair that scales the chart's colours. */
  datatype Domain = Domain(lo: real, hi: real)

  /** What transformMarks returns when it does not throw. */
  datatype Output = Output(groups: seq<Group>, domain: Domain)

  /** The only way transformMarks fails: JSON.parse throws on an entries column's payload. */
  datatype TransformError = MalformedPayload(column: ColId)

  /** The percentile library `aggregatejs/percentile`, whose body is not part of this model. */
  type Percentile = (seq<real>, real) -> real

  /**
   * JSON.parse of an entries cell followed by the reduce over its result:
   * the decoded records, or None when the call throws. A cell holding JSON
   * `null` decodes to no records, because `null?.reduce` is skipped.
   */
  type Decoder = Cell -> Option<seq<EntryRecord>>

  /**
   * What JSON.parse followed by `?.reduce` does on cells that are not text:
   * JSON.parse(null) is null, and `null?.reduce(...) ?? {}` gives no records;
   * JSON.parse(undefined) parses the text "undefined" and throws;
   * JSON.parse of a number is that number, and `?.` does not guard the call
   * of the missing `reduce`, so it throws.
   */
  ghost predicate JsonDecoder(decode: Decoder) {
    && decode(Null) == Some([])
    && decode(Undefined).None?
    && forall x :: decode(Num(x)).None?
  }

  /** A data point whose `val` is the length of its time range. */
  function PointOf(t: TimeRange): Point {
    Point(t, t.end - t.start)
  }

  /** Keys that a plain JavaScript object already has through Object.prototype. */
  const PrototypeKeys: set<string> := {
    "constructor", "__proto__", "hasOwnProperty", "isPrototypeOf",
    "propertyIsEnumerable", "toLocaleString", "toString", "valueOf",
    "__defineGetter__", "__defineSetter__", "__lookupGetter__", "__lookupSetter__"
  }

  predicate IsDigit(c: char) {
    '0' <= c <= '9'
  }

  predicate AllDigits(s: string) {
    forall i :: 0 <= i < |s| ==> IsDigit(s[i])
  }

  function DigitsValue(s: string): nat
    requires AllDigits(s)
  {
    if s == [] then 0 else DigitsValue(s[..|s| - 1]) * 10 + (s[|s| - 1] as int - '0' as int)
  }

  /**
   * A canonical array index ("0", "17", ... below 2^32 - 1): an object
   * enumerates such keys first, in numeric order, not in insertion order.
   */
  predicate IsArrayIndex(s: string) {
    && |s| > 0
    && AllDigits(s)
    && (s[0] == '0' ==> |s| == 1)
    && DigitsValue(s) < 0xFFFF_FFFF
  }

  /** A key that a fresh object does not already hold and that it enumerates in insertion order. */
  predicate PlainKey(s: string) {
    s !in PrototypeKeys && !IsArrayIndex(s)
  }
}
