/**
 * The display-name convention that pairs mark columns into spans: the two
 * end-anchored patterns `^(.*)StartTime$` and `^(.*)EndTime$`
 * (d3-timeline/src/App.js lines 13-14), written as a classification into
 * Start(prefix), End(prefix) or NoMatch.
 */
module SpanNames {
  import opened Wrappers

  const StartSuffix: string := "StartTime"
  const EndSuffix: string := "EndTime"

  datatype SpanName = Start(prefix: string) | End(prefix: string) | NoMatch

  /** The characters that `.` in a JavaScript regular expression does not match. */
  predicate IsLineTerminator(c: char) {
    c == '\n' || c == '\r' || c == '\U{2028}' || c == '\U{2029}'
  }

  /** `s` can be matched by `.*`. */
  predicate SingleLine(s: string) {
    forall i :: 0 <= i < |s| ==> !IsLineTerminator(s[i])
  }

  /** `^(.*)<suffix>$` applied to `name`: the captured group, or no match. */
  function MatchSuffix(name: string, suffix: string): (m: Option<string>)
    ensures m.Some? ==> m.value + suffix == name && SingleLine(m.value)
  {
    var cut := |name| - |suffix|;
    if |suffix| <= |name| && name[cut..] == suffix && SingleLine(name[..cut]) then
      assert name == name[..cut] + name[cut..];
      Some(name[..cut])
    else
      None
  }

  /** Every name of the shape prefix + suffix, with a single-line prefix, matches and captures that prefix. */
  lemma MatchSuffixComplete(prefix: string, suffix: string)
    requires SingleLine(prefix)
    ensures MatchSuffix(prefix + suffix, suffix) == Some(prefix)
  {
  }

  /**
   * The start pattern is tried first and the end pattern only when it fails
   * (App.js lines 35-37 and 43).
   */
  function Classify(name: string): (k: SpanName)
    ensures k.Start? ==> name == k.prefix + StartSuffix && SingleLine(k.prefix)
    ensures k.End? ==> name == k.prefix + EndSuffix && SingleLine(k.prefix)
  {
    match MatchSuffix(name, StartSuffix)
    case Some(l) => Start(l)
    case None =>
      match MatchSuffix(name, EndSuffix)
      case Some(l) => End(l)
      case None => NoMatch
  }

  /**
   * The converse of Classify's contract: a single-line prefix followed by
   * "StartTime" (or "EndTime") is classified as a start (or end) of that
   * prefix. Together the two say that a name is NoMatch exactly when it has
   * neither shape.
   */
  lemma ClassifyComplete(name: string, prefix: string)
    requires SingleLine(prefix)
    ensures name == prefix + StartSuffix ==> Classify(name) == Start(prefix)
    ensures name == prefix + EndSuffix ==> Classify(name) == End(prefix)
  {
    if name == prefix + StartSuffix {
      MatchSuffixComplete(prefix, StartSuffix);
    } else if name == prefix + EndSuffix {
      MatchSuffixComplete(prefix, EndSuffix);
      var m := MatchSuffix(name, StartSuffix);
      if m.Some? {
        SuffixesExclusive(m.value, prefix);
      }
    }
  }

  /** No name is both a start and an end name. */
  lemma SuffixesExclusive(a: string, b: string)
    ensures a + StartSuffix != b + EndSuffix
  {
    // the fifth character from the end is 't' in one and 'd' in the other
    var n, m := a + StartSuffix, b + EndSuffix;
    assert n[|n| - 5] == 't';
    assert m[|m| - 5] == 'd';
  }

  /**
   * The capture is everything before the suffix, separators included: the
   * columns "X StartTime" and "X EndTime" pair under the label "X ".
   */
  lemma ClassifySpacedNames()
    ensures Classify("X StartTime") == Start("X ")
    ensures Classify("X EndTime") == End("X ")
  {
  }
}
