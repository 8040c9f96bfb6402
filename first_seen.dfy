/**
 * First-occurrence order of distinct elements. A JavaScript object that is
 * given string keys one at a time (and never an array-index key) enumerates
 * them in exactly this order, which is what both the span table and the
 * entry grouping of transformMarks rely on.
 */
module FirstSeen {

  predicate Distinct(s: seq<string>) {
    forall i, j :: 0 <= i < j < |s| ==> s[i] != s[j]
  }

  /** The position of the first occurrence of `x` in `s`. */
  function IndexOf(s: seq<string>, x: string): (k: nat)
    requires x in s
    ensures k < |s| && s[k] == x && x !in s[..k]
  {
    if s[0] == x then 0
    else
      var k' := IndexOf(s[1..], x);
      assert s[..k' + 1] == [s[0]] + s[1..][..k'];
      k' + 1
  }

  /** The elements of `s`, each kept at its first occurrence only. */
  function Firsts(s: seq<string>): (r: seq<string>)
    ensures forall x :: x in r <==> x in s
    ensures Distinct(r)
    decreases |s|
  {
    if s == [] then []
    else
      var init := s[..|s| - 1];
      assert s == init + [s[|s| - 1]];
      if s[|s| - 1] in init then Firsts(init) else Firsts(init) + [s[|s| - 1]]
  }

  /** Extending the input by one element extends the result by it iff it is new. */
  lemma FirstsSnoc(s: seq<string>, x: string)
    ensures Firsts(s + [x]) == if x in s then Firsts(s) else Firsts(s) + [x]
  {
  }

  /** A first occurrence is unique. */
  lemma IndexOfUnique(s: seq<string>, x: string, k: nat)
    requires k < |s| && s[k] == x && x !in s[..k]
    ensures IndexOf(s, x) == k
  {
  }

  lemma IndexOfPrefix(a: seq<string>, b: seq<string>, x: string)
    requires x in a
    ensures IndexOf(a + b, x) == IndexOf(a, x)
  {
    var m := IndexOf(a, x);
    assert (a + b)[..m] == a[..m];
    IndexOfUnique(a + b, x, m);
  }

  /**
   * Firsts lists the distinct elements in the order of their first
   * occurrence in the input.
   */
  lemma {:induction false} FirstsOrder(s: seq<string>, i: nat, j: nat)
    requires i < j < |Firsts(s)|
    ensures IndexOf(s, Firsts(s)[i]) < IndexOf(s, Firsts(s)[j])
    decreases |s|
  {
    var init, x := s[..|s| - 1], s[|s| - 1];
    assert s == init + [x];
    FirstsSnoc(init, x);
    var r, r' := Firsts(s), Firsts(init);
    assert r[i] in init by {
      if x !in init && i == |r'| { assert false; }
      else { assert r[i] == r'[i]; }
    }
    IndexOfPrefix(init, [x], r[i]);
    if x in init || j < |r'| {
      assert r[j] == r'[j];
      IndexOfPrefix(init, [x], r[j]);
      FirstsOrder(init, i, j);
    } else {
      assert r[j] == x;
      assert s[..|init|] == init;
      IndexOfUnique(s, x, |init|);
    }
  }
}
