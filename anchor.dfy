/**
 * The `before` anchor of an `added` or `moved` record. The scan sees the parent's
 * children as a sequence of siblings: `Some(id)` for a `Tag`, `None` for a pattern
 * node (a non-Tag child, which the scan skips).
 */
module Anchor {
  import opened Wrappers

  /** Index of the first Tag sibling at or after `from`, or `|sibs|` when there is none. */
  function FirstTagIndex(sibs: seq<Option<string>>, from: nat): (j: nat)
    requires from <= |sibs|
    ensures from <= j <= |sibs|
    ensures j < |sibs| ==> sibs[j].Some?
    ensures forall m :: from <= m < j ==> sibs[m].None?
    decreases |sibs| - from
  {
    if from == |sibs| then from
    else if sibs[from].Some? then from
    else FirstTagIndex(sibs, from + 1)
  }

  /**
   * The anchor for the child at index `k`: the id of the first Tag sibling strictly
   * after `k`, or `None` (append at the end) exactly when there is no later Tag.
   */
  function Before(sibs: seq<Option<string>>, k: nat): (r: Option<string>)
    requires k < |sibs|
    ensures r.None? <==> forall m :: k < m < |sibs| ==> sibs[m].None?
    ensures r.Some? ==> exists j :: k < j < |sibs| && sibs[j] == r &&
                          forall m :: k < m < j ==> sibs[m].None?
  {
    var j := FirstTagIndex(sibs, k + 1);
    if j < |sibs| then sibs[j] else None
  }

  /**
   * Worked anchors: a child inserted between `a` and `b` is anchored on `b`; a
   * pattern node between the child and `b` is skipped; a child with only pattern
   * nodes after it, or nothing at all, is appended (no anchor).
   */
  lemma AnchorExamples()
    ensures Before([Some("a"), Some("c"), Some("b")], 1) == Some("b")
    ensures Before([Some("c"), None, Some("b")], 0) == Some("b")
    ensures Before([Some("a"), Some("c"), None], 1) == None
    ensures Before([Some("a"), Some("c")], 1) == None
  {
    assert FirstTagIndex([Some("c"), None, Some("b")], 1) == 2;
    assert FirstTagIndex([Some("a"), Some("c"), None], 2) == 3;
  }
}
