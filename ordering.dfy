/**
 * Previous/next arithmetic over a page order, as both the docs navigation
 * library and the single-page docs browser write it: `indexOf`, then one step
 * back when the index is positive, one step forward when it is below
 * `length - 1`. A section missing from the order has index -1, so it has no
 * predecessor and its successor is the first page.
 */
module Ordering {
  import opened Wrappers

  /** No page appears twice in the order. */
  ghost predicate Distinct(order: seq<string>)
  {
    forall i, j :: 0 <= i < j < |order| ==> order[i] != order[j]
  }

  /** `b` comes immediately after `a` somewhere in the order. */
  ghost predicate Adjacent(order: seq<string>, a: string, b: string)
  {
    exists i :: 1 <= i < |order| && order[i - 1] == a && order[i] == b
  }

  /** `Array.prototype.indexOf`: the position of the first occurrence of `x`, or -1. */
  function IndexOf(order: seq<string>, x: string): (i: int)
    ensures -1 <= i < |order|
    ensures i == -1 <==> x !in order
    ensures 0 <= i ==> order[i] == x && x !in order[..i]
  {
    if |order| == 0 then -1
    else if order[0] == x then 0
    else
      var j := IndexOf(order[1..], x);
      assert 0 <= j ==> order[..j + 1] == [order[0]] + order[1..][..j];
      if j == -1 then -1 else j + 1
  }

  /** `getPreviousPage`: the entry before `s`, or null for the first entry and for any string not in the order. */
  function Predecessor(order: seq<string>, s: string): (r: Option<string>)
    ensures r.Some? <==> s in order && order[0] != s
    ensures r.Some? ==> r.value in order
  {
    var currentIndex := IndexOf(order, s);
    if currentIndex > 0 then Some(order[currentIndex - 1]) else None
  }

  /** `getNextPage`: the entry after `s`; the first entry for a string not in the order; null after the last. */
  function Successor(order: seq<string>, s: string): (r: Option<string>)
    ensures r.None? <==> |order| == 0 || (s in order && s !in order[..|order| - 1])
    ensures r.Some? ==> r.value in order
    ensures s !in order && |order| > 0 ==> r == Some(order[0])
  {
    var currentIndex := IndexOf(order, s);
    if currentIndex < |order| - 1 then Some(order[currentIndex + 1]) else None
  }

  /** In an order without repeats, `indexOf` finds every entry at its own position. */
  lemma IndexOfDistinct(order: seq<string>, i: int)
    requires Distinct(order) && 0 <= i < |order|
    ensures IndexOf(order, order[i]) == i
  {
    var j := IndexOf(order, order[i]);
    assert forall k :: 0 <= k < j ==> order[..j][k] == order[k];
  }

  /** In an order without repeats, the neighbours of the entry at position i sit at i - 1 and i + 1. */
  lemma NeighboursAt(order: seq<string>, i: int)
    requires Distinct(order) && 0 <= i < |order|
    ensures i > 0 ==> Predecessor(order, order[i]) == Some(order[i - 1])
    ensures i < |order| - 1 ==> Successor(order, order[i]) == Some(order[i + 1])
  {
    IndexOfDistinct(order, i);
  }

  /** In an order without repeats, a page is missing from all but the last position exactly when it is the last page. */
  lemma OnlyLastIsMissingFromPrefix(order: seq<string>, s: string)
    requires Distinct(order) && s in order
    ensures s !in order[..|order| - 1] <==> s == order[|order| - 1]
  {
    var n, i := |order| - 1, IndexOf(order, s);
    if i < n {
      assert order[..n][i] == s;
    }
    if s in order[..n] {
      var k :| 0 <= k < n && order[..n][k] == s;
      assert order[k] == s;
    }
  }

  /** The predecessor is exactly the entry the order places immediately before `s`. */
  lemma PredecessorIsAdjacent(order: seq<string>, s: string, p: string)
    requires Distinct(order)
    ensures Predecessor(order, s) == Some(p) <==> Adjacent(order, p, s)
  {
    if Adjacent(order, p, s) {
      var i :| 1 <= i < |order| && order[i - 1] == p && order[i] == s;
      IndexOfDistinct(order, i);
    }
    if Predecessor(order, s) == Some(p) {
      var i := IndexOf(order, s);
      assert order[i - 1] == p && order[i] == s;
    }
  }

  /** For a page in the order, the successor is exactly the entry placed immediately after it. */
  lemma SuccessorIsAdjacent(order: seq<string>, s: string, n: string)
    requires Distinct(order) && s in order
    ensures Successor(order, s) == Some(n) <==> Adjacent(order, s, n)
  {
    if Adjacent(order, s, n) {
      var i :| 1 <= i < |order| && order[i - 1] == s && order[i] == n;
      IndexOfDistinct(order, i - 1);
    }
    if Successor(order, s) == Some(n) {
      var i := IndexOf(order, s);
      assert order[i + 1 - 1] == s && order[i + 1] == n;
    }
  }

  /** Stepping back and then forward returns to every page but the first. */
  lemma {:induction false} PredecessorThenSuccessor(order: seq<string>, s: string)
    requires Distinct(order) && s in order && order[0] != s
    ensures Predecessor(order, s).Some?
    ensures Successor(order, Predecessor(order, s).value) == Some(s)
  {
    var p := Predecessor(order, s).value;
    PredecessorIsAdjacent(order, s, p);
    SuccessorIsAdjacent(order, p, s);
  }

  /** Stepping forward and then back returns to every page but the last. */
  lemma {:induction false} SuccessorThenPredecessor(order: seq<string>, s: string)
    requires Distinct(order) && s in order && order[|order| - 1] != s
    ensures Successor(order, s).Some?
    ensures Predecessor(order, Successor(order, s).value) == Some(s)
  {
    var i := IndexOf(order, s);
    assert s in order[..|order| - 1] by {
      assert order[..|order| - 1][i] == s;
    }
    var n := Successor(order, s).value;
    SuccessorIsAdjacent(order, s, n);
    PredecessorIsAdjacent(order, n, s);
  }
}
