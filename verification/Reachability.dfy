/** Breadth-first search over an arbitrary edge relation: the invariant of a
    worklist traversal and what it delivers when the worklist runs dry. */
module Reachability {

  type Relation = (string, string) -> bool

  /** `x` is at most `n` edges from `start`. */
  ghost predicate Within(edge: Relation, start: string, x: string, n: nat)
    decreases n
  {
    x == start || (n > 0 && exists y :: Within(edge, start, y, n - 1) && edge(y, x))
  }

  ghost predicate Reachable(edge: Relation, start: string, x: string) {
    exists n: nat :: Within(edge, start, x, n)
  }

  lemma {:induction false} WithinGrows(edge: Relation, start: string, x: string, m: nat, n: nat)
    requires m <= n && Within(edge, start, x, m)
    ensures Within(edge, start, x, n)
    decreases n
  {
    if x != start {
      var y :| Within(edge, start, y, m - 1) && edge(y, x);
      WithinGrows(edge, start, y, m - 1, n - 1);
    }
  }

  lemma ReachableStep(edge: Relation, start: string, x: string, y: string)
    requires Reachable(edge, start, x) && edge(x, y)
    ensures Reachable(edge, start, y)
  {
    var n: nat :| Within(edge, start, x, n);
    assert Within(edge, start, y, n + 1);
  }

  ghost predicate Distinct(xs: seq<string>) {
    forall i, j :: 0 <= i < j < |xs| ==> xs[i] != xs[j]
  }

  /** `depth` is the exact distance of each node of `order`, never decreasing. */
  ghost predicate Layered(edge: Relation, start: string, order: seq<string>, depth: seq<nat>) {
    && |order| == |depth| && 0 < |order|
    && order[0] == start && depth[0] == 0
    && (forall i, j :: 0 <= i < j < |order| ==> depth[i] <= depth[j])
    && (forall i :: 0 <= i < |order| ==> Within(edge, start, order[i], depth[i]))
    && (forall i :: 0 <= i < |order| && depth[i] > 0 ==> !Within(edge, start, order[i], depth[i] - 1))
  }

  /** The first `k` nodes of `order` have all their successors in it. */
  ghost predicate Expanded(edge: Relation, order: seq<string>, k: nat)
    requires k <= |order|
  {
    forall i, y :: 0 <= i < k && edge(order[i], y) ==> y in order
  }

  /** Everything as near as node `k` has been visited, and nothing lies more
      than one layer further out. */
  ghost predicate Covering(edge: Relation, start: string, order: seq<string>, depth: seq<nat>, k: nat)
    requires |order| == |depth| && k < |order|
  {
    && (forall i :: 0 <= i < |order| ==> depth[i] <= depth[k] + 1)
    && (forall x :: Within(edge, start, x, depth[k]) ==> x in order)
  }

  /** The traversal invariant: `order` holds the visited nodes, of which the
      first `k` have been expanded. */
  ghost predicate Frontier(edge: Relation, start: string, order: seq<string>, depth: seq<nat>, k: nat) {
    && Layered(edge, start, order, depth)
    && Distinct(order)
    && k <= |order|
    && Expanded(edge, order, k)
    && (k < |order| ==> Covering(edge, start, order, depth, k))
  }

  lemma FrontierStart(edge: Relation, start: string)
    ensures Frontier(edge, start, [start], [0], 0)
  {
    assert forall x :: Within(edge, start, x, 0) ==> x == start;
  }

  lemma FrontierReaches(edge: Relation, start: string, order: seq<string>, depth: seq<nat>, k: nat)
    requires Frontier(edge, start, order, depth, k) && k < |order|
    ensures Reachable(edge, start, order[k])
  {
    assert Within(edge, start, order[k], depth[k]);
  }

  lemma FrontierPush(edge: Relation, start: string, order: seq<string>, depth: seq<nat>, k: nat, y: string)
    requires Frontier(edge, start, order, depth, k) && k < |order|
    requires edge(order[k], y) && y !in order
    ensures Frontier(edge, start, order + [y], depth + [depth[k] + 1], k)
  {
    var order', depth' := order + [y], depth + [depth[k] + 1];
    assert Within(edge, start, y, depth[k] + 1) by {
      assert Within(edge, start, order[k], depth[k]) && edge(order[k], y);
    }
    assert Layered(edge, start, order', depth');
    forall i, z | 0 <= i < k && edge(order'[i], z)
      ensures z in order'
    {
      assert edge(order[i], z);
    }
  }

  lemma FrontierAdvance(edge: Relation, start: string, order: seq<string>, depth: seq<nat>, k: nat)
    requires Frontier(edge, start, order, depth, k) && k < |order|
    requires forall y :: edge(order[k], y) ==> y in order
    ensures Frontier(edge, start, order, depth, k + 1)
  {
    if k + 1 < |order| && depth[k + 1] == depth[k] + 1 {
      forall x | Within(edge, start, x, depth[k] + 1)
        ensures x in order
      {
        if x != start {
          var y :| Within(edge, start, y, depth[k]) && edge(y, x);
          var j :| 0 <= j < |order| && order[j] == y;
          assert depth[j] <= depth[k];
          assert j < k + 1;
        }
      }
    }
  }

  lemma {:induction false} ClosedHoldsReachable(edge: Relation, start: string, order: seq<string>, x: string, n: nat)
    requires start in order && Within(edge, start, x, n)
    requires Expanded(edge, order, |order|)
    ensures x in order
    decreases n
  {
    if x != start {
      var y :| Within(edge, start, y, n - 1) && edge(y, x);
      ClosedHoldsReachable(edge, start, order, y, n - 1);
      var i :| 0 <= i < |order| && order[i] == y;
    }
  }

  /** `found` lists each node reachable from `start`, other than `start`, once,
      nearest first. */
  ghost predicate Delivers(edge: Relation, start: string, found: seq<string>) {
    && Distinct([start] + found)
    && (forall x :: Reachable(edge, start, x) <==> x in [start] + found)
    && (forall i, j, n: nat :: 0 <= i < j < |found| && Within(edge, start, found[j], n)
          ==> Within(edge, start, found[i], n))
  }

  /** An exhausted worklist has delivered. */
  lemma FrontierDelivers(edge: Relation, start: string, found: seq<string>, depth: seq<nat>)
    requires Frontier(edge, start, [start] + found, depth, |found| + 1)
    ensures Delivers(edge, start, found)
  {
    var order := [start] + found;
    forall x
      ensures Reachable(edge, start, x) <==> x in order
    {
      if Reachable(edge, start, x) {
        var n: nat :| Within(edge, start, x, n);
        ClosedHoldsReachable(edge, start, order, x, n);
      }
      if x in order {
        var i :| 0 <= i < |order| && order[i] == x;
        assert Within(edge, start, x, depth[i]);
      }
    }
    forall i, j, n: nat | 0 <= i < j < |found| && Within(edge, start, found[j], n)
      ensures Within(edge, start, found[i], n)
    {
      assert order[i + 1] == found[i] && order[j + 1] == found[j];
      if n < depth[j + 1] {
        WithinGrows(edge, start, order[j + 1], n, depth[j + 1] - 1);
      }
      WithinGrows(edge, start, order[i + 1], depth[i + 1], n);
    }
  }
}
