/** Directed graphs over uninterpreted items: walks, cycles and the pigeonhole
    arguments that the sorting and cycle-finding modules share. */
module Digraph {
  import opened Lists

  /** A dictionary key: only its equality matters. */
  type Item(==, !new)

  type Edges = set<(Item, Item)>

  function Nodes(e: Edges): set<Item> {
    (set pr | pr in e :: pr.0) + (set pr | pr in e :: pr.1)
  }

  predicate Hop(e: Edges, p: seq<Item>, i: nat)
    requires i + 1 < |p|
  {
    (p[i], p[i + 1]) in e
  }

  ghost predicate IsWalk(e: Edges, p: seq<Item>) {
    && |p| > 0
    && forall i :: 0 <= i < |p| - 1 ==> Hop(e, p, i)
  }

  /** Any stretch of a walk is a walk. */
  lemma SubWalk(e: Edges, p: seq<Item>, i: nat, j: nat)
    requires IsWalk(e, p) && i < j <= |p|
    ensures IsWalk(e, p[i..j])
  {
    forall k | 0 <= k < j - i - 1
      ensures Hop(e, p[i..j], k)
    {
      assert Hop(e, p, i + k);
    }
  }

  /** A directed cycle is a walk of at least one edge that ends where it began. */
  ghost predicate IsClosedWalk(e: Edges, p: seq<Item>) {
    IsWalk(e, p) && |p| > 1 && p[0] == p[|p| - 1]
  }

  ghost predicate HasCycle(e: Edges) {
    exists p :: IsClosedWalk(e, p)
  }

  ghost predicate HasPredecessor(e: Edges, s: set<Item>, x: Item) {
    exists y :: y in s && (y, x) in e
  }

  ghost predicate NoSource(e: Edges, s: set<Item>) {
    forall x {:trigger HasPredecessor(e, s, x)} :: x in s ==> HasPredecessor(e, s, x)
  }

  lemma {:induction false} BackwardWalk(e: Edges, s: set<Item>, n: nat) returns (p: seq<Item>)
    requires s != {}
    requires NoSource(e, s)
    ensures IsWalk(e, p) && |p| == n + 1
    ensures forall k :: 0 <= k < |p| ==> p[k] in s
  {
    if n == 0 {
      var x :| x in s;
      p := [x];
    } else {
      var q := BackwardWalk(e, s, n - 1);
      assert HasPredecessor(e, s, q[0]);
      var y :| y in s && (y, q[0]) in e;
      p := [y] + q;
      forall i | 0 <= i < |p| - 1
        ensures Hop(e, p, i)
      {
        assert i > 0 ==> Hop(e, q, i - 1);
      }
    }
  }

  /** A finite set in which everything has a predecessor contains a cycle. */
  lemma NoSourceMeansCycle(e: Edges, s: set<Item>)
    requires s != {}
    requires NoSource(e, s)
    ensures HasCycle(e)
  {
    var p := BackwardWalk(e, s, |s|);
    var i, j := Pigeonhole(p, s);
    SubWalk(e, p, i, j + 1);
    assert IsClosedWalk(e, p[i..j + 1]);
  }

  /** Every edge raises the rank: no cycle. */
  lemma {:induction false} RankedWalk(e: Edges, rank: map<Item, int>, p: seq<Item>)
    requires forall x, y :: (x, y) in e ==> x in rank && y in rank && rank[x] < rank[y]
    requires IsWalk(e, p) && |p| > 1
    ensures p[0] in rank && p[|p| - 1] in rank && rank[p[|p| - 1]] >= rank[p[0]] + |p| - 1
  {
    var n := |p| - 1;
    assert Hop(e, p, n - 1);
    if n > 1 {
      SubWalk(e, p, 0, n);
      RankedWalk(e, rank, p[..n]);
    }
  }

  lemma RankedMeansAcyclic(e: Edges, rank: map<Item, int>)
    requires forall x, y :: (x, y) in e ==> x in rank && y in rank && rank[x] < rank[y]
    ensures !HasCycle(e)
  {
    forall p | IsClosedWalk(e, p)
      ensures false
    {
      RankedWalk(e, rank, p);
    }
  }

  /** Each node once, and every edge leads from an earlier to a later position. */
  ghost predicate IsTopologicalOrder(e: Edges, order: seq<Item>) {
    && Distinct(order)
    && (forall x :: x in order <==> x in Nodes(e))
    && forall i, j :: 0 <= i < |order| && 0 <= j < |order| && (order[i], order[j]) in e ==> i < j
  }

  function {:induction false} Position(s: seq<Item>, x: Item): (i: nat)
    requires x in s
    ensures i < |s| && s[i] == x
    ensures forall j :: 0 <= j < i ==> s[j] != x
  {
    if s[0] == x then 0 else 1 + Position(s[1..], x)
  }

  lemma OrderMeansAcyclic(e: Edges, order: seq<Item>)
    requires IsTopologicalOrder(e, order)
    ensures !HasCycle(e)
  {
    var rank := map x | x in order :: Position(order, x) as int;
    forall x, y | (x, y) in e
      ensures x in rank && y in rank && rank[x] < rank[y]
    {
      assert (x, y).0 in Nodes(e) && (x, y).1 in Nodes(e);
    }
    RankedMeansAcyclic(e, rank);
  }
}
