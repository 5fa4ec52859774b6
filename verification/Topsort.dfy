/** Dependency sorting of (parent, child) pairs: the counting tables, the flat
    sort and the levelled sort. */
module Topsort {
  import opened Digraph
  import opened Lists

  type Pairs = seq<(Item, Item)>

  function EdgesOf(pairs: Pairs): Edges {
    set pr | pr in pairs
  }

  /** The children of one parent, duplicates kept, in the order of the pairs. */
  function ChildrenOf(pairs: Pairs, parent: Item): seq<Item> {
    if pairs == [] then []
    else
      var last := pairs[|pairs| - 1];
      ChildrenOf(pairs[..|pairs| - 1], parent) + if last.0 == parent then [last.1] else []
  }

  /** How many pairs still hold x back: those whose parent is not done. */
  function Pending(pairs: Pairs, done: set<Item>, x: Item): nat {
    if pairs == [] then 0
    else
      var last := pairs[|pairs| - 1];
      Pending(pairs[..|pairs| - 1], done, x) + if last.1 == x && last.0 !in done then 1 else 0
  }

  lemma {:induction false} PendingZero(pairs: Pairs, done: set<Item>, x: Item)
    ensures Pending(pairs, done, x) == 0 <==> forall p :: (p, x) in pairs ==> p in done
  {
    if pairs != [] {
      var n := |pairs| - 1;
      PendingZero(pairs[..n], done, x);
      assert pairs == pairs[..n] + [pairs[n]];
    }
  }

  lemma {:induction false} PendingAfter(pairs: Pairs, done: set<Item>, p: Item, x: Item)
    requires p !in done
    ensures Pending(pairs, done, x) == Pending(pairs, done + {p}, x) + Count(ChildrenOf(pairs, p), x)
  {
    if pairs != [] {
      var n := |pairs| - 1;
      PendingAfter(pairs[..n], done, p, x);
      var kids := ChildrenOf(pairs[..n], p);
      assert kids + [] == kids && (kids + [pairs[n].1])[..|kids|] == kids;
    }
  }

  lemma {:induction false} ChildrenOfMeaning(pairs: Pairs, p: Item, x: Item)
    ensures x in ChildrenOf(pairs, p) <==> (p, x) in pairs
  {
    if pairs != [] {
      var n := |pairs| - 1;
      ChildrenOfMeaning(pairs[..n], p, x);
      assert pairs == pairs[..n] + [pairs[n]];
    }
  }

  function Parents(pairs: Pairs): set<Item> {
    set pr | pr in pairs :: pr.0
  }

  /** Each remaining item is mapped to the number of pairs still holding it back. */
  ghost predicate CountsFor(pairs: Pairs, done: set<Item>, numParents: map<Item, int>) {
    && numParents.Keys == Nodes(EdgesOf(pairs)) - done
    && forall x :: x in numParents ==> numParents[x] == Pending(pairs, done, x)
  }

  ghost predicate ChildrenFor(pairs: Pairs, done: set<Item>, children: map<Item, seq<Item>>) {
    && children.Keys == Parents(pairs) - done
    && forall p :: p in children ==> children[p] == ChildrenOf(pairs, p)
  }

  lemma EndpointsAreNodes(pairs: Pairs, x: Item)
    ensures forall p :: (p, x) in pairs ==> p in Nodes(EdgesOf(pairs)) && x in Nodes(EdgesOf(pairs))
    ensures x in ChildrenOf(pairs, x) <==> (x, x) in pairs
  {
    ChildrenOfMeaning(pairs, x, x);
    forall p | (p, x) in pairs
      ensures p in Nodes(EdgesOf(pairs)) && x in Nodes(EdgesOf(pairs))
    {
      assert (p, x) in EdgesOf(pairs);
      assert (p, x).0 in Nodes(EdgesOf(pairs)) && (p, x).1 in Nodes(EdgesOf(pairs));
    }
  }

  lemma CountsForOneMore(pairs: Pairs, pr: (Item, Item), old_: map<Item, int>, new_: map<Item, int>)
    requires CountsFor(pairs, {}, old_)
    requires new_.Keys == old_.Keys + {pr.0, pr.1}
    requires forall x :: x in new_ ==>
      new_[x] == (if x in old_ then old_[x] else 0) + (if x == pr.1 then 1 else 0)
    ensures CountsFor(pairs + [pr], {}, new_)
  {
    var more := pairs + [pr];
    assert more[..|pairs|] == pairs;
    assert EdgesOf(more) == EdgesOf(pairs) + {pr};
    forall x | x in new_
      ensures new_[x] == Pending(more, {}, x)
    {
      EndpointsAreNodes(pairs, x);
      PendingZero(pairs, {}, x);
    }
  }

  lemma ChildrenForOneMore(pairs: Pairs, pr: (Item, Item), old_: map<Item, seq<Item>>, new_: map<Item, seq<Item>>)
    requires ChildrenFor(pairs, {}, old_)
    requires new_ == old_[pr.0 := (if pr.0 in old_ then old_[pr.0] else []) + [pr.1]]
    ensures ChildrenFor(pairs + [pr], {}, new_)
  {
    var more := pairs + [pr];
    assert more[..|pairs|] == pairs;
    assert Parents(more) == Parents(pairs) + {pr.0};
    if pr.0 !in old_ && ChildrenOf(pairs, pr.0) != [] {
      ChildrenOfMeaning(pairs, pr.0, ChildrenOf(pairs, pr.0)[0]);
      assert false;
    }
  }

  /** One pair of the list: its child gains a parent, its parent gains a child. */
  method AddPair(pr: (Item, Item), numParents0: map<Item, int>, children0: map<Item, seq<Item>>)
    returns (numParents: map<Item, int>, children: map<Item, seq<Item>>)
    ensures numParents.Keys == numParents0.Keys + {pr.0, pr.1}
    ensures forall x :: x in numParents ==>
      numParents[x] == (if x in numParents0 then numParents0[x] else 0) + (if x == pr.1 then 1 else 0)
    ensures children == children0[pr.0 := (if pr.0 in children0 then children0[pr.0] else []) + [pr.1]]
  {
    numParents, children := numParents0, children0;
    var (parent, child) := pr;
    if parent !in numParents {
      numParents := numParents[parent := 0];
    }
    if child !in numParents {
      numParents := numParents[child := 0];
    }
    numParents := numParents[child := numParents[child] + 1];
    children := children[parent := (if parent in children then children[parent] else []) + [child]];
  }

  method BuildTables(pairs: Pairs) returns (numParents: map<Item, int>, children: map<Item, seq<Item>>)
    ensures CountsFor(pairs, {}, numParents)
    ensures ChildrenFor(pairs, {}, children)
  {
    numParents, children := map[], map[];
    for i := 0 to |pairs|
      invariant CountsFor(pairs[..i], {}, numParents)
      invariant ChildrenFor(pairs[..i], {}, children)
    {
      ghost var before, kidsBefore := numParents, children;
      numParents, children := AddPair(pairs[i], numParents, children);
      CountsForOneMore(pairs[..i], pairs[i], before, numParents);
      ChildrenForOneMore(pairs[..i], pairs[i], kidsBefore, children);
      assert pairs[..i + 1] == pairs[..i] + [pairs[i]];
    }
    assert pairs[..|pairs|] == pairs;
  }

  datatype SortResult =
    | Sorted(order: seq<Item>)
    | CycleError(answer: seq<Item>, numParents: map<Item, int>, children: map<Item, seq<Item>>)

  /** The keys whose count is zero, in whatever order the dictionary yields them. */
  method Sources(numParents: map<Item, int>) returns (s: seq<Item>)
    ensures NoRepeats(s)
    ensures forall x :: x in s <==> x in numParents && numParents[x] == 0
  {
    s := [];
    var keys := numParents.Keys;
    while keys != {}
      invariant keys <= numParents.Keys
      invariant NoRepeats(s)
      invariant forall x :: x in s <==> x in numParents && x !in keys && numParents[x] == 0
    {
      var x :| x in keys;
      keys := keys - {x};
      if numParents[x] == 0 {
        assert (s + [x])[..|s|] == s;
        s := s + [x];
      }
    }
  }

  ghost predicate AfterItsParents(pairs: Pairs, answer: seq<Item>, j: nat)
    requires j < |answer|
  {
    forall p :: (p, answer[j]) in pairs ==> p in answer[..j]
  }

  /** Everything that holds an entry of the answer back stands before it. */
  ghost predicate ParentsFirst(pairs: Pairs, answer: seq<Item>) {
    forall j {:trigger AfterItsParents(pairs, answer, j)} :: 0 <= j < |answer| ==> AfterItsParents(pairs, answer, j)
  }

  /** The answer is the done items followed by the remaining ones nothing holds back. */
  ghost predicate Frontier(done: set<Item>, numParents: map<Item, int>, answer: seq<Item>) {
    && NoRepeats(answer)
    && forall x :: x in answer <==> x in done || (x in numParents && numParents[x] == 0)
  }

  ghost predicate Progress(pairs: Pairs, done: set<Item>, numParents: map<Item, int>, answer: seq<Item>) {
    && CountsFor(pairs, done, numParents)
    && Frontier(done, numParents, answer)
    && ParentsFirst(pairs, answer)
    && done <= Nodes(EdgesOf(pairs))
  }

  /** While the children of `parent` are knocked down, the first k are accounted for. */
  ghost predicate KnockedDown(pairs: Pairs, done: set<Item>, parent: Item, kids: seq<Item>, k: nat,
                              numParents: map<Item, int>)
    requires k <= |kids|
  {
    && numParents.Keys == Nodes(EdgesOf(pairs)) - done - {parent}
    && forall x :: x in numParents ==> numParents[x] == Pending(pairs, done, x) - Count(kids[..k], x)
  }

  lemma KnockedDownDone(pairs: Pairs, done: set<Item>, parent: Item, numParents: map<Item, int>)
    requires parent !in done
    requires KnockedDown(pairs, done, parent, ChildrenOf(pairs, parent), |ChildrenOf(pairs, parent)|, numParents)
    ensures CountsFor(pairs, done + {parent}, numParents)
  {
    var kids := ChildrenOf(pairs, parent);
    assert kids[..|kids|] == kids;
    forall x | x in numParents
      ensures numParents[x] == Pending(pairs, done + {parent}, x)
    {
      PendingAfter(pairs, done, parent, x);
    }
  }

  /** The k-th child still has a positive count before it is decremented, and
      once a count reaches zero every parent of that item is done. */
  lemma NextKid(pairs: Pairs, done: set<Item>, parent: Item, kids: seq<Item>, k: nat, numParents: map<Item, int>)
    requires parent !in done && kids == ChildrenOf(pairs, parent) && k < |kids|
    requires KnockedDown(pairs, done, parent, kids, k, numParents)
    requires kids[k] in numParents
    ensures numParents[kids[k]] >= 1
    ensures KnockedDown(pairs, done, parent, kids, k + 1, numParents[kids[k] := numParents[kids[k]] - 1])
    ensures numParents[kids[k]] == 1 ==> forall p :: (p, kids[k]) in pairs ==> p in done + {parent}
  {
    var x := kids[k];
    assert kids[..k + 1][..k] == kids[..k];
    CountOfPrefix(kids, k + 1, x);
    PendingAfter(pairs, done, parent, x);
    PendingZero(pairs, done + {parent}, x);
  }

  /** The children of something being released are all still waiting. */
  lemma KidsStillWait(pairs: Pairs, answer: seq<Item>, i: nat, kid: Item)
    requires i < |answer| && Distinct(answer) && ParentsFirst(pairs, answer)
    requires (answer[i], kid) in pairs
    ensures kid in Nodes(EdgesOf(pairs)) && kid !in answer[..i] && kid != answer[i]
  {
    EndpointsAreNodes(pairs, kid);
    forall j | 0 <= j <= i
      ensures answer[j] != kid
    {
      assert AfterItsParents(pairs, answer, j);
      assert answer[i] !in answer[..j];
    }
  }

  lemma NothingBefore(pairs: Pairs, answer: seq<Item>, numParents: map<Item, int>)
    requires CountsFor(pairs, {}, numParents)
    requires Frontier({}, numParents, answer)
    ensures Progress(pairs, {}, numParents, answer)
  {
    NoRepeatsIsDistinct(answer);
    forall j | 0 <= j < |answer|
      ensures AfterItsParents(pairs, answer, j)
    {
      PendingZero(pairs, {}, answer[j]);
    }
  }

  lemma LeftoversWait(pairs: Pairs, answer: seq<Item>, numParents: map<Item, int>)
    requires Progress(pairs, ItemsOf(answer), numParents, answer)
    ensures NoSource(EdgesOf(pairs), numParents.Keys)
    ensures Distinct(answer)
    ensures numParents == map[] ==> IsTopologicalOrder(EdgesOf(pairs), answer)
  {
    var e := EdgesOf(pairs);
    NoRepeatsIsDistinct(answer);
    forall x | x in numParents
      ensures HasPredecessor(e, numParents.Keys, x)
    {
      PendingZero(pairs, ItemsOf(answer), x);
      EndpointsAreNodes(pairs, x);
      var p :| (p, x) in pairs && p !in ItemsOf(answer);
    }
    forall i, j | 0 <= i < |answer| && 0 <= j < |answer| && (answer[i], answer[j]) in e
      ensures i < j
    {
      assert AfterItsParents(pairs, answer, j);
      assert answer[i] in answer[..j];
    }
  }

  lemma NoChildren(pairs: Pairs, p: Item)
    requires p !in Parents(pairs)
    ensures ChildrenOf(pairs, p) == []
  {
    if ChildrenOf(pairs, p) != [] {
      ChildrenOfMeaning(pairs, p, ChildrenOf(pairs, p)[0]);
      assert false;
    }
  }

  lemma BeginRelease(pairs: Pairs, done: set<Item>, parent: Item, before: map<Item, int>, after: map<Item, int>)
    requires parent in before && before[parent] == 0
    requires CountsFor(pairs, done, before)
    requires after == map x | x in before && x != parent :: before[x]
    ensures KnockedDown(pairs, done, parent, ChildrenOf(pairs, parent), 0, after)
  {
  }

  /** The children of one item, removed from the dictionary. */
  method TakeChildren(ghost pairs: Pairs, ghost done: set<Item>, children: map<Item, seq<Item>>, parent: Item)
    returns (kids: seq<Item>, rest: map<Item, seq<Item>>)
    requires ChildrenFor(pairs, done, children) && parent !in done
    ensures kids == ChildrenOf(pairs, parent)
    ensures ChildrenFor(pairs, done + {parent}, rest)
  {
    if parent in children {
      kids := children[parent];
      rest := map p | p in children && p != parent :: children[p];
    } else {
      NoChildren(pairs, parent);
      kids, rest := [], children;
    }
  }

  /** The state while the children of answer[i] are being released, k of them so far. */
  ghost predicate Releasing(pairs: Pairs, done: set<Item>, parent: Item, k: nat,
                            numParents: map<Item, int>, answer: seq<Item>) {
    && k <= |ChildrenOf(pairs, parent)|
    && KnockedDown(pairs, done, parent, ChildrenOf(pairs, parent), k, numParents)
    && Frontier(done + {parent}, numParents, answer)
    && ParentsFirst(pairs, answer)
  }

  lemma ReleaseOne(pairs: Pairs, done: set<Item>, answer0: seq<Item>, i: nat, k: nat,
                   numParents: map<Item, int>, answer: seq<Item>)
    requires i < |answer0| && answer0 <= answer && done == ItemsOf(answer0[..i]) && answer0[i] !in done
    requires k < |ChildrenOf(pairs, answer[i])|
    requires Releasing(pairs, done, answer[i], k, numParents, answer)
    ensures ChildrenOf(pairs, answer[i])[k] in numParents
    ensures
      var kid := ChildrenOf(pairs, answer[i])[k];
      var numParents' := numParents[kid := numParents[kid] - 1];
      Releasing(pairs, done, answer[i], k + 1, numParents', if numParents'[kid] == 0 then answer + [kid] else answer)
  {
    assert answer[..i] == answer0[..i];
    NoRepeatsIsDistinct(answer);
    var kids := ChildrenOf(pairs, answer[i]);
    var kid := kids[k];
    ChildrenOfMeaning(pairs, answer[i], kid);
    KidsStillWait(pairs, answer, i, kid);
    NextKid(pairs, done, answer[i], kids, k, numParents);
    if numParents[kid] == 1 {
      AppendFreed(pairs, done + {answer[i]}, numParents, answer, kid);
      assert (answer + [kid])[..|answer|] == answer;
    }
  }

  /** Decrement the count of every child of answer[i]; append those that reach zero. */
  method ReleaseChildren(ghost pairs: Pairs, ghost done: set<Item>, i: nat, kids: seq<Item>,
                         numParents0: map<Item, int>, answer0: seq<Item>)
    returns (numParents: map<Item, int>, answer: seq<Item>)
    requires i < |answer0| && done == ItemsOf(answer0[..i]) && answer0[i] !in done
    requires kids == ChildrenOf(pairs, answer0[i])
    requires Releasing(pairs, done, answer0[i], 0, numParents0, answer0)
    requires done + {answer0[i]} <= Nodes(EdgesOf(pairs))
    ensures answer0 <= answer
    ensures Progress(pairs, done + {answer0[i]}, numParents, answer)
  {
    numParents, answer := numParents0, answer0;
    for k := 0 to |kids|
      invariant answer0 <= answer
      invariant Releasing(pairs, done, answer0[i], k, numParents, answer)
    {
      var kid := kids[k];
      ReleaseOne(pairs, done, answer0, i, k, numParents, answer);
      numParents := numParents[kid := numParents[kid] - 1];
      if numParents[kid] == 0 {
        answer := answer + [kid];
      }
    }
    KnockedDownDone(pairs, done, answer0[i], numParents);
  }

  lemma AppendFreed(pairs: Pairs, done: set<Item>, numParents: map<Item, int>, answer: seq<Item>, kid: Item)
    requires ParentsFirst(pairs, answer)
    requires forall x :: x in done ==> x in answer
    requires forall p :: (p, kid) in pairs ==> p in done
    ensures ParentsFirst(pairs, answer + [kid])
  {
    var more := answer + [kid];
    forall j | 0 <= j < |more|
      ensures AfterItsParents(pairs, more, j)
    {
      assert more[..j] == answer[..j];
      if j < |answer| {
        assert AfterItsParents(pairs, answer, j);
      } else {
        assert answer[..j] == answer;
      }
    }
  }

  /** Process the growing answer from front to back, deleting as it goes. */
  method Drain(ghost pairs: Pairs, numParents0: map<Item, int>, children0: map<Item, seq<Item>>, answer0: seq<Item>)
    returns (numParents: map<Item, int>, children: map<Item, seq<Item>>, answer: seq<Item>)
    requires Progress(pairs, {}, numParents0, answer0)
    requires ChildrenFor(pairs, {}, children0)
    ensures Progress(pairs, ItemsOf(answer), numParents, answer)
    ensures ChildrenFor(pairs, ItemsOf(answer), children)
  {
    numParents, children, answer := numParents0, children0, answer0;
    var i := 0;
    ghost var done: set<Item> := {};
    while i < |answer|
      invariant i <= |answer| && done == ItemsOf(answer[..i])
      invariant Progress(pairs, done, numParents, answer)
      invariant ChildrenFor(pairs, done, children)
      decreases Nodes(EdgesOf(pairs)) - done
    {
      var parent := answer[i];
      NoRepeatsIsDistinct(answer);
      assert parent !in done;
      ghost var before := numParents;
      numParents := map x | x in numParents && x != parent :: numParents[x];
      BeginRelease(pairs, done, parent, before, numParents);
      var kids;
      kids, children := TakeChildren(pairs, done, children, parent);
      ghost var answerBefore := answer;
      numParents, answer := ReleaseChildren(pairs, done, i, kids, numParents, answer);
      NextPrefix(answerBefore, answer, i);
      done := done + {parent};
      i := i + 1;
    }
    assert answer[..|answer|] == answer;
  }

  /** Kahn's algorithm: a topological order exactly when the pairs have no cycle;
      otherwise the answer so far, and leftovers that all wait for each other. */
  method Sort(pairs: Pairs) returns (r: SortResult)
    ensures r.Sorted? <==> !HasCycle(EdgesOf(pairs))
    ensures r.Sorted? ==> IsTopologicalOrder(EdgesOf(pairs), r.order)
    ensures r.CycleError? ==> Distinct(r.answer) && ParentsFirst(pairs, r.answer)
    ensures r.CycleError? ==> NoSource(EdgesOf(pairs), r.numParents.Keys)
    ensures r.CycleError? ==> CountsFor(pairs, ItemsOf(r.answer), r.numParents)
    ensures r.CycleError? ==> ChildrenFor(pairs, ItemsOf(r.answer), r.children)
  {
    var numParents, children := BuildTables(pairs);
    var answer := Sources(numParents);
    NothingBefore(pairs, answer, numParents);
    numParents, children, answer := Drain(pairs, numParents, children, answer);
    LeftoversWait(pairs, answer, numParents);
    if numParents != map[] {
      NoSourceMeansCycle(EdgesOf(pairs), numParents.Keys);
      r := CycleError(answer, numParents, children);
    } else {
      OrderMeansAcyclic(EdgesOf(pairs), answer);
      r := Sorted(answer);
    }
  }

  // ---------- sorting into levels ----------

  /** A chain of n pairs, each child the next parent, ending at x. */
  ghost predicate Chain(e: Edges, x: Item, n: nat) {
    exists w: seq<Item> :: IsWalk(e, w) && |w| == n + 1 && w[n] == x
  }

  ghost predicate LongestChain(e: Edges, x: Item, n: nat) {
    x in Nodes(e) && Chain(e, x, n) && !Chain(e, x, n + 1)
  }

  lemma NoPairs(e: Edges, x: Item)
    ensures Chain(e, x, 0)
  {
    assert IsWalk(e, [x]) && [x][0] == x;
  }

  lemma ExtendChain(e: Edges, p: Item, x: Item, n: nat)
    requires (p, x) in e && Chain(e, p, n)
    ensures Chain(e, x, n + 1)
  {
    var w :| IsWalk(e, w) && |w| == n + 1 && w[n] == p;
    var v := w + [x];
    forall i | 0 <= i < |v| - 1
      ensures Hop(e, v, i)
    {
      assert i < n ==> Hop(e, w, i);
    }
    assert IsWalk(e, v) && v[n + 1] == x;
  }

  lemma LastPair(e: Edges, x: Item, n: nat) returns (p: Item)
    requires Chain(e, x, n + 1)
    ensures (p, x) in e && Chain(e, p, n)
  {
    var w :| IsWalk(e, w) && |w| == n + 2 && w[n + 1] == x;
    p := w[n];
    assert Hop(e, w, n);
    SubWalk(e, w, 0, n + 1);
    assert IsWalk(e, w[..n + 1]) && w[..n + 1][n] == p;
  }

  lemma ShorterChain(e: Edges, x: Item, m: nat, n: nat)
    requires Chain(e, x, n) && m <= n
    ensures Chain(e, x, m)
  {
    var w :| IsWalk(e, w) && |w| == n + 1 && w[n] == x;
    SubWalk(e, w, n - m, n + 1);
    assert IsWalk(e, w[n - m..n + 1]) && w[n - m..n + 1][m] == x;
  }

  /** A longer chain at the child than at the parent. */
  lemma LongestChainGrows(e: Edges, p: Item, c: Item, m: nat, n: nat)
    requires (p, c) in e && LongestChain(e, p, m) && LongestChain(e, c, n)
    ensures m < n
  {
    ExtendChain(e, p, c, m);
    if n <= m {
      ShorterChain(e, c, n + 1, m + 1);
    }
  }

  /** Level k holds, once each, exactly the items whose longest chain has k pairs. */
  ghost predicate LevelIs(e: Edges, level: seq<Item>, k: nat) {
    && level != [] && Distinct(level)
    && forall x :: x in level <==> LongestChain(e, x, k)
  }

  ghost predicate LevelsAre(e: Edges, levels: seq<seq<Item>>) {
    forall k {:trigger LevelIs(e, levels[k], k)} :: 0 <= k < |levels| ==> LevelIs(e, levels[k], k)
  }

  function Concat(levels: seq<seq<Item>>): seq<Item> {
    if levels == [] then [] else Concat(levels[..|levels| - 1]) + levels[|levels| - 1]
  }

  lemma {:induction false} InConcat(levels: seq<seq<Item>>, x: Item)
    ensures x in Concat(levels) <==> exists k :: 0 <= k < |levels| && x in levels[k]
  {
    if levels != [] {
      var n := |levels| - 1;
      InConcat(levels[..n], x);
      assert levels == levels[..n] + [levels[n]];
    }
  }

  ghost predicate EdgesGoForward(e: Edges, order: seq<Item>) {
    forall i, j :: 0 <= i < |order| && 0 <= j < |order| && (order[i], order[j]) in e ==> i < j
  }

  lemma {:induction false} ConcatIsOrdered(e: Edges, levels: seq<seq<Item>>)
    requires LevelsAre(e, levels)
    ensures Distinct(Concat(levels))
    ensures forall x :: x in Concat(levels) ==> exists k :: 0 <= k < |levels| && LongestChain(e, x, k)
    ensures EdgesGoForward(e, Concat(levels))
  {
    if levels == [] {
    } else {
      var n := |levels| - 1;
      var front, last := levels[..n], levels[n];
      forall k | 0 <= k < n
        ensures LevelIs(e, front[k], k)
      {
        assert LevelIs(e, levels[k], k);
      }
      ConcatIsOrdered(e, front);
      assert LevelIs(e, last, n);
      var f, c := Concat(front), Concat(levels);
      forall x | x in f && x in last
        ensures false
      {
        var k :| 0 <= k < n && LongestChain(e, x, k);
        ShorterChain(e, x, k + 1, n);
      }
      assert forall j :: 0 <= j < |f| ==> f[j] in f;
      forall i, j | 0 <= i < |c| && 0 <= j < |c| && (c[i], c[j]) in e
        ensures i < j
      {
        if |f| <= i {
          assert c[i] in last;
          var k: nat :| k <= n && LongestChain(e, c[j], k) by {
            assert c[j] in (if j < |f| then f else last);
          }
          LongestChainGrows(e, c[i], c[j], n, k);
        }
      }
    }
  }

  /** How the generator of levels ends. */
  datatype LevelsEnd =
    | StopIteration
    | LevelsCycleError(numParents: map<Item, int>, children: map<Item, seq<Item>>)

  /** After L levels the done items are those without a chain of L pairs. */
  ghost predicate LevelsDone(pairs: Pairs, done: set<Item>, numParents: map<Item, int>, L: nat) {
    && CountsFor(pairs, done, numParents)
    && forall x :: x in done <==> x in Nodes(EdgesOf(pairs)) && !Chain(EdgesOf(pairs), x, L)
  }

  /** Nothing the level holds back can be done already or in the level itself. */
  ghost predicate Releasable(pairs: Pairs, done: set<Item>, level: seq<Item>) {
    forall p, x :: (p, x) in pairs && p in level ==> x !in done && x !in level
  }

  lemma SourcesAreLevel(pairs: Pairs, done: set<Item>, numParents: map<Item, int>, level: seq<Item>, L: nat)
    requires LevelsDone(pairs, done, numParents, L)
    requires forall x :: x in level <==> x in numParents && numParents[x] == 0
    ensures forall x :: x in level <==> LongestChain(EdgesOf(pairs), x, L)
    ensures Releasable(pairs, done, level)
    ensures forall x :: x in done || x in level <==>
      x in Nodes(EdgesOf(pairs)) && !Chain(EdgesOf(pairs), x, L + 1)
  {
    var e := EdgesOf(pairs);
    forall x | x in Nodes(e)
      ensures x in level <==> LongestChain(e, x, L)
      ensures x in done || x in level <==> !Chain(e, x, L + 1)
    {
      PendingZero(pairs, done, x);
      EndpointsAreNodes(pairs, x);
      if Chain(e, x, L + 1) {
        ShorterChain(e, x, L, L + 1);
        var p := LastPair(e, x, L);
      } else {
        forall p | (p, x) in pairs
          ensures !Chain(e, p, L)
        {
          if Chain(e, p, L) {
            ExtendChain(e, p, x, L);
          }
        }
      }
    }
    forall p, x | (p, x) in pairs && p in level
      ensures x !in done && x !in level
    {
      assert LongestChain(e, p, L);
      ExtendChain(e, p, x, L);
      ShorterChain(e, x, L, L + 1);
    }
  }

  /** Decrement the count of every child of one finished item. */
  method ReleaseKids(ghost pairs: Pairs, ghost done: set<Item>, ghost parent: Item, kids: seq<Item>,
                     numParents0: map<Item, int>)
    returns (numParents: map<Item, int>)
    requires parent !in done && kids == ChildrenOf(pairs, parent)
    requires KnockedDown(pairs, done, parent, kids, 0, numParents0)
    requires forall x :: (parent, x) in pairs ==> x !in done && x != parent
    ensures CountsFor(pairs, done + {parent}, numParents)
  {
    numParents := numParents0;
    for k := 0 to |kids|
      invariant KnockedDown(pairs, done, parent, kids, k, numParents)
    {
      ChildrenOfMeaning(pairs, parent, kids[k]);
      EndpointsAreNodes(pairs, kids[k]);
      NextKid(pairs, done, parent, kids, k, numParents);
      numParents := numParents[kids[k] := numParents[kids[k]] - 1];
    }
    KnockedDownDone(pairs, done, parent, numParents);
  }

  method ReleaseLevel(ghost pairs: Pairs, ghost done: set<Item>, level: seq<Item>,
                      numParents0: map<Item, int>, children0: map<Item, seq<Item>>)
    returns (numParents: map<Item, int>, children: map<Item, seq<Item>>)
    requires CountsFor(pairs, done, numParents0) && ChildrenFor(pairs, done, children0)
    requires NoRepeats(level) && forall x :: x in level <==> x in numParents0 && numParents0[x] == 0
    requires Releasable(pairs, done, level)
    ensures CountsFor(pairs, done + ItemsOf(level), numParents)
    ensures ChildrenFor(pairs, done + ItemsOf(level), children)
  {
    numParents, children := numParents0, children0;
    ghost var gone := done;
    for j := 0 to |level|
      invariant gone == done + ItemsOf(level[..j])
      invariant CountsFor(pairs, gone, numParents)
      invariant ChildrenFor(pairs, gone, children)
    {
      ghost var before := numParents;
      LevelMember(pairs, done, level, j);
      numParents := map x | x in numParents && x != level[j] :: numParents[x];
      BeginRelease(pairs, gone, level[j], before, numParents);
      var kids;
      kids, children := TakeChildren(pairs, gone, children, level[j]);
      numParents := ReleaseKids(pairs, gone, level[j], kids, numParents);
      NextPrefix(level, level, j);
      gone := gone + {level[j]};
    }
    assert level[..|level|] == level;
  }

  lemma LevelMember(pairs: Pairs, done: set<Item>, level: seq<Item>, j: nat)
    requires j < |level| && NoRepeats(level) && Releasable(pairs, done, level)
    requires forall x :: x in level ==> x in Nodes(EdgesOf(pairs)) && x !in done && Pending(pairs, done, x) == 0
    ensures level[j] !in done + ItemsOf(level[..j])
    ensures level[j] in Nodes(EdgesOf(pairs))
    ensures Pending(pairs, done + ItemsOf(level[..j]), level[j]) == 0
    ensures forall x :: (level[j], x) in pairs ==> x !in done + ItemsOf(level[..j]) && x != level[j]
  {
    NoRepeatsIsDistinct(level);
    PendingZero(pairs, done, level[j]);
    PendingZero(pairs, done + ItemsOf(level[..j]), level[j]);
    assert level[j] in level && forall x :: x in level[..j] ==> x in level;
  }

  /** The levels of the generator, in the order yielded, and how it ends. */
  method SortLevels(pairs: Pairs) returns (levels: seq<seq<Item>>, end: LevelsEnd)
    ensures LevelsAre(EdgesOf(pairs), levels)
    ensures forall x, k: nat :: LongestChain(EdgesOf(pairs), x, k) ==> k < |levels|
    ensures end.StopIteration? <==> !HasCycle(EdgesOf(pairs))
    ensures end.StopIteration? ==> IsTopologicalOrder(EdgesOf(pairs), Concat(levels))
    ensures end.LevelsCycleError? ==> NoSource(EdgesOf(pairs), end.numParents.Keys)
    ensures end.LevelsCycleError? ==> CountsFor(pairs, ItemsOf(Concat(levels)), end.numParents)
    ensures end.LevelsCycleError? ==> ChildrenFor(pairs, ItemsOf(Concat(levels)), end.children)
  {
    var numParents, children := BuildTables(pairs);
    levels := [];
    ghost var done: set<Item> := {};
    NoChainIsShorter(pairs);
    while true
      invariant done == ItemsOf(Concat(levels))
      invariant LevelsAre(EdgesOf(pairs), levels)
      invariant LevelsDone(pairs, done, numParents, |levels|)
      invariant ChildrenFor(pairs, done, children)
      decreases Nodes(EdgesOf(pairs)) - done
    {
      var level := Sources(numParents);
      if level == [] {
        break;
      }
      SourcesAreLevel(pairs, done, numParents, level, |levels|);
      NextLevel(EdgesOf(pairs), levels, level);
      numParents, children := ReleaseLevel(pairs, done, level, numParents, children);
      assert level[0] in numParents || level[0] in ItemsOf(level);
      done := done + ItemsOf(level);
      levels := levels + [level];
    }
    NoSourcesLeft(pairs, done, numParents);
    LevelsComplete(pairs, done, numParents, |levels|);
    if numParents != map[] {
      NoSourceMeansCycle(EdgesOf(pairs), numParents.Keys);
      end := LevelsCycleError(numParents, children);
    } else {
      ConcatIsOrdered(EdgesOf(pairs), levels);
      OrderMeansAcyclic(EdgesOf(pairs), Concat(levels));
      end := StopIteration;
    }
  }

  lemma NoChainIsShorter(pairs: Pairs)
    ensures forall x :: Chain(EdgesOf(pairs), x, 0)
  {
    forall x
      ensures Chain(EdgesOf(pairs), x, 0)
    {
      NoPairs(EdgesOf(pairs), x);
    }
  }

  lemma NextLevel(e: Edges, levels: seq<seq<Item>>, level: seq<Item>)
    requires LevelsAre(e, levels) && level != [] && NoRepeats(level)
    requires forall x :: x in level <==> LongestChain(e, x, |levels|)
    ensures LevelsAre(e, levels + [level])
    ensures ItemsOf(Concat(levels + [level])) == ItemsOf(Concat(levels)) + ItemsOf(level)
  {
    NoRepeatsIsDistinct(level);
    var more := levels + [level];
    assert more[..|levels|] == levels;
    forall k | 0 <= k < |more|
      ensures LevelIs(e, more[k], k)
    {
      assert k < |levels| ==> LevelIs(e, levels[k], k);
    }
  }

  lemma NoSourcesLeft(pairs: Pairs, done: set<Item>, numParents: map<Item, int>)
    requires CountsFor(pairs, done, numParents)
    requires forall x :: x in numParents ==> numParents[x] != 0
    ensures NoSource(EdgesOf(pairs), numParents.Keys)
  {
    forall x | x in numParents
      ensures HasPredecessor(EdgesOf(pairs), numParents.Keys, x)
    {
      PendingZero(pairs, done, x);
      EndpointsAreNodes(pairs, x);
      var p :| (p, x) in pairs && p !in done;
    }
  }

  lemma {:induction false} EndlessChains(e: Edges, s: set<Item>, x: Item, n: nat)
    requires NoSource(e, s) && x in s
    ensures Chain(e, x, n)
  {
    NoPairs(e, x);
    if n > 0 {
      assert HasPredecessor(e, s, x);
      var y :| y in s && (y, x) in e;
      EndlessChains(e, s, y, n - 1);
      ExtendChain(e, y, x, n - 1);
    }
  }

  /** Every item that has a longest chain at all has been yielded by the end. */
  lemma LevelsComplete(pairs: Pairs, done: set<Item>, numParents: map<Item, int>, L: nat)
    requires LevelsDone(pairs, done, numParents, L)
    requires NoSource(EdgesOf(pairs), numParents.Keys)
    ensures forall x, k: nat :: LongestChain(EdgesOf(pairs), x, k) ==> k < L
  {
    forall x, k: nat | LongestChain(EdgesOf(pairs), x, k)
      ensures k < L
    {
      if x in done {
        if L <= k {
          ShorterChain(EdgesOf(pairs), x, L, k);
        }
      } else {
        EndlessChains(EdgesOf(pairs), numParents.Keys, x, k + 1);
        assert false;
      }
    }
  }

  /** No layering that puts each child above its parents uses fewer levels. */
  lemma FewestLevels(e: Edges, levels: seq<seq<Item>>, layer: map<Item, nat>, m: nat)
    requires LevelsAre(e, levels)
    requires forall x :: x in Nodes(e) ==> x in layer && layer[x] < m
    requires forall p, c :: (p, c) in e ==> p in layer && c in layer && layer[p] < layer[c]
    ensures |levels| <= m
  {
    if levels != [] {
      var n := |levels| - 1;
      assert LevelIs(e, levels[n], n);
      var x := levels[n][0];
      assert LongestChain(e, x, n);
      LayerOfChain(e, layer, x, n);
    }
  }

  lemma {:induction false} LayerOfChain(e: Edges, layer: map<Item, nat>, x: Item, n: nat)
    requires forall p, c :: (p, c) in e ==> p in layer && c in layer && layer[p] < layer[c]
    requires x in layer && Chain(e, x, n)
    ensures layer[x] >= n
  {
    if n > 0 {
      var p := LastPair(e, x, n - 1);
      LayerOfChain(e, layer, p, n - 1);
    }
  }
}
