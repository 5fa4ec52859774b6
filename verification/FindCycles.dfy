/** Enumeration of the elementary cycles of a dictionary of children, by
    exploring a stack of simple paths from every unvisited key. */
module FindCycles {
  import opened Digraph
  import opened Lists
  import opened Rotation

  /** parent -> collection of children, duplicates allowed. */
  type Children = map<Item, seq<Item>>

  function EdgesOf(g: Children): Edges {
    set u, v | u in g && v in g[u] :: (u, v)
  }

  function KidsOf(g: Children, u: Item): seq<Item> {
    if u in g then g[u] else []
  }

  function AllNodes(g: Children): set<Item> {
    g.Keys + Nodes(EdgesOf(g))
  }

  function Last(p: seq<Item>): Item
    requires p != []
  {
    p[|p| - 1]
  }

  /** The last item of the list is a parent of its first, and no item repeats. */
  ghost predicate ElementaryCycle(g: Children, c: seq<Item>) {
    && IsWalk(EdgesOf(g), c)
    && Distinct(c)
    && c[0] in KidsOf(g, Last(c))
  }

  ghost predicate SimplePath(g: Children, p: seq<Item>) {
    && IsWalk(EdgesOf(g), p)
    && Distinct(p)
    && p[0] in AllNodes(g)
  }

  /** Some listed cycle is a rotation of c. */
  ghost predicate Represented(cycles: seq<seq<Item>>, c: seq<Item>) {
    exists i :: 0 <= i < |cycles| && IsRotation(cycles[i], c)
  }

  ghost predicate NoTwoRotated(cycles: seq<seq<Item>>) {
    forall i, j :: 0 <= i < j < |cycles| ==> !IsRotation(cycles[i], cycles[j])
  }

  ghost predicate AllCycles(g: Children, cycles: seq<seq<Item>>) {
    forall i :: 0 <= i < |cycles| ==> ElementaryCycle(g, cycles[i])
  }

  /** The cycle that a path closes when one of its own items is the next child. */
  function CycleAt(path: seq<Item>, child: Item): seq<Item>
    requires child in path
  {
    path[Position(path, child)..]
  }

  lemma PathInNodes(g: Children, p: seq<Item>)
    requires SimplePath(g, p)
    ensures forall k :: 0 <= k < |p| ==> p[k] in AllNodes(g)
    ensures |p| <= |AllNodes(g)|
  {
    forall k | 0 < k < |p|
      ensures p[k] in AllNodes(g)
    {
      assert Hop(EdgesOf(g), p, k - 1);
      assert (p[k - 1], p[k]).1 in Nodes(EdgesOf(g));
    }
    DistinctBound(p, AllNodes(g));
  }

  lemma PathExtends(g: Children, p: seq<Item>, child: Item)
    requires SimplePath(g, p) && child in KidsOf(g, Last(p)) && child !in p
    ensures SimplePath(g, p + [child])
  {
    var q := p + [child];
    forall i | 0 <= i < |q| - 1
      ensures Hop(EdgesOf(g), q, i)
    {
      assert i < |p| - 1 ==> Hop(EdgesOf(g), p, i);
    }
  }

  lemma PathPrefix(g: Children, p: seq<Item>, k: nat)
    requires SimplePath(g, p) && 0 < k <= |p|
    ensures SimplePath(g, p[..k])
    ensures k < |p| ==> p[k] in KidsOf(g, p[k - 1]) && p[k] !in p[..k]
  {
    SubWalk(EdgesOf(g), p, 0, k);
    if k < |p| {
      assert Hop(EdgesOf(g), p, k - 1);
    }
  }

  /** A closed path really is an elementary cycle. */
  lemma CycleAtIsElementary(g: Children, p: seq<Item>, child: Item)
    requires SimplePath(g, p) && child in KidsOf(g, Last(p)) && child in p
    ensures ElementaryCycle(g, CycleAt(p, child))
  {
    SubWalk(EdgesOf(g), p, Position(p, child), |p|);
    assert p[Position(p, child)..|p|] == CycleAt(p, child);
  }

  // ---------- termination: how many paths a stack still leads to ----------

  /** The number of simple paths that extend p, p itself included. */
  ghost function Work(g: Children, p: seq<Item>): nat
    requires SimplePath(g, p)
    decreases |AllNodes(g)| - |p|, 1, 0
  {
    PathInNodes(g, p);
    1 + WorkOfKids(g, p, KidsOf(g, Last(p)))
  }

  ghost function WorkOfKids(g: Children, p: seq<Item>, kids: seq<Item>): nat
    requires SimplePath(g, p)
    requires forall c :: c in kids ==> c in KidsOf(g, Last(p))
    decreases |AllNodes(g)| - |p|, 0, |kids|
  {
    PathInNodes(g, p);
    if kids == [] then 0
    else
      var c := Last(kids);
      WorkOfKids(g, p, kids[..|kids| - 1]) +
        if c in p then 0
        else
          PathExtends(g, p, c);
          PathInNodes(g, p + [c]);
          Work(g, p + [c])
  }

  ghost predicate SimplePaths(g: Children, paths: seq<seq<Item>>) {
    forall i :: 0 <= i < |paths| ==> SimplePath(g, paths[i])
  }

  ghost function StackWork(g: Children, paths: seq<seq<Item>>): nat
    requires SimplePaths(g, paths)
  {
    if paths == [] then 0
    else StackWork(g, paths[..|paths| - 1]) + Work(g, paths[|paths| - 1])
  }

  // ---------- one path taken off the stack ----------

  /** Every child of `path` among `kids` has been dealt with: a repeated one closes
      a cycle that is listed, any other extends a path left on the stack. */
  ghost predicate KidsHandled(path: seq<Item>, kids: seq<Item>, cycles: seq<seq<Item>>,
                              paths: seq<seq<Item>>, visited: set<Item>) {
    forall c {:trigger c in kids} :: c in kids ==>
      if c in path then Represented(cycles, CycleAt(path, c))
      else path + [c] in paths && c in visited
  }

  ghost predicate Listing(g: Children, cycles: seq<seq<Item>>) {
    AllCycles(g, cycles) && NoTwoRotated(cycles)
  }

  lemma RepresentedGrows(cycles: seq<seq<Item>>, more: seq<seq<Item>>, c: seq<Item>)
    requires Represented(cycles, c) && cycles <= more
    ensures Represented(more, c)
  {
    var i :| 0 <= i < |cycles| && IsRotation(cycles[i], c);
    assert more[i] == cycles[i];
  }

  /** The scan for a duplicate, and the append when there is none. */
  method AddCycle(ghost g: Children, cycles0: seq<seq<Item>>, cycle: seq<Item>) returns (cycles: seq<seq<Item>>)
    requires Listing(g, cycles0) && ElementaryCycle(g, cycle)
    ensures cycles0 <= cycles
    ensures Listing(g, cycles) && Represented(cycles, cycle)
  {
    cycles := cycles0;
    var isDup := false;
    for i := 0 to |cycles|
      invariant !isDup
      invariant forall j :: 0 <= j < i ==> !IsRotation(cycles[j], cycle)
    {
      var r := IsRotated(cycles[i], cycle);
      if r == Value(true) {
        isDup := true;
        break;
      }
    }
    if !isDup {
      RotationReflexive(cycle);
      cycles := cycles + [cycle];
      assert IsRotation(cycles[|cycles| - 1], cycle);
    }
  }

  /** One child of the path: a cycle to list, or a longer path for the stack. */
  method VisitChild(ghost g: Children, path: seq<Item>, child: Item, cycles0: seq<seq<Item>>,
                    paths0: seq<seq<Item>>, visited0: set<Item>)
    returns (cycles: seq<seq<Item>>, paths: seq<seq<Item>>, visited: set<Item>)
    requires SimplePath(g, path) && child in KidsOf(g, Last(path)) && Listing(g, cycles0)
    ensures cycles0 <= cycles && Listing(g, cycles)
    ensures child in path ==> Represented(cycles, CycleAt(path, child)) && paths == paths0 && visited == visited0
    ensures child !in path ==> SimplePath(g, path + [child]) && paths == paths0 + [path + [child]]
    ensures child !in path ==> visited == visited0 + {child}
  {
    cycles, paths, visited := cycles0, paths0, visited0;
    if child in path {
      CycleAtIsElementary(g, path, child);
      cycles := AddCycle(g, cycles, CycleAt(path, child));
    } else {
      PathExtends(g, path, child);
      paths := paths + [path + [child]];
      visited := visited + {child};
    }
  }

  /** What the paths pushed for `kids` look like, and how much work they stand for. */
  ghost predicate Pushed(g: Children, path: seq<Item>, kids: seq<Item>, paths0: seq<seq<Item>>,
                         paths: seq<seq<Item>>, visited0: set<Item>, visited: set<Item>)
    requires SimplePath(g, path) && SimplePaths(g, paths0)
    requires forall c :: c in kids ==> c in KidsOf(g, Last(path))
  {
    && paths0 <= paths && visited0 <= visited
    && SimplePaths(g, paths)
    && (forall i :: |paths0| <= i < |paths| ==> path < paths[i])
    && (forall c :: c in visited ==> c in visited0 || path + [c] in paths)
    && StackWork(g, paths) == StackWork(g, paths0) + WorkOfKids(g, path, kids)
  }

  lemma PushedOneMore(g: Children, path: seq<Item>, kids: seq<Item>, child: Item, paths0: seq<seq<Item>>,
                      paths: seq<seq<Item>>, visited0: set<Item>, visited: set<Item>)
    requires SimplePath(g, path) && SimplePaths(g, paths0) && child in KidsOf(g, Last(path))
    requires forall c :: c in kids ==> c in KidsOf(g, Last(path))
    requires Pushed(g, path, kids, paths0, paths, visited0, visited)
    ensures child in path ==> Pushed(g, path, kids + [child], paths0, paths, visited0, visited)
    ensures child !in path ==>
      Pushed(g, path, kids + [child], paths0, paths + [path + [child]], visited0, visited + {child})
  {
    assert (kids + [child])[..|kids|] == kids;
    if child !in path {
      PathExtends(g, path, child);
      assert (paths + [path + [child]])[..|paths|] == paths;
    }
  }

  method ExpandPath(g: Children, path: seq<Item>, kids: seq<Item>, cycles0: seq<seq<Item>>,
                    paths0: seq<seq<Item>>, visited0: set<Item>)
    returns (cycles: seq<seq<Item>>, paths: seq<seq<Item>>, visited: set<Item>)
    requires SimplePath(g, path) && kids == KidsOf(g, Last(path))
    requires SimplePaths(g, paths0) && Listing(g, cycles0)
    ensures cycles0 <= cycles && Listing(g, cycles)
    ensures KidsHandled(path, kids, cycles, paths, visited)
    ensures Pushed(g, path, kids, paths0, paths, visited0, visited)
  {
    cycles, paths, visited := cycles0, paths0, visited0;
    for k := 0 to |kids|
      invariant cycles0 <= cycles && Listing(g, cycles)
      invariant KidsHandled(path, kids[..k], cycles, paths, visited)
      invariant Pushed(g, path, kids[..k], paths0, paths, visited0, visited)
    {
      ghost var cyclesBefore, pathsBefore := cycles, paths;
      assert kids[..k + 1] == kids[..k] + [kids[k]];
      PushedOneMore(g, path, kids[..k], kids[k], paths0, paths, visited0, visited);
      cycles, paths, visited := VisitChild(g, path, kids[k], cycles, paths, visited);
      KidsHandledGrow(path, kids[..k], cyclesBefore, cycles, pathsBefore, paths);
    }
    assert kids[..|kids|] == kids;
  }

  lemma KidsHandledGrow(path: seq<Item>, kids: seq<Item>, cycles: seq<seq<Item>>, cycles': seq<seq<Item>>,
                        paths: seq<seq<Item>>, paths': seq<seq<Item>>)
    requires cycles <= cycles' && paths <= paths'
    ensures forall visited :: KidsHandled(path, kids, cycles, paths, visited) ==>
      KidsHandled(path, kids, cycles', paths', visited)
  {
    forall visited, c | KidsHandled(path, kids, cycles, paths, visited) && c in kids
      ensures if c in path then Represented(cycles', CycleAt(path, c)) else path + [c] in paths'
    {
      if c in path {
        RepresentedGrows(cycles, cycles', CycleAt(path, c));
      }
    }
  }

  // ---------- one root explored to the end ----------

  /** Every cycle that closes at the end of this path is listed. */
  ghost predicate PathHandled(g: Children, p: seq<Item>, cycles: seq<seq<Item>>)
    requires p != []
  {
    forall c {:trigger c in p} :: c in KidsOf(g, Last(p)) && c in p ==> Represented(cycles, CycleAt(p, c))
  }

  /** A path not handled yet extends one that is still on the stack. */
  ghost predicate Frontier(g: Children, root: Item, paths: seq<seq<Item>>, cycles: seq<seq<Item>>) {
    forall p {:trigger SimplePath(g, p)} :: SimplePath(g, p) && p[0] == root ==>
      PathHandled(g, p, cycles) || exists i :: 0 <= i < |paths| && paths[i] <= p
  }

  /** Nothing is left to find from this root. */
  ghost predicate Searched(g: Children, root: Item, cycles: seq<seq<Item>>) {
    forall p {:trigger SimplePath(g, p)} :: SimplePath(g, p) && p[0] == root ==> PathHandled(g, p, cycles)
  }

  ghost predicate Reached(g: Children, root: Item, v: Item) {
    exists p :: SimplePath(g, p) && p[0] == root && Last(p) == v
  }

  lemma PathStaysHandled(g: Children, p: seq<Item>, cycles: seq<seq<Item>>, more: seq<seq<Item>>)
    requires p != [] && PathHandled(g, p, cycles) && cycles <= more
    ensures PathHandled(g, p, more)
  {
    forall c | c in KidsOf(g, Last(p)) && c in p
      ensures Represented(more, CycleAt(p, c))
    {
      RepresentedGrows(cycles, more, CycleAt(p, c));
    }
  }

  lemma FrontierStep(g: Children, root: Item, front: seq<seq<Item>>, path: seq<Item>, cycles: seq<seq<Item>>,
                     paths': seq<seq<Item>>, cycles': seq<seq<Item>>, visited': set<Item>)
    requires SimplePath(g, path)
    requires Frontier(g, root, front + [path], cycles)
    requires front <= paths' && cycles <= cycles'
    requires KidsHandled(path, KidsOf(g, Last(path)), cycles', paths', visited')
    ensures Frontier(g, root, paths', cycles')
  {
    forall p | SimplePath(g, p) && p[0] == root
      ensures PathHandled(g, p, cycles') || exists i :: 0 <= i < |paths'| && paths'[i] <= p
    {
      if PathHandled(g, p, cycles) {
        PathStaysHandled(g, p, cycles, cycles');
      } else {
        var old_ := front + [path];
        var i :| 0 <= i < |old_| && old_[i] <= p;
        if i < |front| {
          assert paths'[i] == old_[i];
        } else if p != path {
          var n := |path|;
          PathPrefix(g, p, n);
          assert p[..n] == path && p[n - 1] == Last(path);
          assert p[n] in KidsOf(g, Last(path));
          assert path + [p[n]] in paths' && path + [p[n]] <= p;
        }
      }
    }
  }

  method Explore(g: Children, root: Item, cycles0: seq<seq<Item>>, visited0: set<Item>)
    returns (cycles: seq<seq<Item>>, visited: set<Item>)
    requires root in g && Listing(g, cycles0)
    ensures cycles0 <= cycles && Listing(g, cycles)
    ensures Searched(g, root, cycles)
    ensures visited0 <= visited && forall v :: v in visited ==> v in visited0 || Reached(g, root, v)
  {
    cycles, visited := cycles0, visited0;
    var paths := [[root]];
    while paths != []
      invariant SimplePaths(g, paths) && forall i :: 0 <= i < |paths| ==> paths[i][0] == root
      invariant cycles0 <= cycles && Listing(g, cycles)
      invariant Frontier(g, root, paths, cycles)
      invariant visited0 <= visited && forall v :: v in visited ==> v in visited0 || Reached(g, root, v)
      decreases StackWork(g, paths)
    {
      var path := paths[|paths| - 1];
      ghost var front := paths[..|paths| - 1];
      assert paths == front + [path];
      paths := paths[..|paths| - 1];
      var parent := Last(path);
      ghost var cyclesBefore, visitedBefore := cycles, visited;
      if parent !in g {
        FrontierStep(g, root, front, path, cycles, paths, cycles, visited);
        continue;
      }
      cycles, paths, visited := ExpandPath(g, path, g[parent], cycles, paths, visited);
      FrontierStep(g, root, front, path, cyclesBefore, paths, cycles, visited);
      VisitedIsReached(g, root, path, front, paths, visitedBefore, visited);
    }
  }

  lemma VisitedIsReached(g: Children, root: Item, path: seq<Item>, front: seq<seq<Item>>, paths: seq<seq<Item>>,
                         before: set<Item>, visited: set<Item>)
    requires SimplePaths(g, paths) && SimplePath(g, path) && path[0] == root && front <= paths
    requires forall c :: c in visited ==> c in before || path + [c] in paths
    ensures forall c :: c in visited ==> c in before || Reached(g, root, c)
  {
    forall c | c in visited && c !in before
      ensures Reached(g, root, c)
    {
      var q := path + [c];
      assert SimplePath(g, q) && q[0] == root && Last(q) == c;
    }
  }

  // ---------- why skipping visited roots loses nothing ----------

  lemma RotatedCycle(g: Children, c: seq<Item>, k: nat)
    requires ElementaryCycle(g, c) && k < |c|
    ensures ElementaryCycle(g, Rotate(c, k))
  {
    var r, n := Rotate(c, k), |c|;
    forall i | 0 <= i < n - 1
      ensures Hop(EdgesOf(g), r, i)
    {
      if i + k + 1 < n {
        assert Hop(EdgesOf(g), c, i + k);
      } else if i + k + 1 > n {
        assert Hop(EdgesOf(g), c, i + k - n);
      }
    }
    if k > 0 {
      assert Hop(EdgesOf(g), c, k - 1);
    }
  }

  /** A path that ends at its first item of the cycle, continued around the cycle. */
  lemma AroundTheCycle(g: Children, p: seq<Item>, c: seq<Item>)
    requires SimplePath(g, p) && ElementaryCycle(g, c)
    requires Last(p) == c[0] && forall k :: 0 <= k < |p| - 1 ==> p[k] !in c
    ensures SimplePath(g, p + c[1..])
    ensures Last(p + c[1..]) == Last(c) && c[0] in p + c[1..]
    ensures CycleAt(p + c[1..], c[0]) == c
  {
    var w := p + c[1..];
    var m := |p| - 1;
    assert forall k :: m <= k < |w| ==> w[k] == c[k - m];
    forall i | 0 <= i < |w| - 1
      ensures Hop(EdgesOf(g), w, i)
    {
      if i < m {
        assert Hop(EdgesOf(g), p, i);
      } else {
        assert Hop(EdgesOf(g), c, i - m);
      }
    }
    assert w[m] == c[0];
    assert Position(w, c[0]) == m;
    assert w[m..] == c;
  }

  lemma {:induction false} CycleFound(g: Children, root: Item, p: seq<Item>, c: seq<Item>, cycles: seq<seq<Item>>)
    requires Searched(g, root, cycles)
    requires SimplePath(g, p) && p[0] == root && Last(p) in c && ElementaryCycle(g, c)
    ensures Represented(cycles, c)
    decreases |p|
  {
    if k :| 0 <= k < |p| - 1 && p[k] in c {
      PathPrefix(g, p, k + 1);
      CycleFound(g, root, p[..k + 1], c, cycles);
    } else {
      var k := Position(c, Last(p));
      var r := Rotate(c, k);
      RotatedCycle(g, c, k);
      assert forall x :: x in r <==> x in c;
      AroundTheCycle(g, p, r);
      var w := p + r[1..];
      assert PathHandled(g, w, cycles);
      assert Represented(cycles, r);
      var i :| 0 <= i < |cycles| && IsRotation(cycles[i], r);
      assert IsRotation(c, r);
      RotationSymmetric(c, r);
      RotationTransitive(cycles[i], r, c);
    }
  }

  /** v can be reached from a root that has been explored. */
  ghost predicate Covered(g: Children, explored: set<Item>, v: Item) {
    exists r :: r in explored && Reached(g, r, v)
  }

  lemma CoveredGrows(g: Children, explored: set<Item>, more: set<Item>)
    requires explored <= more
    ensures forall v {:trigger Covered(g, more, v)} :: Covered(g, explored, v) ==> Covered(g, more, v)
  {
  }

  lemma NothingMissed(g: Children, explored: set<Item>, cycles: seq<seq<Item>>, c: seq<Item>)
    requires forall r :: r in explored ==> Searched(g, r, cycles)
    requires forall v {:trigger Covered(g, explored, v)} :: v in g ==> Covered(g, explored, v)
    requires ElementaryCycle(g, c)
    ensures Represented(cycles, c)
  {
    assert c[0] in g by {
      if |c| > 1 {
        assert Hop(EdgesOf(g), c, 0);
      }
    }
    assert Covered(g, explored, c[0]);
    var r :| r in explored && Reached(g, r, c[0]);
    var p :| SimplePath(g, p) && p[0] == r && Last(p) == c[0];
    CycleFound(g, r, p, c, cycles);
  }

  lemma SearchedStays(g: Children, explored: set<Item>, cycles: seq<seq<Item>>, more: seq<seq<Item>>)
    requires cycles <= more
    requires forall r :: r in explored ==> Searched(g, r, cycles)
    ensures forall r :: r in explored ==> Searched(g, r, more)
  {
    forall r, p | r in explored && SimplePath(g, p) && p[0] == r
      ensures PathHandled(g, p, more)
    {
      PathStaysHandled(g, p, cycles, more);
    }
  }

  lemma RootReachesItself(g: Children, root: Item)
    requires root in g
    ensures SimplePath(g, [root]) && Reached(g, root, root)
  {
    assert SimplePath(g, [root]) && Last([root]) == root;
  }

  /** The yielded cycles: elementary, pairwise different up to rotation, none missing. */
  method FindCycles(g: Children) returns (cycles: seq<seq<Item>>)
    ensures forall i :: 0 <= i < |cycles| ==> ElementaryCycle(g, cycles[i])
    ensures forall i, j :: 0 <= i < |cycles| && 0 <= j < |cycles| && i != j ==> !IsRotation(cycles[i], cycles[j])
    ensures forall c :: ElementaryCycle(g, c) ==> Represented(cycles, c)
  {
    cycles := [];
    var visited: set<Item> := {};
    ghost var explored: set<Item> := {};
    var keys := g.Keys;
    while keys != {}
      invariant keys <= g.Keys && explored <= g.Keys
      invariant Listing(g, cycles)
      invariant forall r :: r in explored ==> Searched(g, r, cycles)
      invariant forall v {:trigger Covered(g, explored, v)} ::
        v in visited || (v in g && v !in keys) ==> Covered(g, explored, v)
    {
      var parent :| parent in keys;
      keys := keys - {parent};
      if parent in visited {
        continue;
      }
      ghost var before, exploredBefore := cycles, explored;
      cycles, visited := Explore(g, parent, cycles, visited);
      SearchedStays(g, explored, before, cycles);
      RootReachesItself(g, parent);
      explored := explored + {parent};
      CoveredGrows(g, exploredBefore, explored);
    }
    forall c | ElementaryCycle(g, c)
      ensures Represented(cycles, c)
    {
      NothingMissed(g, explored, cycles, c);
    }
    forall i, j | 0 <= i < |cycles| && 0 <= j < |cycles| && i != j
      ensures !IsRotation(cycles[i], cycles[j])
    {
      if IsRotation(cycles[i], cycles[j]) {
        RotationSymmetric(cycles[i], cycles[j]);
      }
    }
  }
}
