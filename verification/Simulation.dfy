/** The simulation's global routing state and the operations on it: computing all
    routes, filling the forwarding tables, and taking a link down. */
module Simulation {
  import opened Lists
  import opened RouteGraph
  import opened Routing

  class RoutingState {
    const nodes: seq<Node>
    const switches: set<Node>
    const payload: nat

    var nbr2if: Links
    var nextHop: Rows<seq<Node>>
    var pairDelay: Rows<nat>
    var pairTxDelay: Rows<nat>
    var pairBw: Rows<nat>
    var tables: Rows<seq<nat>>

    function Network(): Net
      reads this`nbr2if
    {
      Net(nbr2if, switches, payload)
    }

    /** Links are symmetric and usable, and join nodes of the container. */
    ghost predicate WellFormed()
      reads this`nbr2if
    {
      && NoRepeats(nodes)
      && Symmetric(nbr2if)
      && Usable(nbr2if)
      && LinksInside(nbr2if, nodes)
    }

    /** Routes, costs and forwarding tables are those of the present links. */
    ghost predicate Valid()
      reads this
    {
      && WellFormed()
      && RoutesCurrent(Network(), nodes, nextHop)
      && CostsCurrent(Network(), nodes, pairDelay, pairTxDelay, pairBw)
      && TablesCurrent(nbr2if, nextHop, tables)
    }

    /** The costs recorded for a pair are those of a shortest route, link by link. */
    ghost predicate CostsOfPair(host: Node, v: Node)
      requires Usable(nbr2if)
      reads this
    {
      && (v, host) in pairDelay && (v, host) in pairTxDelay && (v, host) in pairBw
      && Explained(Network(), host, v, pairDelay[(v, host)], pairTxDelay[(v, host)], pairBw[(v, host)])
    }

    /** Set up as the program does before it starts: links, then routes, then tables. */
    constructor (nodes: seq<Node>, switches: set<Node>, payload: nat, links: Links)
      requires NoRepeats(nodes) && Symmetric(links) && Usable(links) && LinksInside(links, nodes)
      ensures Valid()
      ensures this.nodes == nodes && this.switches == switches && this.payload == payload && nbr2if == links
    {
      this.nodes, this.switches, this.payload, this.nbr2if := nodes, switches, payload, links;
      this.nextHop, this.pairDelay, this.pairTxDelay, this.pairBw, this.tables := map[], map[], map[], map[], map[];
      new;
      CalculateRoutes();
      SetRoutingEntries();
    }

    method CalculateRoute(host: Node) returns (ghost s: Search)
      requires WellFormed()
      modifies this`nextHop, this`pairDelay, this`pairTxDelay, this`pairBw
      ensures Routed(Network(), host, s)
      ensures forall v {:trigger CostsOfPair(host, v)} :: Reachable(Network(), host, v) ==> CostsOfPair(host, v)
      ensures RowsAppended(old(nextHop), nextHop, host, s)
      ensures Written(old(pairDelay), pairDelay, host, s.delay)
      ensures Written(old(pairTxDelay), pairTxDelay, host, s.txDelay)
      ensures Written(old(pairBw), pairBw, host, s.bw)
    {
      var search := SearchFrom(Network(), host);
      nextHop := AppendRows(nextHop, host, search);
      pairDelay := WriteRows(pairDelay, host, search.delay);
      pairTxDelay := WriteRows(pairTxDelay, host, search.txDelay);
      pairBw := WriteRows(pairBw, host, search.bw);
      s := search;
      forall v | Reachable(Network(), host, v)
        ensures CostsOfPair(host, v)
      {
        assert ExplainedAt(Network(), host, search, v);
        assert (v, host) in pairDelay && (v, host) in pairTxDelay && (v, host) in pairBw;
      }
    }

    /** Starting from cleared rows, the routes become those of the present links;
        the costs of pairs that no route joins keep whatever was recorded before. */
    method CalculateRoutes()
      requires WellFormed()
      modifies this`nextHop, this`pairDelay, this`pairTxDelay, this`pairBw
      ensures old(nextHop) == map[] ==> RoutesCurrent(Network(), nodes, nextHop)
      ensures CostsCurrent(Network(), nodes, pairDelay, pairTxDelay, pairBw)
      ensures StaleKept(Network(), nodes, old(pairDelay), pairDelay)
      ensures StaleKept(Network(), nodes, old(pairTxDelay), pairTxDelay)
      ensures StaleKept(Network(), nodes, old(pairBw), pairBw)
    {
      assert nodes[..0] == [];
      for i := 0 to |nodes|
        invariant old(nextHop) == map[] ==> RoutesCurrent(Network(), nodes[..i], nextHop)
        invariant CostsCurrent(Network(), nodes[..i], pairDelay, pairTxDelay, pairBw)
        invariant StaleKept(Network(), nodes, old(pairDelay), pairDelay)
        invariant StaleKept(Network(), nodes, old(pairTxDelay), pairTxDelay)
        invariant StaleKept(Network(), nodes, old(pairBw), pairBw)
      {
        NotYet(nodes, i);
        if nodes[i] !in switches {
          ghost var before, delay, txDelay, bw := nextHop, pairDelay, pairTxDelay, pairBw;
          ghost var s := CalculateRoute(nodes[i]);
          if old(nextHop) == map[] {
            OneMoreRow(Network(), nodes, i, before, nextHop, s);
          }
          OneMoreCost(Network(), nodes, i, delay, txDelay, bw, pairDelay, pairTxDelay, pairBw, s);
          StaleStillKept(Network(), nodes, i, s, old(pairDelay), delay, pairDelay, s.delay);
          StaleStillKept(Network(), nodes, i, s, old(pairTxDelay), txDelay, pairTxDelay, s.txDelay);
          StaleStillKept(Network(), nodes, i, s, old(pairBw), bw, pairBw, s.bw);
        }
      }
      assert nodes[..|nodes|] == nodes;
    }

    /** Push the interface of every next hop into the table of its node. */
    method SetRoutingEntries()
      modifies this`tables
      ensures forall v, host {:trigger Row(tables, v, host)} ::
        Row(tables, v, host) == Row(old(tables), v, host) + Indices(nbr2if, v, Row(nextHop, v, host))
      ensures forall v, host {:trigger Row(tables, v, host)} ::
        Pushed(nbr2if, v, Row(nextHop, v, host), Row(old(tables), v, host), Row(tables, v, host))
    {
      var keys := nextHop.Keys;
      while keys != {}
        invariant keys <= nextHop.Keys
        invariant Filled(nbr2if, nextHop, old(tables), tables, keys)
      {
        var key :| key in keys;
        var nexts := nextHop[key];
        ghost var before := tables;
        assert Row(before, key.0, key.1) + [] == Row(before, key.0, key.1);
        for k := 0 to |nexts|
          invariant forall v, host {:trigger Row(tables, v, host)} ::
            Row(tables, v, host) == if (v, host) == key
              then Row(before, v, host) + Indices(nbr2if, v, nexts[..k]) else Row(before, v, host)
        {
          assert Indices(nbr2if, key.0, nexts[..k + 1])
              == Indices(nbr2if, key.0, nexts[..k]) + [LinkIndex(nbr2if, key.0, nexts[k])];
          assert Row(before, key.0, key.1) + Indices(nbr2if, key.0, nexts[..k + 1])
              == Row(tables, key.0, key.1) + [LinkIndex(nbr2if, key.0, nexts[k])];
          RowWritten(tables, key, Row(tables, key.0, key.1) + [LinkIndex(nbr2if, key.0, nexts[k])]);
          tables := tables[key := Row(tables, key.0, key.1) + [LinkIndex(nbr2if, key.0, nexts[k])]];
        }
        assert nexts[..|nexts|] == nexts;
        FilledOneMore(nbr2if, nextHop, old(tables), before, tables, keys, key);
        keys := keys - {key};
      }
      assert Filled(nbr2if, nextHop, old(tables), tables, {});
      FilledIsPushed(nbr2if, nextHop, old(tables), tables);
    }

    /** Every device of the container forgets its table. */
    method ClearTables()
      modifies this`tables
      ensures forall v, host {:trigger Row(tables, v, host)} ::
        Row(tables, v, host) == if v in nodes then [] else Row(old(tables), v, host)
    {
      for i := 0 to |nodes|
        invariant forall v, host {:trigger Row(tables, v, host)} ::
          Row(tables, v, host) == if v in nodes[..i] then [] else Row(old(tables), v, host)
      {
        assert nodes[..i + 1] == nodes[..i] + [nodes[i]];
        RowsForgotten(tables, nodes[i]);
        tables := map k | k in tables && k.0 != nodes[i] :: tables[k];
      }
      assert nodes[..|nodes|] == nodes;
    }

    /** Clear next hops and tables and compute them again. */
    method Rebuild()
      requires WellFormed()
      requires forall v, host {:trigger Row(tables, v, host)} :: v !in nodes ==> Row(tables, v, host) == []
      modifies this`nextHop, this`pairDelay, this`pairTxDelay, this`pairBw, this`tables
      ensures Valid()
      ensures StaleKept(Network(), nodes, old(pairDelay), pairDelay)
      ensures StaleKept(Network(), nodes, old(pairTxDelay), pairTxDelay)
      ensures StaleKept(Network(), nodes, old(pairBw), pairBw)
    {
      nextHop := map[];
      CalculateRoutes();
      ClearTables();
      ghost var cleared := tables;
      SetRoutingEntries();
      forall v, host
        ensures Row(tables, v, host) == Indices(nbr2if, v, Row(nextHop, v, host))
      {
        assert Row(cleared, v, host) == [];
      }
    }

    /** Take the link down if it is up, and redo all routes and tables. */
    method TakeDownLink(a: Node, b: Node)
      requires Valid()
      modifies this
      ensures nbr2if == LinkDown(old(nbr2if), a, b)
      ensures Valid()
      ensures !old(Up(nbr2if, a, b)) ==>
        nextHop == old(nextHop) && tables == old(tables) && pairDelay == old(pairDelay)
        && pairTxDelay == old(pairTxDelay) && pairBw == old(pairBw)
      ensures StaleKept(Network(), nodes, old(pairDelay), pairDelay)
      ensures StaleKept(Network(), nodes, old(pairTxDelay), pairTxDelay)
      ensures StaleKept(Network(), nodes, old(pairBw), pairBw)
    {
      LinkDownEffect(nbr2if, a, b);
      ghost var before := Network();
      nbr2if := Touch(nbr2if, a, b);
      if !nbr2if[a][b].up {
        SameUpLinks(before, Network(), nodes, nextHop, pairDelay, pairTxDelay, pairBw);
        SameTables(before.links, nbr2if, nextHop, tables);
        return;
      }
      nbr2if := SetDown(nbr2if, a, b);
      nbr2if := SetDown(Touch(nbr2if, b, a), b, a);
      OutsideIsEmpty(before, nodes, nextHop, tables);
      Rebuild();
    }

    /** Any number of failures, one after the other: the state is that of the links never named. */
    method TakeDownLinks(calls: seq<(Node, Node)>)
      requires Valid()
      modifies this
      ensures Valid() && nbr2if == LinksAfter(old(nbr2if), calls)
      ensures forall x, y {:trigger Up(nbr2if, x, y)} :: Up(nbr2if, x, y) <==>
        old(Up(nbr2if, x, y)) && (x, y) !in calls && (y, x) !in calls
    {
      ghost var links := nbr2if;
      for i := 0 to |calls|
        invariant Valid() && nbr2if == LinksAfter(links, calls[..i])
      {
        assert calls[..i + 1][..i] == calls[..i];
        TakeDownLink(calls[i].0, calls[i].1);
      }
      assert calls[..|calls|] == calls;
      LinksAfterCalls(links, calls);
    }
  }

  /** Behind the old entries come the interface numbers of the hops, in order. */
  ghost predicate Pushed(links: Links, v: Node, hops: seq<Node>, before: seq<nat>, after: seq<nat>) {
    && |after| == |before| + |hops| && before <= after
    && forall k :: 0 <= k < |hops| && v in links && hops[k] in links[v] ==>
      after[|before| + k] == links[v][hops[k]].idx
  }

  lemma FilledIsPushed(links: Links, nextHop: Rows<seq<Node>>, start: Rows<seq<nat>>, tables: Rows<seq<nat>>)
    requires Filled(links, nextHop, start, tables, {})
    ensures forall v, host {:trigger Row(tables, v, host)} ::
      Pushed(links, v, Row(nextHop, v, host), Row(start, v, host), Row(tables, v, host))
  {
    forall v, host
      ensures Pushed(links, v, Row(nextHop, v, host), Row(start, v, host), Row(tables, v, host))
    {
      assert Row(tables, v, host) == Row(start, v, host) + Indices(links, v, Row(nextHop, v, host));
    }
  }

  lemma RowsForgotten(m: Rows<seq<nat>>, n: Node)
    ensures var m' := map k | k in m && k.0 != n :: m[k];
      forall v, host {:trigger Row(m', v, host)} :: Row(m', v, host) == if v == n then [] else Row(m, v, host)
  {
  }

  ghost predicate LinksInside(links: Links, nodes: seq<Node>) {
    forall a, b :: Up(links, a, b) ==> a in nodes && b in nodes
  }

  /** The tables are those of the start plus the entries of all keys but `left`. */
  ghost predicate Filled(links: Links, nextHop: Rows<seq<Node>>, start: Rows<seq<nat>>, tables: Rows<seq<nat>>,
                         left: set<(Node, Node)>) {
    forall v, host {:trigger Row(tables, v, host)} ::
      Row(tables, v, host) == Row(start, v, host) +
        if (v, host) in left then [] else Indices(links, v, Row(nextHop, v, host))
  }

  lemma FilledOneMore(links: Links, nextHop: Rows<seq<Node>>, start: Rows<seq<nat>>, before: Rows<seq<nat>>,
                      tables: Rows<seq<nat>>, left: set<(Node, Node)>, key: (Node, Node))
    requires Filled(links, nextHop, start, before, left) && key in left && key in nextHop
    requires forall v, host {:trigger Row(tables, v, host)} ::
      Row(tables, v, host) == if (v, host) == key
        then Row(before, v, host) + Indices(links, v, nextHop[key]) else Row(before, v, host)
    ensures Filled(links, nextHop, start, tables, left - {key})
  {
    forall v, host
      ensures Row(tables, v, host) == Row(start, v, host) +
        if (v, host) in left - {key} then [] else Indices(links, v, Row(nextHop, v, host))
    {
      assert Row(before, v, host) == Row(before, v, host);
      assert Row(start, v, host) + [] == Row(start, v, host);
    }
  }

  /** Nothing is routed from a node outside the container. */
  lemma OutsideIsEmpty(net: Net, nodes: seq<Node>, nextHop: Rows<seq<Node>>, tables: Rows<seq<nat>>)
    requires LinksInside(net.links, nodes)
    requires RoutesCurrent(net, nodes, nextHop) && TablesCurrent(net.links, nextHop, tables)
    ensures forall v, host {:trigger Row(tables, v, host)} :: v !in nodes ==> Row(tables, v, host) == []
  {
    forall v, host | v !in nodes
      ensures Row(tables, v, host) == []
    {
      assert forall x :: !IsNextHop(net, host, v, x);
      SomeMember(Row(nextHop, v, host));
    }
  }

  /** The second network differs only in entries for links that are down. */
  ghost predicate SameUp(net: Net, net': Net) {
    && net' == net.(links := net'.links)
    && (forall x, y {:trigger Up(net'.links, x, y)} :: Up(net'.links, x, y) <==> Up(net.links, x, y))
    && forall x, y {:trigger Up(net'.links, x, y)} :: Up(net'.links, x, y) && Up(net.links, x, y) ==>
      net'.links[x][y] == net.links[x][y]
  }

  lemma {:induction false} SamePathCost(net: Net, net': Net, p: seq<Node>)
    requires SameUp(net, net')
    ensures PathCost(net, p) == PathCost(net', p)
  {
    if |p| > 1 {
      SamePathCost(net, net', p[..|p| - 1]);
    }
  }

  lemma SameRoutes(net: Net, net': Net)
    requires SameUp(net, net')
    ensures forall host, v, p :: IsRoute(net, host, v, p) <==> IsRoute(net', host, v, p)
  {
    forall p: seq<Node>, i: nat | i + 1 < |p|
      ensures HopUp(net, p, i) <==> HopUp(net', p, i)
    {
    }
  }

  lemma SameNextHops(net: Net, net': Net, host: Node, v: Node, row: seq<Node>)
    requires SameUp(net, net') && RowRight(net, host, v, row)
    ensures RowRight(net', host, v, row)
  {
    SameRoutes(net, net');
    forall x
      ensures IsNextHop(net, host, v, x) <==> IsNextHop(net', host, v, x)
    {
      forall u, d: nat
        ensures Shortest(net, host, u, d) <==> Shortest(net', host, u, d)
      {
      }
    }
  }

  lemma SameCosts(net: Net, net': Net, host: Node, v: Node, c: Cost)
    requires SameUp(net, net') && CostsRight(net, host, v, c)
    ensures CostsRight(net', host, v, c)
  {
    SameRoutes(net, net');
    var p :| IsShortestRoute(net, host, v, p) && PathCost(net, p) == c;
    SamePathCost(net, net', p);
    assert IsShortestRoute(net', host, v, p);
  }

  /** Routes, costs and tables depend on the up links only. */
  lemma SameUpLinks(net: Net, net': Net, nodes: seq<Node>, nextHop: Rows<seq<Node>>, delay: Rows<nat>,
                    txDelay: Rows<nat>, bw: Rows<nat>)
    requires SameUp(net, net')
    requires RoutesCurrent(net, nodes, nextHop) && CostsCurrent(net, nodes, delay, txDelay, bw)
    ensures RoutesCurrent(net', nodes, nextHop) && CostsCurrent(net', nodes, delay, txDelay, bw)
  {
    forall v, host
      ensures if IsDestination(nodes, net'.switches, host)
              then RowRight(net', host, v, Row(nextHop, v, host))
              else Row(nextHop, v, host) == []
    {
      assert Row(nextHop, v, host) == Row(nextHop, v, host);
      if IsDestination(nodes, net.switches, host) {
        SameNextHops(net, net', host, v, Row(nextHop, v, host));
      }
    }
    SameRoutes(net, net');
    forall v, host | IsDestination(nodes, net'.switches, host) && Reachable(net', host, v)
      ensures CostCurrent(net', host, v, delay, txDelay, bw)
    {
      assert CostCurrent(net, host, v, delay, txDelay, bw);
      SameCosts(net, net', host, v, Cost(delay[(v, host)], txDelay[(v, host)], bw[(v, host)]));
    }
  }

  /** Indices read entries that a touched but missing interface does not change. */
  lemma SameTables(links: Links, links': Links, nextHop: Rows<seq<Node>>, tables: Rows<seq<nat>>)
    requires TablesCurrent(links, nextHop, tables)
    requires forall x, y :: LinkIndex(links', x, y) == LinkIndex(links, x, y)
    ensures TablesCurrent(links', nextHop, tables)
  {
    forall v, host
      ensures Row(tables, v, host) == Indices(links', v, Row(nextHop, v, host))
    {
      assert Indices(links', v, Row(nextHop, v, host)) == Indices(links, v, Row(nextHop, v, host));
    }
  }

  /** Pairs that are not a reachable destination keep their old value. */
  ghost predicate StaleKept(net: Net, nodes: seq<Node>, before: Rows<nat>, after: Rows<nat>) {
    forall v, host {:trigger (v, host) in after} ::
      !(IsDestination(nodes, net.switches, host) && Reachable(net, host, v)) ==>
        && ((v, host) in after <==> (v, host) in before)
        && ((v, host) in after ==> after[(v, host)] == before[(v, host)])
  }

  lemma NotYet(nodes: seq<Node>, i: nat)
    requires NoRepeats(nodes) && i < |nodes|
    ensures nodes[i] !in nodes[..i]
    ensures forall x :: x in nodes[..i + 1] <==> x in nodes[..i] || x == nodes[i]
  {
    NoRepeatsIsDistinct(nodes);
    assert nodes[..i + 1] == nodes[..i] + [nodes[i]];
  }

  lemma OneMoreRow(net: Net, nodes: seq<Node>, i: nat, before: Rows<seq<Node>>, after: Rows<seq<Node>>, s: Search)
    requires i < |nodes| && NoRepeats(nodes) && nodes[i] !in net.switches
    requires RoutesCurrent(net, nodes[..i], before)
    requires Routed(net, nodes[i], s) && RowsAppended(before, after, nodes[i], s)
    ensures RoutesCurrent(net, nodes[..i + 1], after)
  {
    NotYet(nodes, i);
    forall v, host
      ensures if IsDestination(nodes[..i + 1], net.switches, host)
              then RowRight(net, host, v, Row(after, v, host))
              else Row(after, v, host) == []
    {
      if host == nodes[i] {
        assert Row(before, v, host) == [];
        assert [] + HopsTo(s, v) == HopsTo(s, v);
        assert RowRight(net, host, v, HopsTo(s, v));
      }
    }
  }

  lemma OneMoreCost(net: Net, nodes: seq<Node>, i: nat, delay: Rows<nat>, txDelay: Rows<nat>, bw: Rows<nat>,
                    delay': Rows<nat>, txDelay': Rows<nat>, bw': Rows<nat>, s: Search)
    requires i < |nodes| && NoRepeats(nodes)
    requires CostsCurrent(net, nodes[..i], delay, txDelay, bw)
    requires Routed(net, nodes[i], s)
    requires Written(delay, delay', nodes[i], s.delay)
    requires Written(txDelay, txDelay', nodes[i], s.txDelay)
    requires Written(bw, bw', nodes[i], s.bw)
    ensures CostsCurrent(net, nodes[..i + 1], delay', txDelay', bw')
  {
    NotYet(nodes, i);
    forall v, host | IsDestination(nodes[..i + 1], net.switches, host) && Reachable(net, host, v)
      ensures CostCurrent(net, host, v, delay', txDelay', bw')
    {
      assert DistanceRight(net, nodes[i], s.dis, v) && CostsFound(net, nodes[i], s, v);
      if host != nodes[i] {
        assert CostCurrent(net, host, v, delay, txDelay, bw);
      }
    }
  }

  lemma StaleStillKept(net: Net, nodes: seq<Node>, i: nat, s: Search, before: Rows<nat>, now: Rows<nat>,
                       after: Rows<nat>, values: map<Node, nat>)
    requires i < |nodes| && nodes[i] !in net.switches
    requires Routed(net, nodes[i], s) && values.Keys == s.dis.Keys
    requires StaleKept(net, nodes, before, now) && Written(now, after, nodes[i], values)
    ensures StaleKept(net, nodes, before, after)
  {
    forall v, host | !(IsDestination(nodes, net.switches, host) && Reachable(net, host, v))
      ensures (v, host) in after <==> (v, host) in before
      ensures (v, host) in after ==> after[(v, host)] == before[(v, host)]
    {
      assert (v, host) in now <==> (v, host) in before;
      assert DistanceRight(net, nodes[i], s.dis, v);
    }
  }

  // ---------- any number of links taken down, and the packets afterwards ----------

  /** The link state after a sequence of requests. */
  function LinksAfter(links: Links, calls: seq<(Node, Node)>): Links {
    if calls == [] then links
    else
      var n := |calls| - 1;
      LinkDown(LinksAfter(links, calls[..n]), calls[n].0, calls[n].1)
  }

  lemma {:induction false} LinksAfterCalls(links: Links, calls: seq<(Node, Node)>)
    requires Symmetric(links) && Usable(links)
    ensures Symmetric(LinksAfter(links, calls)) && Usable(LinksAfter(links, calls))
    ensures forall x, y :: Up(LinksAfter(links, calls), x, y) <==>
      Up(links, x, y) && (x, y) !in calls && (y, x) !in calls
    ensures forall x, y :: Up(LinksAfter(links, calls), x, y) ==> LinksAfter(links, calls)[x][y] == links[x][y]
  {
    if calls != [] {
      var n := |calls| - 1;
      LinksAfterCalls(links, calls[..n]);
      LinkDownEffect(LinksAfter(links, calls[..n]), calls[n].0, calls[n].1);
      assert calls == calls[..n] + [calls[n]];
    }
  }

  /** w is what a packet may do under the installed next hops. */
  ghost predicate Follows(nextHop: Rows<seq<Node>>, host: Node, w: seq<Node>) {
    |w| > 0 && forall i :: 0 <= i < |w| - 1 ==> ChosenAt(nextHop, host, w, i)
  }

  ghost predicate ChosenAt(nextHop: Rows<seq<Node>>, host: Node, w: seq<Node>, i: nat)
    requires i + 1 < |w|
  {
    w[i + 1] in Row(nextHop, w[i], host)
  }

  /** Whatever choices are made, a packet that starts where a route exists makes
      exactly as many hops as its distance, stops at the host and nowhere else,
      meets no node twice, passes only through switches and uses only up links. */
  lemma PacketsArrive(net: Net, nodes: seq<Node>, nextHop: Rows<seq<Node>>, host: Node, w: seq<Node>, d: nat)
    requires Symmetric(net.links) && RoutesCurrent(net, nodes, nextHop)
    requires host in nodes && host !in net.switches
    requires Follows(nextHop, host, w) && Shortest(net, host, w[0], d)
    ensures |w| <= d + 1
    ensures w[|w| - 1] == host <==> |w| == d + 1
    ensures Row(nextHop, w[|w| - 1], host) == [] <==> w[|w| - 1] == host
    ensures Distinct(w)
    ensures forall i :: 0 < i < |w| - 1 ==> w[i] in net.switches
    ensures forall i :: 0 <= i < |w| - 1 ==> HopUp(net, w, i)
  {
    forall i | 0 <= i < |w| - 1
      ensures NextHopAt(net, host, w, i)
    {
      assert ChosenAt(nextHop, host, w, i);
    }
    ForwardingArrives(net, host, w, d);
    ForwardingIsLoopFree(net, host, w, d);
    var row := Row(nextHop, w[|w| - 1], host);
    assert RowRight(net, host, w[|w| - 1], row);
    SomeMember(row);
  }

  /** The installed next hops of a node are one, at least, exactly when the host is
      reachable from it over up links and switches and is not the node itself. */
  lemma RowNonEmpty(net: Net, nodes: seq<Node>, nextHop: Rows<seq<Node>>, host: Node, v: Node)
    requires Symmetric(net.links) && RoutesCurrent(net, nodes, nextHop)
    requires host in nodes && host !in net.switches
    ensures Row(nextHop, v, host) != [] <==> v != host && Reachable(net, host, v)
  {
    var row := Row(nextHop, v, host);
    assert RowRight(net, host, v, row);
    SomeMember(row);
    if Reachable(net, host, v) {
      var p :| IsRoute(net, host, v, p);
      var d := ReachableHasDistance(net, host, v, p);
      PacketsArrive(net, nodes, nextHop, host, [v], d);
    }
  }

  // ---------- what the tables of the devices do ----------

  /** Interface number i of v leads to a next hop. */
  ghost predicate LeadsOn(net: Net, host: Node, v: Node, i: nat) {
    exists x :: IsNextHop(net, host, v, x) && net.links[v][x].idx == i
  }

  /** The table of v towards a host has one entry for each next hop, and the entries are
      exactly the numbers of the interfaces of v behind which a next hop lies. */
  lemma InstalledInterfaces(net: Net, nodes: seq<Node>, nextHop: Rows<seq<Node>>, tables: Rows<seq<nat>>,
                            host: Node, v: Node)
    requires RoutesCurrent(net, nodes, nextHop) && TablesCurrent(net.links, nextHop, tables)
    requires host in nodes && host !in net.switches
    ensures forall i: nat :: i in Row(tables, v, host) <==> LeadsOn(net, host, v, i)
    ensures |Row(tables, v, host)| == |set x | x in Neighbours(net.links, v) && IsNextHop(net, host, v, x)|
  {
    var hops, row := Row(nextHop, v, host), Row(tables, v, host);
    assert RowRight(net, host, v, hops) && row == Indices(net.links, v, hops);
    forall i: nat
      ensures i in row <==> LeadsOn(net, host, v, i)
    {
      if i in row {
        var k :| 0 <= k < |row| && row[k] == i;
        assert hops[k] in hops && IsNextHop(net, host, v, hops[k]);
      }
      if x :| IsNextHop(net, host, v, x) && net.links[v][x].idx == i {
        var k :| 0 <= k < |hops| && hops[k] == x;
        assert row[k] == i;
      }
    }
    NoRepeatsLength(hops);
    assert ItemsOf(hops) == set x | x in Neighbours(net.links, v) && IsNextHop(net, host, v, x);
  }

  /** No node has the same number on two interfaces whose links are up. */
  ghost predicate Numbered(links: Links) {
    forall v, x, y {:trigger Up(links, v, x), Up(links, v, y)} ::
      Up(links, v, x) && Up(links, v, y) && links[v][x].idx == links[v][y].idx ==> x == y
  }

  /** w is what a packet does that each node sends out by an interface of its table. */
  ghost predicate Sent(links: Links, tables: Rows<seq<nat>>, host: Node, w: seq<Node>) {
    |w| > 0 && forall i :: 0 <= i < |w| - 1 ==> SentAt(links, tables, host, w, i)
  }

  ghost predicate SentAt(links: Links, tables: Rows<seq<nat>>, host: Node, w: seq<Node>, i: nat)
    requires i + 1 < |w|
  {
    Up(links, w[i], w[i + 1]) && links[w[i]][w[i + 1]].idx in Row(tables, w[i], host)
  }

  /** What leaves by an installed interface reaches a next hop. */
  lemma SentOnToNextHop(net: Net, nodes: seq<Node>, nextHop: Rows<seq<Node>>, tables: Rows<seq<nat>>,
                        host: Node, v: Node, y: Node)
    requires RoutesCurrent(net, nodes, nextHop) && TablesCurrent(net.links, nextHop, tables)
    requires host in nodes && host !in net.switches && Numbered(net.links) && Up(net.links, v, y)
    ensures net.links[v][y].idx in Row(tables, v, host) <==> IsNextHop(net, host, v, y)
  {
    InstalledInterfaces(net, nodes, nextHop, tables, host, v);
    var i := net.links[v][y].idx;
    assert i in Row(tables, v, host) <==> LeadsOn(net, host, v, i);
    if x :| IsNextHop(net, host, v, x) && net.links[v][x].idx == i {
      assert Up(net.links, v, x);
    }
  }

  /** Where interface numbers are distinct, a packet sent by the tables arrives: whichever of the
      installed interfaces is used, in exactly its distance, and only the host has none. */
  lemma TablesDeliver(net: Net, nodes: seq<Node>, nextHop: Rows<seq<Node>>, tables: Rows<seq<nat>>,
                      host: Node, w: seq<Node>, d: nat)
    requires Symmetric(net.links) && Numbered(net.links)
    requires RoutesCurrent(net, nodes, nextHop) && TablesCurrent(net.links, nextHop, tables)
    requires host in nodes && host !in net.switches
    requires Sent(net.links, tables, host, w) && Shortest(net, host, w[0], d)
    ensures |w| <= d + 1
    ensures w[|w| - 1] == host <==> |w| == d + 1
    ensures Row(tables, w[|w| - 1], host) == [] <==> w[|w| - 1] == host
    ensures Distinct(w)
  {
    forall i | 0 <= i < |w| - 1
      ensures ChosenAt(nextHop, host, w, i)
    {
      assert SentAt(net.links, tables, host, w, i);
      SentOnToNextHop(net, nodes, nextHop, tables, host, w[i], w[i + 1]);
      assert RowRight(net, host, w[i], Row(nextHop, w[i], host));
    }
    PacketsArrive(net, nodes, nextHop, host, w, d);
    var last := w[|w| - 1];
    assert Row(tables, last, host) == Indices(net.links, last, Row(nextHop, last, host));
  }
}
