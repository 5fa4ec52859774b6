/** Route computation: a breadth-first search from every host, and the rebuild of
    all routes when a link goes down. */
module Routing {
  import opened Lists
  import opened RouteGraph

  // ---------- the search from one host ----------

  /** The local variables of one search: the queue, the distances, the costs, and
      for each node the next hops towards the host found so far. */
  datatype Search = Search(
    q: seq<Node>,
    dis: map<Node, nat>,
    delay: map<Node, nat>,
    txDelay: map<Node, nat>,
    bw: map<Node, nat>,
    hops: map<Node, seq<Node>>)

  function HopsTo(s: Search, v: Node): seq<Node> {
    if v in s.hops then s.hops[v] else []
  }

  ghost predicate RecordedAt(net: Net, host: Node, s: Search, via: map<Node, seq<Node>>, x: Node)
    requires x in s.dis && x in s.delay && x in s.txDelay && x in s.bw && x in via
  {
    && IsRoute(net, host, x, via[x])
    && |via[x]| == s.dis[x] + 1
    && PathCost(net, via[x]) == Cost(s.delay[x], s.txDelay[x], s.bw[x])
  }

  /** One witness path per node explains its distance and all three of its costs. */
  ghost predicate Recorded(net: Net, host: Node, s: Search, via: map<Node, seq<Node>>) {
    && s.dis.Keys == s.delay.Keys == s.txDelay.Keys == s.bw.Keys == via.Keys
    && host in s.dis && s.dis[host] == 0
    && forall x {:trigger RecordedAt(net, host, s, via, x)} :: x in s.dis ==> RecordedAt(net, host, s, via, x)
  }

  ghost predicate InOrder(s: Search, i: nat)
    requires i + 1 < |s.q|
  {
    s.q[i] in s.dis && s.q[i + 1] in s.dis && s.dis[s.q[i]] <= s.dis[s.q[i + 1]]
  }

  /** The queue holds the host and every reached switch, once, by distance. */
  ghost predicate Queued(net: Net, host: Node, s: Search) {
    && NoRepeats(s.q)
    && (forall x :: x in s.q <==> x in s.dis && (x == host || x in net.switches))
    && forall i {:trigger InOrder(s, i)} :: 0 <= i < |s.q| - 1 ==> InOrder(s, i)
  }

  /** Every neighbour of x is reached, and at most one hop further than x. */
  ghost predicate ScannedAt(net: Net, s: Search, x: Node) {
    x in s.dis && forall y :: Up(net.links, x, y) ==> y in s.dis && s.dis[y] <= s.dis[x] + 1
  }

  ghost predicate Scanned(net: Net, s: Search, processed: set<Node>) {
    forall x {:trigger ScannedAt(net, s, x)} :: x in processed ==> ScannedAt(net, s, x)
  }

  ghost predicate Within(s: Search, d: nat) {
    forall x :: x in s.dis ==> s.dis[x] <= d
  }

  ghost predicate IsStep(net: Net, s: Search, x: Node, v: Node) {
    x in s.dis && v in s.dis && Up(net.links, x, v) && s.dis[x] + 1 == s.dis[v]
  }

  /** The hops of v: the processed nodes one step before it, and `now` once v is
      no longer among the neighbours still to do. */
  ghost predicate HopsAt(net: Net, s: Search, processed: set<Node>, now: Node, todo: set<Node>, v: Node) {
    && NoRepeats(HopsTo(s, v))
    && forall x :: x in HopsTo(s, v) <==> (x in processed || (x == now && v !in todo)) && IsStep(net, s, x, v)
  }

  ghost predicate HopsAre(net: Net, s: Search, processed: set<Node>, now: Node, todo: set<Node>) {
    forall v {:trigger HopsAt(net, s, processed, now, todo, v)} :: HopsAt(net, s, processed, now, todo, v)
  }

  /** A neighbour seen for the first time; only switches are put on the queue. */
  function Discover(net: Net, s: Search, now: Node, next: Node): Search
    requires now in s.dis && now in s.delay && now in s.txDelay && now in s.bw
    requires Up(net.links, now, next) && net.links[now][next].bw > 0
  {
    var link := net.links[now][next];
    Search(
      if next in net.switches then s.q + [next] else s.q,
      s.dis[next := s.dis[now] + 1],
      s.delay[next := Add64(s.delay[now], link.delay)],
      s.txDelay[next := Add64(s.txDelay[now], TxTime(net.payload, link.bw))],
      s.bw[next := Min(s.bw[now], link.bw)],
      s.hops)
  }

  function PushHop(s: Search, next: Node, now: Node): Search {
    s.(hops := s.hops[next := HopsTo(s, next) + [now]])
  }

  lemma DiscoverRecords(net: Net, host: Node, s: Search, via: map<Node, seq<Node>>, now: Node, next: Node)
    requires Usable(net.links) && Recorded(net, host, s, via) && Queued(net, host, s)
    requires now in s.q && next !in s.dis && Up(net.links, now, next)
    ensures Recorded(net, host, Discover(net, s, now, next), via[next := via[now] + [next]])
  {
    var s' := Discover(net, s, now, next);
    var via' := via[next := via[now] + [next]];
    forall x | x in s'.dis
      ensures RecordedAt(net, host, s', via', x)
    {
      assert RecordedAt(net, host, s, via, now);
      if x == next {
        var p := via[now];
        assert (p + [next])[..|p|] == p;
        RouteExtends(net, host, now, next, p);
      } else {
        assert RecordedAt(net, host, s, via, x);
      }
    }
  }

  lemma DiscoverQueues(net: Net, host: Node, s: Search, now: Node, next: Node)
    requires Usable(net.links) && Queued(net, host, s) && host in s.dis
    requires s.dis.Keys == s.delay.Keys == s.txDelay.Keys == s.bw.Keys
    requires now in s.q && next !in s.dis && Up(net.links, now, next)
    requires Within(s, s.dis[now] + 1)
    ensures Queued(net, host, Discover(net, s, now, next))
    ensures Within(Discover(net, s, now, next), s.dis[now] + 1)
  {
    var s' := Discover(net, s, now, next);
    if next in net.switches {
      NoRepeatsAppend(s.q, next);
    }
    forall i | 0 <= i < |s'.q| - 1
      ensures InOrder(s', i)
    {
      assert s.q[i] in s.q;
      if i < |s.q| - 1 {
        assert InOrder(s, i);
        assert s.q[i + 1] in s.q;
      }
    }
  }

  /** Discovering a node changes no recorded hop: nothing already processed leads to it. */
  lemma DiscoverKeepsHops(net: Net, s: Search, processed: set<Node>, now: Node, todo: set<Node>, next: Node)
    requires now in s.dis && now in s.delay && now in s.txDelay && now in s.bw
    requires next !in s.dis && next in todo && Up(net.links, now, next) && net.links[now][next].bw > 0
    requires Scanned(net, s, processed)
    requires HopsAre(net, s, processed, now, todo)
    ensures Scanned(net, Discover(net, s, now, next), processed)
    ensures HopsAre(net, Discover(net, s, now, next), processed, now, todo)
  {
    var s' := Discover(net, s, now, next);
    forall x | x in processed
      ensures ScannedAt(net, s', x) && ScannedAt(net, s, x)
    {
      assert ScannedAt(net, s, x);
    }
    forall v
      ensures HopsAt(net, s', processed, now, todo, v)
    {
      assert HopsAt(net, s, processed, now, todo, v);
      forall x
        ensures x in HopsTo(s', v) <==> (x in processed || (x == now && v !in todo)) && IsStep(net, s', x, v)
      {
        if x in processed {
          assert ScannedAt(net, s, x);
        }
      }
    }
  }

  /** `next` is done with: `now` has become one of its hops exactly if it is one step before. */
  lemma NeighbourDone(net: Net, s: Search, processed: set<Node>, now: Node, todo: set<Node>, next: Node)
    requires now in s.dis && now !in processed && next in todo
    requires Up(net.links, now, next) ==> next in s.dis
    requires HopsAre(net, s, processed, now, todo)
    ensures HopsAre(net, if IsStep(net, s, now, next) then PushHop(s, next, now) else s, processed, now, todo - {next})
  {
    var s' := if IsStep(net, s, now, next) then PushHop(s, next, now) else s;
    forall v
      ensures HopsAt(net, s', processed, now, todo - {next}, v)
    {
      assert HopsAt(net, s, processed, now, todo, v);
      if v == next && IsStep(net, s, now, next) {
        NoRepeatsAppend(HopsTo(s, v), now);
      }
    }
  }

  function Neighbours(links: Links, a: Node): set<Node> {
    if a in links then links[a].Keys else {}
  }

  /** Everything the search relies on while the neighbours of `now` are visited. */
  ghost predicate Searching(net: Net, host: Node, s: Search, via: map<Node, seq<Node>>,
                            processed: set<Node>, now: Node, todo: set<Node>) {
    && Recorded(net, host, s, via)
    && Queued(net, host, s)
    && Scanned(net, s, processed)
    && now in s.q && now !in processed
    && Within(s, s.dis[now] + 1)
    && (forall y :: Up(net.links, now, y) && y !in todo ==> y in s.dis)
    && HopsAre(net, s, processed, now, todo)
  }

  lemma VisitOne(net: Net, host: Node, s: Search, via: map<Node, seq<Node>>,
                 processed: set<Node>, now: Node, todo: set<Node>, next: Node)
    requires Usable(net.links) && Searching(net, host, s, via, processed, now, todo)
    requires next in todo
    ensures !Up(net.links, now, next) ==> Searching(net, host, s, via, processed, now, todo - {next})
    ensures Up(net.links, now, next) && next !in s.dis ==>
      Searching(net, host, Discover(net, s, now, next), via[next := via[now] + [next]], processed, now, todo)
    ensures Up(net.links, now, next) && next in s.dis ==>
      Searching(net, host, if s.dis[now] + 1 == s.dis[next] then PushHop(s, next, now) else s,
                via, processed, now, todo - {next})
  {
    if Up(net.links, now, next) && next !in s.dis {
      DiscoverRecords(net, host, s, via, now, next);
      DiscoverQueues(net, host, s, now, next);
      DiscoverKeepsHops(net, s, processed, now, todo, next);
    } else {
      NeighbourDone(net, s, processed, now, todo, next);
      var s' := if IsStep(net, s, now, next) then PushHop(s, next, now) else s;
      HopsDoNotMatter(net, host, s, s', via, processed);
    }
  }

  lemma HopsDoNotMatter(net: Net, host: Node, s: Search, s': Search, via: map<Node, seq<Node>>, processed: set<Node>)
    requires s' == s.(hops := s'.hops)
    requires Recorded(net, host, s, via) && Queued(net, host, s) && Scanned(net, s, processed)
    ensures Recorded(net, host, s', via) && Queued(net, host, s') && Scanned(net, s', processed)
  {
    forall x | x in s'.dis
      ensures RecordedAt(net, host, s', via, x)
    {
      assert RecordedAt(net, host, s, via, x);
    }
    forall i | 0 <= i < |s'.q| - 1
      ensures InOrder(s', i)
    {
      assert InOrder(s, i);
    }
    forall x | x in processed
      ensures ScannedAt(net, s', x)
    {
      assert ScannedAt(net, s, x);
    }
  }

  /** The inner loop: every neighbour of `now`, in whatever order the map yields them. */
  method ScanNeighbours(net: Net, host: Node, s0: Search, ghost via0: map<Node, seq<Node>>,
                        ghost processed: set<Node>, now: Node)
    returns (s: Search, ghost via: map<Node, seq<Node>>)
    requires Usable(net.links)
    requires Searching(net, host, s0, via0, processed, now, Neighbours(net.links, now))
    ensures Searching(net, host, s, via, processed, now, {})
    ensures s0.q <= s.q
  {
    s, via := s0, via0;
    var todo := Neighbours(net.links, now);
    while todo != {}
      invariant todo <= Neighbours(net.links, now)
      invariant Searching(net, host, s, via, processed, now, todo)
      invariant s0.q <= s.q
    {
      var next :| next in todo;
      VisitOne(net, host, s, via, processed, now, todo, next);
      if net.links[now][next].up {
        if next !in s.dis {
          s, via := Discover(net, s, now, next), via[next := via[now] + [next]];
          VisitOne(net, host, s, via, processed, now, todo, next);
        }
        if s.dis[now] + 1 == s.dis[next] {
          s := PushHop(s, next, now);
        }
      }
      todo := todo - {next};
    }
  }

  ghost predicate HopsFromAt(net: Net, s: Search, processed: set<Node>, v: Node) {
    NoRepeats(HopsTo(s, v)) && forall x :: x in HopsTo(s, v) <==> x in processed && IsStep(net, s, x, v)
  }

  ghost predicate HopsFrom(net: Net, s: Search, processed: set<Node>) {
    forall v {:trigger HopsFromAt(net, s, processed, v)} :: HopsFromAt(net, s, processed, v)
  }

  function Universe(net: Net, host: Node): set<Node> {
    {host} + set a, b | a in net.links && b in net.links[a] :: b
  }

  lemma QueueIsBounded(net: Net, host: Node, s: Search, via: map<Node, seq<Node>>)
    requires Recorded(net, host, s, via) && Queued(net, host, s)
    ensures |s.q| <= |Universe(net, host)|
  {
    forall k | 0 <= k < |s.q|
      ensures s.q[k] in Universe(net, host)
    {
      var x := s.q[k];
      assert x in s.q && RecordedAt(net, host, s, via, x);
      if |via[x]| > 1 {
        RoutePrefix(net, host, x, via[x], |via[x]| - 1);
      }
    }
    NoRepeatsIsDistinct(s.q);
    DistinctBound(s.q, Universe(net, host));
  }

  /** Between two rounds of the outer loop nothing is half done. */
  ghost predicate BetweenRounds(net: Net, host: Node, s: Search, via: map<Node, seq<Node>>, i: nat) {
    && i <= |s.q|
    && Recorded(net, host, s, via)
    && Queued(net, host, s)
    && Scanned(net, s, ItemsOf(s.q[..i]))
    && (i < |s.q| ==> s.q[i] in s.dis && Within(s, s.dis[s.q[i]] + 1))
    && HopsFrom(net, s, ItemsOf(s.q[..i]))
  }

  lemma BeginRound(net: Net, host: Node, s: Search, via: map<Node, seq<Node>>, i: nat)
    requires i < |s.q| && BetweenRounds(net, host, s, via, i)
    ensures Searching(net, host, s, via, ItemsOf(s.q[..i]), s.q[i], Neighbours(net.links, s.q[i]))
  {
    var processed, now, todo := ItemsOf(s.q[..i]), s.q[i], Neighbours(net.links, s.q[i]);
    NoRepeatsIsDistinct(s.q);
    forall v
      ensures HopsAt(net, s, processed, now, todo, v)
    {
      assert HopsFromAt(net, s, processed, v);
    }
  }

  lemma EndRound(net: Net, host: Node, q0: seq<Node>, s: Search, via: map<Node, seq<Node>>, i: nat)
    requires i < |q0| && q0 <= s.q
    requires Searching(net, host, s, via, ItemsOf(q0[..i]), q0[i], {})
    ensures BetweenRounds(net, host, s, via, i + 1)
  {
    var processed, now := ItemsOf(q0[..i]), q0[i];
    NextPrefix(q0, s.q, i);
    assert s.q[i] == now && ItemsOf(s.q[..i + 1]) == processed + {now};
    assert ScannedAt(net, s, now);
    forall v
      ensures HopsFromAt(net, s, processed + {now}, v)
    {
      assert HopsAt(net, s, processed, now, {}, v);
    }
    if i + 1 < |s.q| {
      assert InOrder(s, i);
    }
  }

  function Start(host: Node): Search {
    Search([host], map[host := 0], map[host := 0], map[host := 0], map[host := 0xffff_ffff_ffff_ffff], map[])
  }

  lemma StartIsBetweenRounds(net: Net, host: Node)
    ensures BetweenRounds(net, host, Start(host), map[host := [host]], 0)
  {
    var s := Start(host);
    assert RecordedAt(net, host, s, map[host := [host]], host);
    assert s.q[..0] == [];
  }

  ghost predicate Exhausted(net: Net, host: Node, s: Search, via: map<Node, seq<Node>>) {
    && Recorded(net, host, s, via)
    && Queued(net, host, s)
    && Scanned(net, s, ItemsOf(s.q))
    && HopsFrom(net, s, ItemsOf(s.q))
  }

  lemma NoRoundLeft(net: Net, host: Node, s: Search, via: map<Node, seq<Node>>)
    requires BetweenRounds(net, host, s, via, |s.q|)
    ensures Exhausted(net, host, s, via)
  {
    assert s.q[..|s.q|] == s.q;
  }

  /** The outer loop: the queue grows while it is indexed. */
  method Bfs(net: Net, host: Node) returns (s: Search, ghost via: map<Node, seq<Node>>)
    requires Usable(net.links)
    ensures Exhausted(net, host, s, via)
  {
    s := Start(host);
    via := map[host := [host]];
    StartIsBetweenRounds(net, host);
    var i := 0;
    while i < |s.q|
      invariant BetweenRounds(net, host, s, via, i)
      decreases |Universe(net, host)| - i
    {
      QueueIsBounded(net, host, s, via);
      BeginRound(net, host, s, via, i);
      ghost var q0 := s.q;
      s, via := ScanNeighbours(net, host, s, via, ItemsOf(s.q[..i]), s.q[i]);
      EndRound(net, host, q0, s, via, i);
      i := i + 1;
    }
    NoRoundLeft(net, host, s, via);
  }

  // ---------- what the search has computed ----------

  /** Distances are exactly the least hop counts, for exactly the reachable nodes. */
  ghost predicate DistancesRight(net: Net, host: Node, dis: map<Node, nat>) {
    forall v {:trigger DistanceRight(net, host, dis, v)} :: DistanceRight(net, host, dis, v)
  }

  ghost predicate DistanceRight(net: Net, host: Node, dis: map<Node, nat>, v: Node) {
    && (v in dis <==> Reachable(net, host, v))
    && (v in dis ==> Shortest(net, host, v, dis[v]))
  }

  /** The three costs of v are those of one and the same shortest route. */
  ghost predicate CostsRight(net: Net, host: Node, v: Node, c: Cost) {
    exists p :: IsShortestRoute(net, host, v, p) && PathCost(net, p) == c
  }

  ghost predicate CostsFound(net: Net, host: Node, s: Search, v: Node) {
    v in s.dis ==>
      && v in s.delay && v in s.txDelay && v in s.bw
      && CostsRight(net, host, v, Cost(s.delay[v], s.txDelay[v], s.bw[v]))
  }

  lemma {:induction false} RoutesAreNoShorter(net: Net, host: Node, s: Search, via: map<Node, seq<Node>>,
                                              v: Node, p: seq<Node>)
    requires Exhausted(net, host, s, via) && IsRoute(net, host, v, p)
    ensures v in s.dis && s.dis[v] + 1 <= |p|
  {
    if |p| > 1 {
      var n := |p| - 1;
      RoutePrefix(net, host, v, p, n);
      RoutesAreNoShorter(net, host, s, via, p[n - 1], p[..n]);
      assert p[n - 1] in s.q;
      assert ScannedAt(net, s, p[n - 1]);
    }
  }

  lemma SearchIsRight(net: Net, host: Node, s: Search, via: map<Node, seq<Node>>)
    requires Exhausted(net, host, s, via)
    ensures DistancesRight(net, host, s.dis)
    ensures s.dis.Keys == s.delay.Keys == s.txDelay.Keys == s.bw.Keys
    ensures forall v {:trigger CostsFound(net, host, s, v)} :: CostsFound(net, host, s, v)
  {
    forall v, p | IsRoute(net, host, v, p)
      ensures v in s.dis && s.dis[v] + 1 <= |p|
    {
      RoutesAreNoShorter(net, host, s, via, v, p);
    }
    forall v
      ensures DistanceRight(net, host, s.dis, v)
      ensures CostsFound(net, host, s, v)
    {
      if v in s.dis {
        assert RecordedAt(net, host, s, via, v);
        assert IsShortestRoute(net, host, v, via[v]);
      }
    }
  }

  /** The list holds, once each, exactly the permitted next hops. */
  ghost predicate RowRight(net: Net, host: Node, v: Node, row: seq<Node>) {
    NoRepeats(row) && forall x :: x in row <==> IsNextHop(net, host, v, x)
  }

  lemma StepIsNextHop(net: Net, host: Node, s: Search, v: Node, x: Node)
    requires Symmetric(net.links) && DistancesRight(net, host, s.dis) && Queued(net, host, s)
    ensures x in s.q && IsStep(net, s, x, v) <==> IsNextHop(net, host, v, x)
  {
    assert DistanceRight(net, host, s.dis, x) && DistanceRight(net, host, s.dis, v);
    if IsNextHop(net, host, v, x) {
      var d: nat :| Shortest(net, host, x, d) && Shortest(net, host, v, d + 1);
      assert Reachable(net, host, x) && Reachable(net, host, v);
      ShortestUnique(net, host, x, d, s.dis[x]);
      ShortestUnique(net, host, v, d + 1, s.dis[v]);
    }
  }

  lemma HopsAreNextHops(net: Net, host: Node, s: Search, v: Node)
    requires Symmetric(net.links) && DistancesRight(net, host, s.dis) && Queued(net, host, s)
    requires HopsFromAt(net, s, ItemsOf(s.q), v)
    ensures RowRight(net, host, v, HopsTo(s, v))
  {
    forall x
      ensures x in HopsTo(s, v) <==> IsNextHop(net, host, v, x)
    {
      StepIsNextHop(net, host, s, v, x);
    }
  }

  lemma RowsAreRight(net: Net, host: Node, s: Search)
    requires Symmetric(net.links) && DistancesRight(net, host, s.dis) && Queued(net, host, s)
    requires HopsFrom(net, s, ItemsOf(s.q))
    ensures forall v {:trigger RowRight(net, host, v, HopsTo(s, v))} :: RowRight(net, host, v, HopsTo(s, v))
  {
    forall v
      ensures RowRight(net, host, v, HopsTo(s, v))
    {
      assert HopsFromAt(net, s, ItemsOf(s.q), v);
      HopsAreNextHops(net, host, s, v);
    }
  }

  /** The outcome of a search, in terms of the network alone. */
  ghost predicate Routed(net: Net, host: Node, s: Search) {
    && DistancesRight(net, host, s.dis)
    && s.dis.Keys == s.delay.Keys == s.txDelay.Keys == s.bw.Keys
    && (forall v {:trigger CostsFound(net, host, s, v)} :: CostsFound(net, host, s, v))
    && forall v {:trigger RowRight(net, host, v, HopsTo(s, v))} :: RowRight(net, host, v, HopsTo(s, v))
  }

  lemma SearchIsRouted(net: Net, host: Node, s: Search, via: map<Node, seq<Node>>)
    requires Symmetric(net.links)
    requires Exhausted(net, host, s, via)
    ensures Routed(net, host, s)
  {
    SearchIsRight(net, host, s, via);
    RowsAreRight(net, host, s);
  }

  /** Some shortest route has the three values as its costs, link by link. */
  ghost predicate Explained(net: Net, host: Node, v: Node, delay: nat, txDelay: nat, bw: nat)
    requires Usable(net.links)
  {
    exists p :: RouteCosts(net, host, v, p, delay, txDelay, bw)
  }

  lemma CostsAreExplained(net: Net, host: Node, v: Node, c: Cost)
    requires Usable(net.links) && CostsRight(net, host, v, c)
    ensures Explained(net, host, v, c.delay, c.txDelay, c.bw)
  {
    var p :| IsShortestRoute(net, host, v, p) && PathCost(net, p) == c;
    PathCostIsPlain(net, p);
    assert RouteCosts(net, host, v, p, c.delay, c.txDelay, c.bw);
  }

  ghost predicate ExplainedAt(net: Net, host: Node, s: Search, v: Node)
    requires Usable(net.links)
    requires s.dis.Keys == s.delay.Keys == s.txDelay.Keys == s.bw.Keys
  {
    && (v in s.dis <==> Reachable(net, host, v))
    && (v in s.dis ==> Explained(net, host, v, s.delay[v], s.txDelay[v], s.bw[v]))
  }

  lemma SearchIsExplained(net: Net, host: Node, s: Search, v: Node)
    requires Usable(net.links) && Routed(net, host, s)
    ensures ExplainedAt(net, host, s, v)
  {
    assert DistanceRight(net, host, s.dis, v) && CostsFound(net, host, s, v);
    if v in s.dis {
      CostsAreExplained(net, host, v, Cost(s.delay[v], s.txDelay[v], s.bw[v]));
    }
  }

  method SearchFrom(net: Net, host: Node) returns (s: Search)
    requires Usable(net.links) && Symmetric(net.links)
    ensures Routed(net, host, s)
    ensures forall v {:trigger ExplainedAt(net, host, s, v)} :: ExplainedAt(net, host, s, v)
  {
    ghost var via;
    s, via := Bfs(net, host);
    SearchIsRouted(net, host, s, via);
    forall v
      ensures ExplainedAt(net, host, s, v)
    {
      SearchIsExplained(net, host, s, v);
    }
  }

  // ---------- all hosts, and the simulation's global tables ----------

  type Rows<V> = map<(Node, Node), V>

  /** A missing row of a table of lists reads as the empty list. */
  function Row<V>(m: Rows<seq<V>>, v: Node, host: Node): seq<V> {
    if (v, host) in m then m[(v, host)] else []
  }

  predicate IsDestination(nodes: seq<Node>, switches: set<Node>, host: Node) {
    host in nodes && host !in switches
  }

  /** nextHop holds the permitted next hops towards every host, and nothing else. */
  ghost predicate RoutesCurrent(net: Net, nodes: seq<Node>, nextHop: Rows<seq<Node>>) {
    forall v, host {:trigger Row(nextHop, v, host)} ::
      if IsDestination(nodes, net.switches, host)
      then RowRight(net, host, v, Row(nextHop, v, host))
      else Row(nextHop, v, host) == []
  }

  ghost predicate CostCurrent(net: Net, host: Node, v: Node, delay: Rows<nat>, txDelay: Rows<nat>, bw: Rows<nat>) {
    && (v, host) in delay && (v, host) in txDelay && (v, host) in bw
    && CostsRight(net, host, v, Cost(delay[(v, host)], txDelay[(v, host)], bw[(v, host)]))
  }

  /** Every reachable pair has its three costs recorded. */
  ghost predicate CostsCurrent(net: Net, nodes: seq<Node>, delay: Rows<nat>, txDelay: Rows<nat>, bw: Rows<nat>) {
    forall v, host {:trigger CostCurrent(net, host, v, delay, txDelay, bw)} ::
      IsDestination(nodes, net.switches, host) && Reachable(net, host, v) ==>
        CostCurrent(net, host, v, delay, txDelay, bw)
  }

  /** The recorded costs of a reachable destination are those of a shortest route, link by link. */
  lemma RecordedCosts(net: Net, nodes: seq<Node>, delay: Rows<nat>, txDelay: Rows<nat>, bw: Rows<nat>,
                      host: Node, v: Node)
    requires Usable(net.links) && CostsCurrent(net, nodes, delay, txDelay, bw)
    requires host in nodes && host !in net.switches && Reachable(net, host, v)
    ensures (v, host) in delay && (v, host) in txDelay && (v, host) in bw
    ensures Explained(net, host, v, delay[(v, host)], txDelay[(v, host)], bw[(v, host)])
  {
    assert CostCurrent(net, host, v, delay, txDelay, bw);
    CostsAreExplained(net, host, v, Cost(delay[(v, host)], txDelay[(v, host)], bw[(v, host)]));
  }

  /** The pushes of one search come after what the rows held before. */
  ghost predicate RowsAppended(before: Rows<seq<Node>>, after: Rows<seq<Node>>, host: Node, s: Search) {
    forall v, h {:trigger Row(after, v, h)} ::
      Row(after, v, h) == if h == host then Row(before, v, h) + HopsTo(s, v) else Row(before, v, h)
  }

  /** The entries (v, host) now hold the given values, and no other entry has changed. */
  ghost predicate Written(before: Rows<nat>, after: Rows<nat>, host: Node, values: map<Node, nat>) {
    forall v, h {:trigger (v, h) in after} ::
      && ((v, h) in after <==> (v, h) in before || (h == host && v in values))
      && ((v, h) in after ==> after[(v, h)] == if h == host && v in values then values[v] else before[(v, h)])
  }

  method WriteRows(before: Rows<nat>, host: Node, values: map<Node, nat>) returns (after: Rows<nat>)
    ensures Written(before, after, host, values)
  {
    after := before;
    var keys := values.Keys;
    while keys != {}
      invariant keys <= values.Keys
      invariant Written(before, after, host, map v | v in values && v !in keys :: values[v])
    {
      var v :| v in keys;
      after := after[(v, host) := values[v]];
      keys := keys - {v};
    }
    assert (map v | v in values && v !in keys :: values[v]) == values;
  }

  lemma RowWritten<V>(m: Rows<seq<V>>, key: (Node, Node), row: seq<V>)
    ensures forall v, host {:trigger Row(m[key := row], v, host)} ::
      Row(m[key := row], v, host) == if (v, host) == key then row else Row(m, v, host)
  {
  }

  method AppendRows(before: Rows<seq<Node>>, host: Node, s: Search) returns (after: Rows<seq<Node>>)
    ensures RowsAppended(before, after, host, s)
  {
    after := before;
    var keys := s.hops.Keys;
    assert forall v, h {:trigger Row(before, v, h)} :: Row(before, v, h) + [] == Row(before, v, h);
    while keys != {}
      invariant keys <= s.hops.Keys
      invariant forall v, h {:trigger Row(after, v, h)} ::
        Row(after, v, h) == if h == host && v !in keys then Row(before, v, h) + HopsTo(s, v) else Row(before, v, h)
    {
      var v :| v in keys;
      RowWritten(after, (v, host), Row(after, v, host) + s.hops[v]);
      after := after[(v, host) := Row(after, v, host) + s.hops[v]];
      keys := keys - {v};
    }
  }

  /** The interface indices behind a list of next hops. */
  function Indices(links: Links, v: Node, hops: seq<Node>): seq<nat> {
    seq(|hops|, k requires 0 <= k < |hops| => LinkIndex(links, v, hops[k]))
  }

  function LinkIndex(links: Links, a: Node, b: Node): nat {
    if a in links && b in links[a] then links[a][b].idx else 0
  }

  /** The forwarding tables of the devices agree with nextHop. */
  ghost predicate TablesCurrent(links: Links, nextHop: Rows<seq<Node>>, tables: Rows<seq<nat>>) {
    forall v, host {:trigger Row(tables, v, host)} ::
      Row(tables, v, host) == Indices(links, v, Row(nextHop, v, host))
  }

  /** Asking for a missing interface creates one that is down. */
  function Touch(links: Links, a: Node, b: Node): Links {
    if a in links && b in links[a] then links
    else
      var row := if a in links then links[a] else map[];
      links[a := row[b := Interface(0, false, 0, 0)]]
  }

  function SetDown(links: Links, a: Node, b: Node): Links
    requires a in links && b in links[a]
  {
    links[a := links[a][b := links[a][b].(up := false)]]
  }

  /** The link state after a request to take down the link between a and b. */
  function LinkDown(links: Links, a: Node, b: Node): Links {
    if Up(links, a, b) then SetDown(Touch(SetDown(links, a, b), b, a), b, a) else Touch(links, a, b)
  }

  /** Taking a link down removes its two directions and touches nothing else. */
  lemma LinkDownEffect(links: Links, a: Node, b: Node)
    requires Symmetric(links) && Usable(links)
    ensures forall x, y :: Up(LinkDown(links, a, b), x, y) <==>
      Up(links, x, y) && (x, y) != (a, b) && (x, y) != (b, a)
    ensures Symmetric(LinkDown(links, a, b)) && Usable(LinkDown(links, a, b))
    ensures forall x, y :: Up(LinkDown(links, a, b), x, y) ==> LinkDown(links, a, b)[x][y] == links[x][y]
  {
  }
}
