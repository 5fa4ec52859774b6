/** The network as the routing code sees it, and what its shortest routes are:
    hop counts over up links that never pass through a host. */
module RouteGraph {

  type Node(==, !new)

  /** One direction of a link: interface index, state, delay and bandwidth. */
  datatype Interface = Interface(idx: nat, up: bool, delay: nat, bw: nat)

  type Links = map<Node, map<Node, Interface>>

  /** `switches` are the nodes of type 1; every other node is a host. */
  datatype Net = Net(links: Links, switches: set<Node>, payload: nat)

  predicate Up(links: Links, a: Node, b: Node) {
    a in links && b in links[a] && links[a][b].up
  }

  ghost predicate Symmetric(links: Links) {
    forall a, b :: Up(links, a, b) <==> Up(links, b, a)
  }

  /** The code divides by the bandwidth of every up link. */
  ghost predicate Usable(links: Links) {
    forall a, b :: Up(links, a, b) ==> links[a][b].bw > 0
  }

  predicate HopUp(net: Net, p: seq<Node>, i: nat)
    requires i + 1 < |p|
  {
    Up(net.links, p[i], p[i + 1])
  }

  /** A path from host to v over up links whose interior nodes are all switches. */
  ghost predicate IsRoute(net: Net, host: Node, v: Node, p: seq<Node>) {
    && |p| > 0 && p[0] == host && p[|p| - 1] == v
    && (forall i :: 0 <= i < |p| - 1 ==> HopUp(net, p, i))
    && forall i :: 0 < i < |p| - 1 ==> p[i] in net.switches
  }

  ghost predicate Reachable(net: Net, host: Node, v: Node) {
    exists p :: IsRoute(net, host, v, p)
  }

  /** d is the least number of hops of any route from host to v. */
  ghost predicate Shortest(net: Net, host: Node, v: Node, d: nat) {
    && (exists p :: IsRoute(net, host, v, p) && |p| == d + 1)
    && forall p :: IsRoute(net, host, v, p) ==> |p| >= d + 1
  }

  ghost predicate IsShortestRoute(net: Net, host: Node, v: Node, p: seq<Node>) {
    IsRoute(net, host, v, p) && forall p' :: IsRoute(net, host, v, p') ==> |p'| >= |p|
  }

  lemma ShortestUnique(net: Net, host: Node, v: Node, d: nat, d': nat)
    requires Shortest(net, host, v, d) && Shortest(net, host, v, d')
    ensures d == d'
  {
  }

  lemma {:induction false} ReachableHasDistance(net: Net, host: Node, v: Node, p: seq<Node>) returns (d: nat)
    requires IsRoute(net, host, v, p)
    ensures Shortest(net, host, v, d) && d < |p|
    decreases |p|
  {
    if q :| IsRoute(net, host, v, q) && |q| < |p| {
      d := ReachableHasDistance(net, host, v, q);
    } else {
      d := |p| - 1;
    }
  }

  lemma RoutePrefix(net: Net, host: Node, v: Node, p: seq<Node>, n: nat)
    requires IsRoute(net, host, v, p) && 0 < n <= |p|
    ensures IsRoute(net, host, p[n - 1], p[..n])
    ensures n < |p| ==> Up(net.links, p[n - 1], p[n])
    ensures 1 < n < |p| ==> p[n - 1] in net.switches
  {
    forall i | 0 <= i < n - 1
      ensures HopUp(net, p[..n], i)
    {
      assert HopUp(net, p, i);
    }
    if n < |p| {
      assert HopUp(net, p, n - 1);
    }
  }

  /** A route may be continued from the host itself or from a switch. */
  lemma RouteExtends(net: Net, host: Node, u: Node, v: Node, p: seq<Node>)
    requires IsRoute(net, host, u, p) && Up(net.links, u, v)
    requires |p| == 1 || u in net.switches
    ensures IsRoute(net, host, v, p + [v])
  {
    var q := p + [v];
    forall i | 0 <= i < |q| - 1
      ensures HopUp(net, q, i)
    {
      assert i < |p| - 1 ==> HopUp(net, p, i);
    }
  }

  // ---------- what a path costs ----------

  const TWO64: nat := 0x1_0000_0000_0000_0000

  function Add64(a: nat, b: nat): nat {
    (a + b) % TWO64
  }

  /** Nanoseconds to send one packet, in unsigned 64-bit arithmetic. */
  function TxTime(payload: nat, bw: nat): nat
    requires bw > 0
  {
    (payload * 1000000000 % TWO64 * 8 % TWO64) / bw
  }

  function Min(a: nat, b: nat): nat {
    if b < a then b else a
  }

  datatype Cost = Cost(delay: nat, txDelay: nat, bw: nat)

  /** The cost of the empty path: no delay, and the largest 64-bit bandwidth. */
  const FREE: Cost := Cost(0, 0, 0xffff_ffff_ffff_ffff)

  function AddLink(c: Cost, link: Interface, payload: nat): Cost
    requires link.bw > 0
  {
    Cost(Add64(c.delay, link.delay), Add64(c.txDelay, TxTime(payload, link.bw)), Min(c.bw, link.bw))
  }

  /** Sum of delays, sum of transmission times and least bandwidth along one path. */
  ghost function PathCost(net: Net, p: seq<Node>): Cost {
    if |p| <= 1 then FREE
    else
      var n := |p| - 1;
      var front := PathCost(net, p[..n]);
      if Up(net.links, p[n - 1], p[n]) && net.links[p[n - 1]][p[n]].bw > 0
      then AddLink(front, net.links[p[n - 1]][p[n]], net.payload)
      else front
  }

  // ---------- what a route costs, link by link ----------

  ghost predicate AllUp(net: Net, p: seq<Node>) {
    |p| > 0 && forall i :: 0 <= i < |p| - 1 ==> HopUp(net, p, i)
  }

  /** The links of a path of up links, the first one first. */
  ghost function LinksAlong(net: Net, p: seq<Node>): (links: seq<Interface>)
    requires Usable(net.links) && AllUp(net, p)
    ensures |links| == |p| - 1 && forall link :: link in links ==> link.bw > 0
  {
    var hops := seq(|p| - 1, i requires 0 <= i < |p| - 1 && HopUp(net, p, i) => net.links[p[i]][p[i + 1]]);
    assert forall i :: 0 <= i < |hops| ==> HopUp(net, p, i) && hops[i].bw > 0;
    hops
  }

  const LARGEST: nat := 0xffff_ffff_ffff_ffff

  function Sum(xs: seq<nat>): nat {
    if xs == [] then 0 else Sum(xs[..|xs| - 1]) + xs[|xs| - 1]
  }

  function Delays(links: seq<Interface>): seq<nat> {
    seq(|links|, i requires 0 <= i < |links| => links[i].delay)
  }

  /** Nanoseconds to send one packet on each link in turn; `bits` is its size in bits, times 10^9. */
  function SendTimes(links: seq<Interface>, bits: nat): seq<nat>
    requires forall link :: link in links ==> link.bw > 0
  {
    seq(|links|, i requires 0 <= i < |links| => bits / links[i].bw)
  }

  /** `bw` is the bandwidth of one of the links and at most that of each; the largest 64-bit
      number is a bound of its own, which is the answer when there is no link. */
  ghost predicate IsBottleneck(links: seq<Interface>, bw: nat) {
    && (forall link :: link in links ==> bw <= link.bw)
    && if forall link :: link in links ==> link.bw > LARGEST then bw == LARGEST
       else exists link :: link in links && bw == link.bw
  }

  /** Delay and transmission delay are plain sums along the links, in 64 bits; the bandwidth
      is the least one. */
  ghost predicate CostsOf(links: seq<Interface>, payload: nat, delay: nat, txDelay: nat, bw: nat)
    requires forall link :: link in links ==> link.bw > 0
  {
    && delay == Sum(Delays(links)) % 0x1_0000_0000_0000_0000
    && txDelay == Sum(SendTimes(links, payload * 8000000000 % 0x1_0000_0000_0000_0000)) % 0x1_0000_0000_0000_0000
    && IsBottleneck(links, bw)
  }

  ghost predicate RouteCosts(net: Net, host: Node, v: Node, p: seq<Node>, delay: nat, txDelay: nat, bw: nat)
    requires Usable(net.links)
  {
    && IsShortestRoute(net, host, v, p)
    && CostsOf(LinksAlong(net, p), net.payload, delay, txDelay, bw)
  }

  lemma Modulo(a: nat, b: nat)
    ensures (a % TWO64 + b) % TWO64 == (a + b) % TWO64
  {
  }

  lemma EightTimes(payload: nat)
    ensures payload * 1000000000 % TWO64 * 8 % TWO64 == payload * 8000000000 % TWO64
  {
    var x := payload * 1000000000;
    assert x * 8 == x / TWO64 * 8 * TWO64 + x % TWO64 * 8;
  }

  lemma SumNext(xs: seq<nat>, x: nat)
    ensures Sum(xs + [x]) == Sum(xs) + x
  {
    assert (xs + [x])[..|xs|] == xs;
  }

  lemma CostsNext(links: seq<Interface>, link: Interface, payload: nat, c: Cost)
    requires (forall l :: l in links ==> l.bw > 0) && link.bw > 0
    requires CostsOf(links, payload, c.delay, c.txDelay, c.bw)
    ensures var c' := AddLink(c, link, payload);
      CostsOf(links + [link], payload, c'.delay, c'.txDelay, c'.bw)
  {
    var bits := payload * 8000000000 % TWO64;
    assert Delays(links + [link]) == Delays(links) + [link.delay];
    SumNext(Delays(links), link.delay);
    Modulo(Sum(Delays(links)), link.delay);
    assert SendTimes(links + [link], bits) == SendTimes(links, bits) + [bits / link.bw];
    SumNext(SendTimes(links, bits), bits / link.bw);
    Modulo(Sum(SendTimes(links, bits)), bits / link.bw);
    EightTimes(payload);
  }

  /** What the search adds up hop by hop are the sums and the minimum over the whole path. */
  lemma {:induction false} PathCostIsPlain(net: Net, p: seq<Node>)
    requires Usable(net.links) && AllUp(net, p)
    ensures var c := PathCost(net, p);
      CostsOf(LinksAlong(net, p), net.payload, c.delay, c.txDelay, c.bw)
  {
    if |p| > 1 {
      var n := |p| - 1;
      assert HopUp(net, p, n - 1);
      forall i | 0 <= i < n - 1
        ensures HopUp(net, p[..n], i)
      {
        assert HopUp(net, p, i);
      }
      PathCostIsPlain(net, p[..n]);
      var link := net.links[p[n - 1]][p[n]];
      assert LinksAlong(net, p) == LinksAlong(net, p[..n]) + [link];
      CostsNext(LinksAlong(net, p[..n]), link, net.payload, PathCost(net, p[..n]));
    }
  }

  // ---------- next hops and what following them does ----------

  /** x may be the next hop from v: an up link away, the host itself or a switch,
      and one hop closer. */
  ghost predicate IsNextHop(net: Net, host: Node, v: Node, x: Node) {
    && Up(net.links, v, x)
    && (x == host || x in net.switches)
    && exists d: nat :: Shortest(net, host, x, d) && Shortest(net, host, v, d + 1)
  }

  ghost predicate CanForward(net: Net, host: Node, v: Node) {
    exists x :: IsNextHop(net, host, v, x)
  }

  /** w is what a packet may do that is forwarded from w[0] towards the host. */
  ghost predicate Forwarded(net: Net, host: Node, w: seq<Node>) {
    && |w| > 0
    && forall i :: 0 <= i < |w| - 1 ==> NextHopAt(net, host, w, i)
  }

  ghost predicate NextHopAt(net: Net, host: Node, w: seq<Node>, i: nat)
    requires i + 1 < |w|
  {
    IsNextHop(net, host, w[i], w[i + 1])
  }

  /** Each hop comes exactly one closer. */
  lemma {:induction false} ForwardingCountsDown(net: Net, host: Node, w: seq<Node>, d: nat, i: nat)
    requires Forwarded(net, host, w) && Shortest(net, host, w[0], d) && i < |w|
    ensures i <= d && Shortest(net, host, w[i], d - i)
  {
    if i > 0 {
      ForwardingCountsDown(net, host, w, d, i - 1);
      assert NextHopAt(net, host, w, i - 1);
      var d': nat :| Shortest(net, host, w[i], d') && Shortest(net, host, w[i - 1], d' + 1);
      ShortestUnique(net, host, w[i - 1], d' + 1, d - (i - 1));
    }
  }

  lemma OnlyHostAtZero(net: Net, host: Node, v: Node)
    ensures Shortest(net, host, v, 0) <==> v == host
  {
    assert IsRoute(net, host, host, [host]);
  }

  /** A node that is d + 1 hops away has somewhere to forward to. */
  lemma NextHopExists(net: Net, host: Node, v: Node, d: nat)
    requires Symmetric(net.links) && Shortest(net, host, v, d + 1)
    ensures CanForward(net, host, v)
  {
    var p :| IsRoute(net, host, v, p) && |p| == d + 2;
    RoutePrefix(net, host, v, p, d + 1);
    var x := p[d];
    assert Shortest(net, host, x, d) by {
      forall q | IsRoute(net, host, x, q)
        ensures |q| >= d + 1
      {
        if |q| < d + 1 {
          RouteExtends(net, host, x, v, q);
        }
      }
    }
    assert IsNextHop(net, host, v, x);
  }

  /** Whatever next hops are chosen, a packet that can still be forwarded is not at
      the host, one that cannot is, and it gets there in exactly its distance. */
  lemma ForwardingArrives(net: Net, host: Node, w: seq<Node>, d: nat)
    requires Symmetric(net.links)
    requires Forwarded(net, host, w) && Shortest(net, host, w[0], d)
    ensures |w| <= d + 1
    ensures w[|w| - 1] == host <==> |w| == d + 1
    ensures w[|w| - 1] != host <==> CanForward(net, host, w[|w| - 1])
  {
    var n := |w| - 1;
    ForwardingCountsDown(net, host, w, d, n);
    OnlyHostAtZero(net, host, w[n]);
    if d - n > 0 {
      NextHopExists(net, host, w[n], d - n - 1);
    }
  }

  /** Forwarding never visits a node twice, passes only through switches and
      uses only up links. */
  lemma ForwardingIsLoopFree(net: Net, host: Node, w: seq<Node>, d: nat)
    requires Forwarded(net, host, w) && Shortest(net, host, w[0], d)
    ensures forall i, j :: 0 <= i < j < |w| ==> w[i] != w[j]
    ensures forall i :: 0 < i < |w| - 1 ==> w[i] in net.switches
    ensures forall i :: 0 <= i < |w| - 1 ==> HopUp(net, w, i)
  {
    forall i, j | 0 <= i < j < |w|
      ensures w[i] != w[j]
    {
      ForwardingCountsDown(net, host, w, d, i);
      ForwardingCountsDown(net, host, w, d, j);
    }
    forall i | 0 <= i < |w| - 1
      ensures HopUp(net, w, i)
      ensures 0 < i ==> w[i] in net.switches
    {
      assert NextHopAt(net, host, w, i);
      if 0 < i {
        assert NextHopAt(net, host, w, i - 1);
        ForwardingCountsDown(net, host, w, d, i);
        ForwardingCountsDown(net, host, w, d, i + 1);
        OnlyHostAtZero(net, host, w[i]);
      }
    }
  }
}
