/** Replay of a port's packet queue for the provenance graph: a fair merge of the
    flows, counts of who waited behind whom, and the degrees derived from them. */
module PacketQueue {
  import opened Powers
  import opened Lists

  // ---------- the fair merge ----------

  /** How many packets of a flow the list holds. */
  function Packets(list: seq<nat>, flow: nat): nat {
    Count<nat>(list, flow)
  }

  predicate AllPositive(nums: seq<nat>) {
    forall i :: 0 <= i < |nums| ==> nums[i] > 0
  }

  /** ptr_i / n_i <= ptr_j / n_j, cross-multiplied. */
  predicate NotAhead(ptrs: seq<nat>, nums: seq<nat>, i: nat, j: nat)
    requires i < |ptrs| == |nums| && j < |nums|
  {
    ptrs[i] * nums[j] <= ptrs[j] * nums[i]
  }

  ghost predicate Least(ptrs: seq<nat>, nums: seq<nat>, m: nat)
    requires m < |ptrs| == |nums|
  {
    forall j {:trigger NotAhead(ptrs, nums, m, j)} :: 0 <= j < |nums| ==> NotAhead(ptrs, nums, m, j)
  }

  lemma NotAheadTransitive(ptrs: seq<nat>, nums: seq<nat>, i: nat, j: nat, k: nat)
    requires |ptrs| == |nums| && AllPositive(nums) && i < |nums| && j < |nums| && k < |nums|
    requires NotAhead(ptrs, nums, i, j) && NotAhead(ptrs, nums, j, k)
    ensures NotAhead(ptrs, nums, i, k)
  {
    CrossTransitive(ptrs[i], nums[i], ptrs[j], nums[j], ptrs[k], nums[k]);
  }

  lemma CrossTransitive(a: nat, m: nat, b: nat, n: nat, c: nat, o: nat)
    requires m > 0 && n > 0 && o > 0 && a * n <= b * m && b * o <= c * n
    ensures a * o <= c * m
  {
    assert (a * n) * o <= (b * m) * o;
    assert (b * o) * m <= (c * n) * m;
    assert (a * o) * n == (a * n) * o;
    assert (c * m) * n == (c * n) * m;
    Cancel(a * o, c * m, n);
  }

  lemma Cancel(x: nat, y: nat, n: nat)
    requires n > 0 && x * n <= y * n
    ensures x <= y
  {
    assert (y - x) * n >= 0;
  }

  /** The first flow whose share served is least. */
  method LeastServed(ptrs: seq<nat>, nums: seq<nat>) returns (m: nat)
    requires |ptrs| == |nums| > 0 && AllPositive(nums)
    ensures m < |nums| && Least(ptrs, nums, m)
    ensures forall j :: 0 <= j < m ==> !NotAhead(ptrs, nums, j, m)
  {
    m := 0;
    for i := 1 to |nums|
      invariant m < i
      invariant forall j {:trigger NotAhead(ptrs, nums, m, j)} :: 0 <= j < i ==> NotAhead(ptrs, nums, m, j)
      invariant forall j :: 0 <= j < m ==> !NotAhead(ptrs, nums, j, m)
    {
      if ptrs[i] * nums[m] < ptrs[m] * nums[i] {
        BetterLeast(ptrs, nums, m, i);
        m := i;
      }
    }
  }

  lemma BetterLeast(ptrs: seq<nat>, nums: seq<nat>, m: nat, i: nat)
    requires m < i < |ptrs| == |nums| && AllPositive(nums) && !NotAhead(ptrs, nums, m, i)
    requires forall j {:trigger NotAhead(ptrs, nums, m, j)} :: 0 <= j < i ==> NotAhead(ptrs, nums, m, j)
    ensures forall j {:trigger NotAhead(ptrs, nums, i, j)} :: 0 <= j <= i ==> NotAhead(ptrs, nums, i, j)
    ensures forall j :: 0 <= j < i ==> !NotAhead(ptrs, nums, j, i)
  {
    forall j | 0 <= j < i
      ensures NotAhead(ptrs, nums, i, j) && !NotAhead(ptrs, nums, j, i)
    {
      assert NotAhead(ptrs, nums, m, j);
      NotAheadTransitive(ptrs, nums, i, m, j);
      if NotAhead(ptrs, nums, j, i) {
        NotAheadTransitive(ptrs, nums, m, j, i);
      }
    }
  }

  /** After k packets no flow is more than one packet ahead of its share:
      (ptr_i - 1) / n_i <= ptr_j / n_j. */
  ghost predicate FairAt(list: seq<nat>, nums: seq<nat>, k: nat)
    requires k <= |list|
  {
    forall i, j {:trigger FairPair(list, nums, k, i, j)} :: 0 <= i < |nums| && 0 <= j < |nums| ==>
      FairPair(list, nums, k, i, j)
  }

  predicate FairPair(list: seq<nat>, nums: seq<nat>, k: nat, i: nat, j: nat)
    requires k <= |list| && i < |nums| && j < |nums|
  {
    (Packets(list[..k], i) - 1) * nums[j] <= Packets(list[..k], j) * nums[i]
  }

  ghost predicate Fair(list: seq<nat>, nums: seq<nat>) {
    forall k {:trigger FairAt(list, nums, k)} :: 0 <= k <= |list| ==> FairAt(list, nums, k)
  }

  ghost predicate PtrsCount(ptrs: seq<nat>, nums: seq<nat>, list: seq<nat>) {
    && |ptrs| == |nums|
    && forall i :: 0 <= i < |nums| ==> ptrs[i] == Packets(list, i) <= nums[i]
  }

  lemma PrefixStillFair(list: seq<nat>, nums: seq<nat>, m: nat, k: nat)
    requires k <= |list| && FairAt(list, nums, k)
    ensures FairAt(list + [m], nums, k)
  {
    assert (list + [m])[..k] == list[..k];
    forall i, j | 0 <= i < |nums| && 0 <= j < |nums|
      ensures FairPair(list + [m], nums, k, i, j)
    {
      assert FairPair(list, nums, k, i, j);
    }
  }

  lemma CountMore(list: seq<nat>, m: nat, i: nat)
    ensures Packets(list + [m], i) == Packets(list, i) + if i == m then 1 else 0
  {
    assert (list + [m])[..|list|] == list;
  }

  lemma PairStillFair(list: seq<nat>, nums: seq<nat>, ptrs: seq<nat>, m: nat, i: nat, j: nat)
    requires PtrsCount(ptrs, nums, list) && i < |nums| && j < |nums| && m < |nums|
    requires FairPair(list, nums, |list|, i, j) && NotAhead(ptrs, nums, m, j)
    ensures FairPair(list + [m], nums, |list| + 1, i, j)
  {
    assert list[..|list|] == list && (list + [m])[..|list| + 1] == list + [m];
    CountMore(list, m, i);
    CountMore(list, m, j);
    Products(Packets(list, j), Packets(list + [m], j), nums[i]);
  }

  lemma StillFair(list: seq<nat>, nums: seq<nat>, ptrs: seq<nat>, m: nat)
    requires PtrsCount(ptrs, nums, list) && Fair(list, nums)
    requires m < |nums| && Least(ptrs, nums, m)
    ensures Fair(list + [m], nums)
  {
    forall k | 0 <= k <= |list + [m]|
      ensures FairAt(list + [m], nums, k)
    {
      if k <= |list| {
        assert FairAt(list, nums, k);
        PrefixStillFair(list, nums, m, k);
      } else {
        assert FairAt(list, nums, |list|);
        forall i, j | 0 <= i < |nums| && 0 <= j < |nums|
          ensures FairPair(list + [m], nums, k, i, j)
        {
          assert FairPair(list, nums, |list|, i, j);
          assert NotAhead(ptrs, nums, m, j);
          PairStillFair(list, nums, ptrs, m, i, j);
        }
      }
    }
  }

  function Sum(nums: seq<nat>): nat {
    if nums == [] then 0 else Sum(nums[..|nums| - 1]) + nums[|nums| - 1]
  }

  lemma {:induction false} SumBound(a: seq<nat>, b: seq<nat>)
    requires |a| == |b| && forall i :: 0 <= i < |a| ==> a[i] <= b[i]
    ensures Sum(a) <= Sum(b)
  {
    if a != [] {
      SumBound(a[..|a| - 1], b[..|b| - 1]);
    }
  }

  lemma {:induction false} SumUpdate(a: seq<nat>, i: nat, x: nat)
    requires i < |a|
    ensures Sum(a[i := x]) == Sum(a) - a[i] + x
  {
    var n := |a| - 1;
    if i < n {
      SumUpdate(a[..n], i, x);
      assert a[i := x][..n] == a[..n][i := x];
    } else {
      assert a[i := x][..n] == a[..n];
    }
  }

  /** Flow i has no greater share of the packets in the list than flow j. */
  predicate NoMore(list: seq<nat>, nums: seq<nat>, i: nat, j: nat)
    requires i < |nums| && j < |nums|
  {
    Packets(list, i) * nums[j] <= Packets(list, j) * nums[i]
  }

  /** Flow m has the least share of the packets in the list, and no flow before it has as little. */
  ghost predicate FirstLeast(list: seq<nat>, nums: seq<nat>, m: nat) {
    && m < |nums|
    && (forall j {:trigger NoMore(list, nums, m, j)} :: 0 <= j < |nums| ==> NoMore(list, nums, m, j))
    && forall j {:trigger NoMore(list, nums, j, m)} :: 0 <= j < m ==> !NoMore(list, nums, j, m)
  }

  /** Every packet is from the flow whose turn it is. */
  ghost predicate InTurn(list: seq<nat>, nums: seq<nat>) {
    forall k {:trigger list[k]} :: 0 <= k < |list| ==> FirstLeast(list[..k], nums, list[k])
  }

  ghost predicate Complete(list: seq<nat>, nums: seq<nat>) {
    forall i :: 0 <= i < |nums| ==> Packets(list, i) == nums[i]
  }

  lemma LeastIsFirst(list: seq<nat>, nums: seq<nat>, ptrs: seq<nat>, m: nat)
    requires PtrsCount(ptrs, nums, list) && m < |nums| && Least(ptrs, nums, m)
    requires forall j :: 0 <= j < m ==> !NotAhead(ptrs, nums, j, m)
    ensures FirstLeast(list, nums, m)
  {
    forall j | 0 <= j < |nums|
      ensures NoMore(list, nums, m, j)
      ensures j < m ==> !NoMore(list, nums, j, m)
    {
      assert NotAhead(ptrs, nums, m, j);
      assert j < m ==> !NotAhead(ptrs, nums, j, m);
    }
  }

  lemma StillInTurn(list: seq<nat>, nums: seq<nat>, m: nat)
    requires InTurn(list, nums) && FirstLeast(list, nums, m)
    ensures InTurn(list + [m], nums)
  {
    forall k | 0 <= k < |list + [m]|
      ensures FirstLeast((list + [m])[..k], nums, (list + [m])[k])
    {
      assert (list + [m])[..k] == if k < |list| then list[..k] else list;
    }
  }

  lemma OneTurn(list: seq<nat>, nums: seq<nat>, m: nat, n: nat)
    requires FirstLeast(list, nums, m) && FirstLeast(list, nums, n)
    ensures m == n
  {
    assert NoMore(list, nums, m, n) && NoMore(list, nums, n, m);
  }

  lemma {:induction false} SameTurns(a: seq<nat>, b: seq<nat>, nums: seq<nat>, k: nat)
    requires InTurn(a, nums) && InTurn(b, nums) && k <= |a| && k <= |b|
    ensures a[..k] == b[..k]
  {
    if k > 0 {
      SameTurns(a, b, nums, k - 1);
      var m, n := a[k - 1], b[k - 1];
      assert FirstLeast(a[..k - 1], nums, m) && FirstLeast(b[..k - 1], nums, n);
      OneTurn(a[..k - 1], nums, m, n);
      assert a[..k] == a[..k - 1] + [m] && b[..k] == b[..k - 1] + [n];
    }
  }

  lemma LaterPacket(list: seq<nat>, k: nat)
    requires k < |list|
    ensures Packets(list[..k], list[k]) < Packets(list, list[k])
  {
    CountOfPrefix<nat>(list, k, list[k]);
  }

  lemma NoShorter(a: seq<nat>, b: seq<nat>, nums: seq<nat>)
    requires InTurn(a, nums) && InTurn(b, nums) && Complete(a, nums) && Complete(b, nums)
    ensures |b| <= |a|
  {
    if |a| < |b| {
      SameTurns(a, b, nums, |a|);
      assert FirstLeast(b[..|a|], nums, b[|a|]);
      assert a[..|a|] == a;
      LaterPacket(b, |a|);
      assert false;
    }
  }

  /** There is one complete merge in which every packet is from the flow whose turn it is. */
  lemma MergeIsDetermined(a: seq<nat>, b: seq<nat>, nums: seq<nat>)
    requires InTurn(a, nums) && InTurn(b, nums) && Complete(a, nums) && Complete(b, nums)
    ensures a == b
  {
    NoShorter(a, b, nums);
    NoShorter(b, a, nums);
    SameTurns(a, b, nums, |a|);
    assert a[..|a|] == a && b[..|a|] == b;
  }

  /** One packet more of the first least served flow. */
  lemma Served(list: seq<nat>, nums: seq<nat>, ptrs: seq<nat>, m: nat)
    requires PtrsCount(ptrs, nums, list) && Fair(list, nums) && InTurn(list, nums)
    requires m < |nums| && Least(ptrs, nums, m) && forall j :: 0 <= j < m ==> !NotAhead(ptrs, nums, j, m)
    requires ptrs[m] < nums[m]
    ensures PtrsCount(ptrs[m := ptrs[m] + 1], nums, list + [m])
    ensures Fair(list + [m], nums) && InTurn(list + [m], nums)
    ensures Sum(ptrs) < Sum(ptrs[m := ptrs[m] + 1]) <= Sum(nums)
  {
    StillFair(list, nums, ptrs, m);
    LeastIsFirst(list, nums, ptrs, m);
    StillInTurn(list, nums, m);
    SumUpdate(ptrs, m, ptrs[m] + 1);
    forall i | 0 <= i < |nums|
      ensures ptrs[m := ptrs[m] + 1][i] == Packets(list + [m], i) <= nums[i]
    {
      CountMore(list, m, i);
    }
    SumBound(ptrs[m := ptrs[m] + 1], nums);
  }

  /** Serve the least served flow until every flow has been served in full. */
  method Merge(nums: seq<nat>) returns (list: seq<nat>)
    requires nums != [] && AllPositive(nums)
    ensures forall k :: 0 <= k < |list| ==> list[k] < |nums|
    ensures Complete(list, nums)
    ensures InTurn(list, nums)
    ensures Fair(list, nums)
  {
    var ptrs: seq<nat> := seq(|nums|, _ => 0);
    list := [];
    NothingServed(nums);
    while true
      invariant PtrsCount(ptrs, nums, list)
      invariant forall k :: 0 <= k < |list| ==> list[k] < |nums|
      invariant InTurn(list, nums)
      invariant Fair(list, nums)
      decreases Sum(nums) - Sum(ptrs)
    {
      var m := LeastServed(ptrs, nums);
      if ptrs[m] >= nums[m] {
        AllServed(ptrs, nums, m);
        break;
      }
      Served(list, nums, ptrs, m);
      ptrs := ptrs[m := ptrs[m] + 1];
      list := list + [m];
    }
  }

  lemma NothingServed(nums: seq<nat>)
    ensures Fair([], nums)
  {
    var none: seq<nat> := [];
    forall k | 0 <= k <= |none|
      ensures FairAt(none, nums, k)
    {
    }
  }

  /** If even the least served flow is complete, all are. */
  lemma AllServed(ptrs: seq<nat>, nums: seq<nat>, m: nat)
    requires |ptrs| == |nums| && AllPositive(nums) && m < |nums|
    requires Least(ptrs, nums, m) && ptrs[m] >= nums[m]
    ensures forall i :: 0 <= i < |nums| ==> ptrs[i] >= nums[i]
  {
    forall i | 0 <= i < |nums|
      ensures ptrs[i] >= nums[i]
    {
      assert NotAhead(ptrs, nums, m, i);
      Products(nums[m], ptrs[m], nums[i]);
      Cancel(nums[i], ptrs[i], nums[m]);
    }
  }

  // ---------- who waits behind whom ----------

  /** The pairs of a packet of flow a and an earlier packet of flow b that is within
      a's queue depth of it. */
  ghost function WaitPairs(list: seq<nat>, depths: seq<int>, a: nat, b: nat): set<(int, int)>
    requires a < |depths|
  {
    set p, q | 0 <= p < |list| && 0 <= q < p && list[p] == a && list[q] == b && p - q <= depths[a] :: (p, q)
  }

  /** Those of them met before the i-th look-back from packet p. */
  ghost function MetPairs(list: seq<nat>, depths: seq<int>, a: nat, b: nat, p: nat, i: int): set<(int, int)>
    requires a < |depths|
  {
    set pq | pq in WaitPairs(list, depths, a, b) && (pq.0 < p || (pq.0 == p && pq.0 - pq.1 < i))
  }

  ghost predicate Counted(w: array2<nat>, list: seq<nat>, depths: seq<int>, p: nat, i: int)
    reads w
    requires w.Length0 == w.Length1 == |depths|
  {
    forall a, b {:trigger w[a, b]} :: 0 <= a < |depths| && 0 <= b < |depths| ==>
      w[a, b] == |MetPairs(list, depths, a, b, p, i)|
  }

  lemma MeetOne(list: seq<nat>, depths: seq<int>, p: nat, i: int, a: nat, b: nat)
    requires p < |list| && list[p] < |depths| && 1 <= i <= depths[list[p]] && i <= p
    requires a < |depths|
    ensures |MetPairs(list, depths, a, b, p, i + 1)| ==
      |MetPairs(list, depths, a, b, p, i)| + if a == list[p] && b == list[p - i] then 1 else 0
  {
    var more, met := MetPairs(list, depths, a, b, p, i + 1), MetPairs(list, depths, a, b, p, i);
    var one: (int, int) := (p, p - i);
    assert one in WaitPairs(list, depths, a, b) <==> a == list[p] && b == list[p - i];
    assert one !in met;
    forall pq
      ensures pq in more <==> pq in met || (pq == one && one in WaitPairs(list, depths, a, b))
    {
    }
    if one in WaitPairs(list, depths, a, b) {
      assert more == met + {one};
    } else {
      assert more == met;
    }
  }

  /** Looking further back from p than the queue depth or the start meets nothing more. */
  lemma MeetNone(list: seq<nat>, depths: seq<int>, p: nat, i: int, a: nat, b: nat)
    requires p < |list| && list[p] < |depths| && a < |depths| && 1 <= i
    requires i > p || i > depths[list[p]]
    ensures MetPairs(list, depths, a, b, p, i) == MetPairs(list, depths, a, b, p + 1, 1)
  {
  }

  /** From the end of one look-back to the start of the next. */
  lemma NextPacket(w: array2<nat>, list: seq<nat>, depths: seq<int>, p: nat, i: int)
    requires w.Length0 == w.Length1 == |depths|
    requires p < |list| && list[p] < |depths| && 1 <= i
    requires i > p || i > depths[list[p]]
    requires Counted(w, list, depths, p, i)
    ensures Counted(w, list, depths, p + 1, 1)
  {
    forall a, b {:trigger w[a, b]} | 0 <= a < |depths| && 0 <= b < |depths|
      ensures w[a, b] == |MetPairs(list, depths, a, b, p + 1, 1)|
    {
      MeetNone(list, depths, p, i, a, b);
    }
  }

  /** One look-back: the packet i places before p is met. */
  method LookBack(list: seq<nat>, depths: seq<int>, w: array2<nat>, p: nat, i: nat)
    requires w.Length0 == w.Length1 == |depths|
    requires p < |list| && list[p] < |depths| && 1 <= i <= depths[list[p]] && i <= p && list[p - i] < |depths|
    requires Counted(w, list, depths, p, i)
    modifies w
    ensures Counted(w, list, depths, p, i + 1)
  {
    w[list[p], list[p - i]] := w[list[p], list[p - i]] + 1;
    forall a, b {:trigger w[a, b]} | 0 <= a < |depths| && 0 <= b < |depths|
      ensures w[a, b] == |MetPairs(list, depths, a, b, p, i + 1)|
    {
      MeetOne(list, depths, p, i, a, b);
      assert old(w[a, b]) == |MetPairs(list, depths, a, b, p, i)|;
    }
  }

  lemma MeetStart(list: seq<nat>, depths: seq<int>, a: nat, b: nat)
    requires a < |depths|
    ensures MetPairs(list, depths, a, b, 0, 1) == {}
    ensures MetPairs(list, depths, a, b, |list|, 1) == WaitPairs(list, depths, a, b)
  {
  }

  ghost predicate WaitsCounted(w: array2<nat>, list: seq<nat>, depths: seq<int>)
    requires w.Length0 == w.Length1 == |depths|
    reads w
  {
    forall a, b :: 0 <= a < |depths| && 0 <= b < |depths| ==> w[a, b] == |WaitPairs(list, depths, a, b)|
  }

  /** The nested loops that fill the matrix in place. */
  method CountWaits(list: seq<nat>, depths: seq<int>, w: array2<nat>)
    requires w.Length0 == w.Length1 == |depths|
    requires forall k :: 0 <= k < |list| ==> list[k] < |depths|
    requires forall a, b :: 0 <= a < |depths| && 0 <= b < |depths| ==> w[a, b] == 0
    modifies w
    ensures WaitsCounted(w, list, depths)
  {
    StartsAtZero(list, depths, w);
    for p := 0 to |list|
      invariant Counted(w, list, depths, p, 1)
    {
      var depth := depths[list[p]];
      var i := 1;
      while i <= depth && p - i >= 0
        invariant 1 <= i <= p + 1
        invariant Counted(w, list, depths, p, i)
        decreases depth - i
      {
        LookBack(list, depths, w, p, i);
        i := i + 1;
      }
      NextPacket(w, list, depths, p, i);
    }
    EndsWithAll(list, depths, w);
  }

  lemma StartsAtZero(list: seq<nat>, depths: seq<int>, w: array2<nat>)
    requires w.Length0 == w.Length1 == |depths|
    requires forall a, b :: 0 <= a < |depths| && 0 <= b < |depths| ==> w[a, b] == 0
    ensures Counted(w, list, depths, 0, 1)
  {
    forall a, b {:trigger w[a, b]} | 0 <= a < |depths| && 0 <= b < |depths|
      ensures w[a, b] == |MetPairs(list, depths, a, b, 0, 1)|
    {
      MeetStart(list, depths, a, b);
    }
  }

  lemma EndsWithAll(list: seq<nat>, depths: seq<int>, w: array2<nat>)
    requires w.Length0 == w.Length1 == |depths| && Counted(w, list, depths, |list|, 1)
    ensures WaitsCounted(w, list, depths)
  {
    forall a, b {:trigger w[a, b]} | 0 <= a < |depths| && 0 <= b < |depths|
      ensures w[a, b] == |WaitPairs(list, depths, a, b)|
    {
      MeetStart(list, depths, a, b);
    }
  }

  // ---------- rounded weights, in tenths ----------

  function Gap(a: int, b: int): int {
    if a < b then b - a else a - b
  }

  /** How far t tenths are from count / n, times 10 n. */
  function Off(t: nat, count: nat, n: nat): int {
    Gap(t * n, 10 * count)
  }

  /** t tenths are at most half a tenth away from count / n. */
  predicate IsRounded(t: nat, count: nat, n: nat) {
    2 * Off(t, count, n) <= n
  }

  /** The quotient is rounded to a nearest tenth. A quotient halfway between two goes either way: its
      binary value, which is the one rounded, may be above or below it. */
  method Round(count: nat, n: nat) returns (t: nat)
    requires n > 0
    ensures IsRounded(t, count, n)
  {
    var q, r := 10 * count / n, 10 * count % n;
    DivMod(10 * count, n);
    MulStep(q, n);
    var up: bool := *;
    t := if 2 * r > n || (2 * r == n && up) then q + 1 else q;
  }

  /** To be rounded is to be as near as any number of tenths. */
  lemma RoundsToNearest(t: nat, count: nat, n: nat)
    requires n > 0
    ensures IsRounded(t, count, n) <==>
      forall u: nat {:trigger Off(u, count, n)} :: Off(t, count, n) <= Off(u, count, n)
  {
    if IsRounded(t, count, n) {
      forall u: nat
        ensures Off(t, count, n) <= Off(u, count, n)
      {
        TenthsApart(t, u, count, n);
      }
    } else {
      var q: nat := 10 * count / n;
      DivMod(10 * count, n);
      MulStep(q, n);
      var next := q + 1;
      assert 2 * Off(q, count, n) <= n || 2 * Off(next, count, n) <= n;
    }
  }

  /** Off the halfway points there is only one rounded value. */
  lemma RoundedIsUnique(t: nat, u: nat, count: nat, n: nat)
    requires n > 0 && IsRounded(t, count, n) && IsRounded(u, count, n) && 2 * Off(t, count, n) != n
    ensures t == u
  {
    TenthsApart(t, u, count, n);
  }

  /** Two numbers of tenths are at least a tenth apart. */
  lemma TenthsApart(t: nat, u: nat, count: nat, n: nat)
    ensures t != u ==> Off(t, count, n) + Off(u, count, n) >= n
  {
    MulStep(t, n);
    MulStep(u, n);
    if t < u {
      Products(t + 1, u, n);
    } else if u < t {
      Products(u + 1, t, n);
    }
  }

  lemma DivMod(x: nat, n: nat)
    requires n > 0
    ensures x == (x / n) * n + x % n && x % n < n
  {
  }

  lemma MulStep(q: nat, n: nat)
    ensures (q + 1) * n == q * n + n
  {
  }

  // ---------- degrees ----------

  type Flow = string

  /** A repeated dictionary key keeps the value given last. */
  function LastIndex(flows: seq<Flow>, f: Flow): (i: nat)
    requires f in flows
    ensures i < |flows| && flows[i] == f
  {
    if flows[|flows| - 1] == f then |flows| - 1 else LastIndex(flows[..|flows| - 1], f)
  }

  ghost predicate Square(r: seq<seq<int>>, n: nat) {
    |r| == n && forall a :: 0 <= a < n ==> |r[a]| == n
  }

  function SumOver(keys: seq<Flow>, m: map<Flow, int>): int
    requires forall f :: f in keys ==> f in m
  {
    if keys == [] then 0 else SumOver(keys[..|keys| - 1], m) + m[keys[|keys| - 1]]
  }

  lemma {:induction false} SumOverUpdate(keys: seq<Flow>, m: map<Flow, int>, f: Flow, x: int)
    requires NoRepeats(keys) && forall k :: k in keys ==> k in m
    ensures f in m ==>
      SumOver(keys, m[f := x]) == SumOver(keys, m) + if f in keys then x - m[f] else 0
  {
    if keys != [] && f in m {
      var n := |keys| - 1;
      SumOverUpdate(keys[..n], m, f, x);
    }
  }

  /** Any listing of all keys, each once. */
  ghost predicate ListsEachKey(keys: seq<Flow>, m: map<Flow, int>) {
    NoRepeats(keys) && forall f :: f in keys <==> f in m
  }

  /** The values add up to nothing, however they are listed. */
  ghost predicate Balanced(m: map<Flow, int>) {
    forall keys :: ListsEachKey(keys, m) ==> SumOver(keys, m) == 0
  }

  lemma MovingKeepsBalance(m: map<Flow, int>, f: Flow, g: Flow, w: int)
    requires Balanced(m) && f in m && g in m
    ensures var once := m[f := m[f] - w]; Balanced(once[g := once[g] + w])
  {
    var once := m[f := m[f] - w];
    var twice := once[g := once[g] + w];
    forall keys | ListsEachKey(keys, twice)
      ensures SumOver(keys, twice) == 0
    {
      assert ListsEachKey(keys, m);
      SumOverUpdate(keys, m, f, m[f] - w);
      SumOverUpdate(keys, once, g, once[g] + w);
    }
  }

  /** What flow k has gained when the rows below a, and the first b weights of row a,
      have been accounted for. */
  function Net(r: seq<seq<int>>, n: nat, k: nat, a: nat, b: nat): int
    requires Square(r, n) && a <= n && b <= n && (a == n ==> b == 0)
    decreases a, b
  {
    if b > 0 then
      Net(r, n, k, a, b - 1) + (if b - 1 == k then r[a][b - 1] else 0) - (if a == k then r[a][b - 1] else 0)
    else if a > 0 then Net(r, n, k, a - 1, n)
    else 0
  }

  function RowSum(row: seq<int>): int {
    if row == [] then 0 else RowSum(row[..|row| - 1]) + row[|row| - 1]
  }

  function ColSum(r: seq<seq<int>>, k: nat): int
    requires forall a :: 0 <= a < |r| ==> k < |r[a]|
  {
    if r == [] then 0 else ColSum(r[..|r| - 1], k) + r[|r| - 1][k]
  }

  lemma {:induction false} NetIsDifference(r: seq<seq<int>>, n: nat, k: nat, a: nat, b: nat)
    requires Square(r, n) && k < n && a <= n && b <= n && (a == n ==> b == 0)
    ensures Net(r, n, k, a, b) ==
      ColSum(r[..a], k) + (if k < b then r[a][k] else 0)
      - (if k < a then RowSum(r[k]) else if k == a then RowSum(r[a][..b]) else 0)
    decreases a, b
  {
    if b > 0 {
      NetIsDifference(r, n, k, a, b - 1);
      assert r[a][..b][..b - 1] == r[a][..b - 1];
    } else if a > 0 {
      NetIsDifference(r, n, k, a - 1, n);
      assert r[..a][..a - 1] == r[..a - 1];
      assert r[a - 1][..n] == r[a - 1];
    }
  }

  ghost predicate NetsAre(flows: seq<Flow>, r: seq<seq<int>>, degree: map<Flow, int>, a: nat, b: nat)
    requires Square(r, |flows|) && a <= |flows| && b <= |flows| && (a == |flows| ==> b == 0)
    requires forall f :: f in degree <==> f in flows
  {
    forall k {:trigger NetIs(flows, r, degree, k, a, b)} :: 0 <= k < |flows| ==> NetIs(flows, r, degree, k, a, b)
  }

  ghost predicate NetIs(flows: seq<Flow>, r: seq<seq<int>>, degree: map<Flow, int>, k: nat, a: nat, b: nat)
    requires Square(r, |flows|) && a <= |flows| && b <= |flows| && (a == |flows| ==> b == 0)
    requires k < |flows| && flows[k] in degree
  {
    degree[flows[k]] == Net(r, |flows|, k, a, b)
  }

  lemma LastIndexIs(flows: seq<Flow>, i: nat)
    requires Distinct(flows) && i < |flows|
    ensures LastIndex(flows, flows[i]) == i
  {
  }

  /** One weight moved: no other flow is touched. */
  lemma NetAfterMove(flows: seq<Flow>, r: seq<seq<int>>, degree: map<Flow, int>, k: nat, a: nat, b: nat)
    requires Square(r, |flows|) && a < |flows| && b < |flows| && k < |flows|
    requires flows[a] in degree && flows[b] in degree && flows[k] in degree
    requires (flows[k] == flows[a] <==> k == a) && (flows[k] == flows[b] <==> k == b)
    requires NetIs(flows, r, degree, k, a, b)
    ensures var once := degree[flows[a] := degree[flows[a]] - r[a][b]];
            NetIs(flows, r, once[flows[b] := once[flows[b]] + r[a][b]], k, a, b + 1)
  {
  }

  lemma NetsAfterMove(flows: seq<Flow>, r: seq<seq<int>>, degree: map<Flow, int>, a: nat, b: nat)
    requires Square(r, |flows|) && a < |flows| && b < |flows| && Distinct(flows)
    requires forall f :: f in degree <==> f in flows
    requires NetsAre(flows, r, degree, a, b)
    ensures var once := degree[flows[a] := degree[flows[a]] - r[a][b]];
            NetsAre(flows, r, once[flows[b] := once[flows[b]] + r[a][b]], a, b + 1)
  {
    var once := degree[flows[a] := degree[flows[a]] - r[a][b]];
    var twice, next := once[flows[b] := once[flows[b]] + r[a][b]], b + 1;
    forall k | 0 <= k < |flows|
      ensures NetIs(flows, r, twice, k, a, next)
    {
      assert NetIs(flows, r, degree, k, a, b);
      NetAfterMove(flows, r, degree, k, a, b);
    }
  }

  lemma NextRow(flows: seq<Flow>, r: seq<seq<int>>, degree: map<Flow, int>, a: nat)
    requires Square(r, |flows|) && a < |flows|
    requires forall f :: f in degree <==> f in flows
    requires NetsAre(flows, r, degree, a, |flows|)
    ensures NetsAre(flows, r, degree, a + 1, 0)
  {
    var next := a + 1;
    forall k | 0 <= k < |flows|
      ensures NetIs(flows, r, degree, k, next, 0)
    {
      assert NetIs(flows, r, degree, k, a, |flows|);
    }
  }

  /** Subtract each weight from the waiting flow and add it to the one waited for. */
  method Degrees(flows: seq<Flow>, r: seq<seq<int>>) returns (degree: map<Flow, int>)
    requires Square(r, |flows|)
    ensures forall f :: f in degree <==> f in flows
    ensures Balanced(degree)
    ensures Distinct(flows) ==>
      forall k :: 0 <= k < |flows| ==> degree[flows[k]] == ColSum(r, k) - RowSum(r[k])
  {
    degree := map f | f in flows :: 0;
    StartBalanced(degree);
    for a := 0 to |flows|
      invariant forall f :: f in degree <==> f in flows
      invariant Balanced(degree)
      invariant Distinct(flows) ==> NetsAre(flows, r, degree, a, 0)
    {
      for b := 0 to |flows|
        invariant forall f :: f in degree <==> f in flows
        invariant Balanced(degree)
        invariant Distinct(flows) ==> NetsAre(flows, r, degree, a, b)
      {
        var w := r[LastIndex(flows, flows[a])][LastIndex(flows, flows[b])];
        MovingKeepsBalance(degree, flows[a], flows[b], w);
        if Distinct(flows) {
          LastIndexIs(flows, a);
          LastIndexIs(flows, b);
          NetsAfterMove(flows, r, degree, a, b);
        }
        degree := degree[flows[a] := degree[flows[a]] - w];
        degree := degree[flows[b] := degree[flows[b]] + w];
      }
      if Distinct(flows) {
        NextRow(flows, r, degree, a);
      }
    }
    if Distinct(flows) {
      forall k | 0 <= k < |flows|
        ensures degree[flows[k]] == ColSum(r, k) - RowSum(r[k])
      {
        assert NetIs(flows, r, degree, k, |flows|, 0);
        NetIsDifference(r, |flows|, k, |flows|, 0);
        assert r[..|flows|] == r;
      }
    }
  }

  lemma StartBalanced(m: map<Flow, int>)
    requires forall f :: f in m ==> m[f] == 0
    ensures Balanced(m)
  {
    forall keys | ListsEachKey(keys, m)
      ensures SumOver(keys, m) == 0
    {
      SumOfZeros(keys, m);
    }
  }

  lemma {:induction false} SumOfZeros(keys: seq<Flow>, m: map<Flow, int>)
    requires forall f :: f in keys ==> f in m && m[f] == 0
    ensures SumOver(keys, m) == 0
  {
    if keys != [] {
      SumOfZeros(keys[..|keys| - 1], m);
    }
  }

  // ---------- the whole replay ----------

  datatype Replay =
    | NoFlows
    | ZeroDivisionError
    | Replayed(degree: map<Flow, int>)

  /** The weight of row a and column b is a rounded wait of the given merge, in tenths. */
  ghost predicate WeightRight(w: int, list: seq<nat>, nums: seq<nat>, depths: seq<int>, a: nat, b: nat)
    requires a < |nums| == |depths|
  {
    w >= 0 && IsRounded(w, |WaitPairs(list, depths, a, b)|, nums[a])
  }

  /** The degrees are those of the weights r, and r rounds the waits of the one merge in
      which every flow has all its packets, each in its turn. */
  ghost predicate ReplayRight(flows: seq<Flow>, nums: seq<nat>, depths: seq<int>, degree: map<Flow, int>,
                              list: seq<nat>, r: seq<seq<int>>)
    requires |flows| == |nums| == |depths| && AllPositive(nums)
  {
    && Complete(list, nums) && InTurn(list, nums)
    && Square(r, |flows|)
    && (forall a, b :: 0 <= a < |flows| && 0 <= b < |flows| ==> WeightRight(r[a][b], list, nums, depths, a, b))
    && forall k :: 0 <= k < |flows| ==> flows[k] in degree && degree[flows[k]] == ColSum(r, k) - RowSum(r[k])
  }

  /** Every count divided by the packets of the waiting flow, and rounded. */
  method RoundAll(ghost list: seq<nat>, nums: seq<nat>, depths: seq<int>, w: array2<nat>) returns (r: seq<seq<int>>)
    requires |nums| == |depths| && AllPositive(nums)
    requires w.Length0 == w.Length1 == |depths| && WaitsCounted(w, list, depths)
    ensures Square(r, |nums|)
    ensures forall a, b :: 0 <= a < |nums| && 0 <= b < |nums| ==> WeightRight(r[a][b], list, nums, depths, a, b)
  {
    r := [];
    for a := 0 to |nums|
      invariant |r| == a && forall i :: 0 <= i < a ==> |r[i]| == |nums|
      invariant forall i, j :: 0 <= i < a && 0 <= j < |nums| ==> WeightRight(r[i][j], list, nums, depths, i, j)
    {
      var row: seq<int> := [];
      for b := 0 to |nums|
        invariant |row| == b
        invariant forall j :: 0 <= j < b ==> WeightRight(row[j], list, nums, depths, a, j)
      {
        var weight := Round(w[a, b], nums[a]);
        row := row + [weight];
      }
      r := r + [row];
    }
  }

  method SimPktQueue(flows: seq<Flow>, nums: seq<nat>, depths: seq<int>)
    returns (result: Replay, ghost list: seq<nat>, ghost r: seq<seq<int>>)
    requires |flows| == |nums| == |depths|
    ensures result.NoFlows? <==> flows == []
    ensures result.ZeroDivisionError? <==> flows != [] && !AllPositive(nums)
    ensures result.Replayed? ==> Balanced(result.degree) && forall f :: f in result.degree <==> f in flows
    ensures result.Replayed? && Distinct(flows) ==> ReplayRight(flows, nums, depths, result.degree, list, r)
  {
    list, r := [], [];
    var n := |flows|;
    if n == 0 {
      return NoFlows, list, r;
    }
    if !AllPositive(nums) {
      return ZeroDivisionError, list, r;
    }
    var queue := Merge(nums);
    var waits := new nat[n, n]((_, _) => 0);
    CountWaits(queue, depths, waits);
    var rounded := RoundAll(queue, nums, depths, waits);
    var degree := Degrees(flows, rounded);
    list, r := queue, rounded;
    result := Replayed(degree);
  }
}
