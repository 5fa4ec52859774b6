/** The detection agent's table of flow metadata: sixteen slots, filled in order of
    first appearance and refreshed in place. */
module FlowTable {

  const MAX_NB_FLOWS: nat := 16

  datatype Meta = Meta(flowtag: nat, srcIp: nat, dstIp: nat, srcPort: nat, dstPort: nat, rtt: nat)

  /** The slot of a tag among the live entries, or their number if it has none. */
  function Slot(entries: seq<Meta>, tag: nat): (i: nat)
    ensures i <= |entries|
    ensures i < |entries| ==> entries[i].flowtag == tag
    ensures forall j :: 0 <= j < i ==> entries[j].flowtag != tag
  {
    if entries == [] || entries[0].flowtag == tag then 0 else 1 + Slot(entries[1..], tag)
  }

  /** The live entries after one refresh. */
  function Refreshed(entries: seq<Meta>, m: Meta): seq<Meta> {
    var i := Slot(entries, m.flowtag);
    if i < |entries| then entries[i := m]
    else if |entries| < MAX_NB_FLOWS then entries + [m]
    else entries
  }

  class Table {
    const metas: array<Meta>
    var curNbFlows: nat

    ghost predicate Valid()
      reads this
    {
      metas.Length == MAX_NB_FLOWS && curNbFlows <= MAX_NB_FLOWS
    }

    function Entries(): seq<Meta>
      requires Valid()
      reads this, metas
    {
      metas[..curNbFlows]
    }

    constructor ()
      ensures Valid() && Entries() == [] && fresh(metas)
    {
      metas := new Meta[MAX_NB_FLOWS](_ => Meta(0, 0, 0, 0, 0, 0));
      curNbFlows := 0;
    }

    /** Find the flow's slot, or take the next free one; a seventeenth flow is dropped. */
    method Refresh(m: Meta)
      requires Valid()
      modifies this`curNbFlows, metas
      ensures Valid()
      ensures Entries() == Refreshed(old(Entries()), m)
    {
      var i := 0;
      while i < curNbFlows
        invariant i <= curNbFlows
        invariant forall j :: 0 <= j < i ==> metas[j].flowtag != m.flowtag
      {
        if metas[i].flowtag == m.flowtag {
          break;
        }
        i := i + 1;
      }
      assert i == Slot(Entries(), m.flowtag) by {
        assert i < curNbFlows ==> Entries()[i].flowtag == m.flowtag;
      }
      if i >= MAX_NB_FLOWS {
        return;
      }
      if i == curNbFlows {
        curNbFlows := curNbFlows + 1;
        metas[i] := metas[i].(flowtag := m.flowtag);
      }
      metas[i] := metas[i].(rtt := m.rtt);
      metas[i] := metas[i].(srcIp := m.srcIp);
      metas[i] := metas[i].(dstIp := m.dstIp);
      metas[i] := metas[i].(srcPort := m.srcPort);
      metas[i] := metas[i].(dstPort := m.dstPort);
    }
  }

  // ---------- what any sequence of refreshes leaves in the table ----------

  function After(refreshes: seq<Meta>): seq<Meta> {
    if refreshes == [] then []
    else Refreshed(After(refreshes[..|refreshes| - 1]), refreshes[|refreshes| - 1])
  }

  /** The distinct tags seen, in order of first appearance. */
  function TagsSeen(refreshes: seq<Meta>): seq<nat> {
    if refreshes == [] then []
    else
      var tags, tag := TagsSeen(refreshes[..|refreshes| - 1]), refreshes[|refreshes| - 1].flowtag;
      if tag in tags then tags else tags + [tag]
  }

  /** The latest refresh of a tag that has been seen. */
  function Latest(refreshes: seq<Meta>, tag: nat): (m: Meta)
    requires tag in TagsSeen(refreshes)
    ensures m.flowtag == tag
  {
    var n := |refreshes| - 1;
    if refreshes[n].flowtag == tag then refreshes[n] else Latest(refreshes[..n], tag)
  }

  lemma {:induction false} TagsAreDistinct(refreshes: seq<Meta>)
    ensures forall i, j :: 0 <= i < j < |TagsSeen(refreshes)| ==> TagsSeen(refreshes)[i] != TagsSeen(refreshes)[j]
  {
    if refreshes != [] {
      TagsAreDistinct(refreshes[..|refreshes| - 1]);
    }
  }

  /** The k-th live entry is the latest refresh of the k-th tag ever seen, for the
      first sixteen tags; later tags leave no trace. */
  lemma {:induction false} TableHoldsFirstFlows(refreshes: seq<Meta>)
    ensures |After(refreshes)| ==
      if |TagsSeen(refreshes)| < MAX_NB_FLOWS then |TagsSeen(refreshes)| else MAX_NB_FLOWS
    ensures forall k :: 0 <= k < |After(refreshes)| ==>
      After(refreshes)[k] == Latest(refreshes, TagsSeen(refreshes)[k])
  {
    if refreshes != [] {
      var n := |refreshes| - 1;
      var front, m := refreshes[..n], refreshes[n];
      TableHoldsFirstFlows(front);
      TagsAreDistinct(front);
      var entries, tags := After(front), TagsSeen(front);
      var i := Slot(entries, m.flowtag);
      if i == |entries| && m.flowtag in tags {
        var k :| 0 <= k < |tags| && tags[k] == m.flowtag;
        assert k >= |entries|;
      }
    }
  }

  lemma LiveTagsAreDistinct(refreshes: seq<Meta>)
    ensures forall i, j :: 0 <= i < j < |After(refreshes)| ==>
      After(refreshes)[i].flowtag != After(refreshes)[j].flowtag
  {
    TableHoldsFirstFlows(refreshes);
    TagsAreDistinct(refreshes);
  }

  /** What a bounded map would hold: a new key is admitted while there is room. */
  function MapAfter(refreshes: seq<Meta>): map<nat, Meta> {
    if refreshes == [] then map[]
    else
      var before, m := MapAfter(refreshes[..|refreshes| - 1]), refreshes[|refreshes| - 1];
      if m.flowtag in before || |before| < MAX_NB_FLOWS then before[m.flowtag := m] else before
  }

  lemma SlotIs(entries: seq<Meta>, t: nat, i: nat)
    requires i <= |entries| && (i < |entries| ==> entries[i].flowtag == t)
    requires forall j :: 0 <= j < i ==> entries[j].flowtag != t
    ensures Slot(entries, t) == i
  {
    var s := Slot(entries, t);
    assert s < |entries| ==> entries[s].flowtag == t;
  }

  lemma SlotAfterRefresh(before: seq<Meta>, m: Meta, t: nat)
    ensures Slot(Refreshed(before, m), t) ==
      if Slot(before, t) == |before| && |before| < MAX_NB_FLOWS && t != m.flowtag && Slot(before, m.flowtag) == |before|
      then |before| + 1 else Slot(before, t)
  {
    var i, s, after := Slot(before, m.flowtag), Slot(before, t), Refreshed(before, m);
    if i < |before| {
      assert forall j :: 0 <= j < |before| ==> after[j].flowtag == before[j].flowtag;
      SlotIs(after, t, s);
    } else if |before| < MAX_NB_FLOWS {
      assert after[..|before|] == before;
      if s < |before| || t == m.flowtag {
        SlotIs(after, t, s);
      } else {
        SlotIs(after, t, |before| + 1);
      }
    }
  }

  /** The scan and the map give the same answer for this tag. */
  ghost predicate SameLookup(entries: seq<Meta>, m: map<nat, Meta>, t: nat) {
    && (t in m <==> Slot(entries, t) < |entries|)
    && (t in m ==> m[t] == entries[Slot(entries, t)])
  }

  /** The scanned array answers every lookup as the bounded map does, in no more
      space than the map takes. */
  lemma {:induction false} TableRefinesMap(refreshes: seq<Meta>)
    ensures |After(refreshes)| == |MapAfter(refreshes)| <= MAX_NB_FLOWS
    ensures forall t: nat {:trigger SameLookup(After(refreshes), MapAfter(refreshes), t)} ::
      SameLookup(After(refreshes), MapAfter(refreshes), t)
  {
    if refreshes != [] {
      var n := |refreshes| - 1;
      TableRefinesMap(refreshes[..n]);
      var m := refreshes[n];
      assert SameLookup(After(refreshes[..n]), MapAfter(refreshes[..n]), m.flowtag);
      forall t: nat
        ensures SameLookup(After(refreshes), MapAfter(refreshes), t)
      {
        assert SameLookup(After(refreshes[..n]), MapAfter(refreshes[..n]), t);
        SlotAfterRefresh(After(refreshes[..n]), m, t);
      }
    }
  }
}
