/** What the installed polling table answers, and for which forwarding lists the answers are right. */
module PollingLookup {
  import opened Lists
  import opened PollingTable
  import opened Wrappers

  // ---- The promise ----

  /** Some entry of the table matches the packet and gives it the action. */
  ghost predicate Answers(table: seq<TableEntry>, tpType: nat, ingress: nat, dst: Word, action: Action) {
    exists i :: 0 <= i < |table| && Matches(table[i].key, tpType, ingress, dst) && table[i].action == action
  }

  /** No packet matches two entries. */
  ghost predicate AtMostOneMatch(table: seq<TableEntry>) {
    forall i, j, tpType, ingress, dst ::
      (0 <= i < |table| && 0 <= j < |table|
       && Matches(table[i].key, tpType, ingress, dst) && Matches(table[j].key, tpType, ingress, dst)) ==> i == j
  }

  ghost predicate Forwards(rules: seq<Rule>, ingress: nat, dst: Word, egress: nat) {
    Rule(ingress, dst, egress) in rules
  }

  /** What each type of polling packet should meet. */
  ghost predicate Wanted(rules: seq<Rule>, ports: seq<nat>, tpType: nat, ingress: nat, dst: Word, action: Action) {
    if tpType == POLLING_FLW_TRC then action.Unicast? && Forwards(rules, ingress, dst, action.port)
    else if tpType == POLLING_ALL_TRC then
      action.Broadcast? && Forwards(rules, ingress, dst, action.port) && action.group == Group16(ingress)
    else tpType == POLLING_PFC_TRC && ingress in ports && action == Broadcast(511, Group16(ingress))
  }

  ghost predicate AnswersAsWanted(table: seq<TableEntry>, rules: seq<Rule>, ports: seq<nat>) {
    forall tpType, ingress, dst, action ::
      Answers(table, tpType, ingress, dst, action) <==> Wanted(rules, ports, tpType, ingress, dst, action)
  }

  ghost predicate UniqueKeys(rules: seq<Rule>) {
    forall i, j :: 0 <= i < j < |rules| ==> !(rules[i].ingress == rules[j].ingress && rules[i].dst == rules[j].dst)
  }

  // ---- The entries of a generated list ----

  /** The table entry that a list entry should become. */
  function Image(e: ListEntry): TableEntry {
    TableEntry(KeyOf(e), if e.tpType == 1 then Unicast(e.egress) else Broadcast(e.egress, Group16(e.group)))
  }

  function Images(list: seq<ListEntry>): seq<TableEntry> {
    seq(|list|, i requires 0 <= i < |list| => Image(list[i]))
  }

  /** Matching the key of a list entry, without bit masks. */
  predicate Hits(e: ListEntry, tpType: nat, ingress: nat, dst: Word) {
    e.tpType == tpType && e.ingress == ingress && (tpType == POLLING_PFC_TRC || e.dst == dst)
  }

  lemma HitsIsMatching(e: ListEntry, tpType: nat, ingress: nat, dst: Word)
    ensures Matches(KeyOf(e), tpType, ingress, dst) <==> Hits(e, tpType, ingress, dst)
  {
    if Matches(KeyOf(e), tpType, ingress, dst) && e.tpType != POLLING_PFC_TRC {
      forall b | 0 <= b < 32
        ensures e.dst[b] == dst[b]
      {
        assert KeyOf(e).mask[b];
      }
      assert e.dst == dst;
    }
  }

  /** Two list entries that hit the same packet come from the same rule or port, in the same role. */
  lemma SameOrigin(rules: seq<Rule>, ports: seq<nat>, i: nat, j: nat)
    requires UniqueKeys(rules) && Distinct(ports)
    requires i < 2 * |rules| + |ports| && j < 2 * |rules| + |ports|
    requires var a, b := EntryAt(rules, ports, i), EntryAt(rules, ports, j);
             a.tpType == b.tpType && a.ingress == b.ingress && (a.tpType == 2 || a.dst == b.dst)
    ensures i == j
  {
    var n := 2 * |rules|;
    if i < n {
      var k, l := i / 2, j / 2;
      assert rules[k].ingress == rules[l].ingress && rules[k].dst == rules[l].dst;
      assert k == l;
    } else {
      var k, l := i - n, j - n;
      assert ports[k] == ports[l];
    }
  }

  lemma NoOverlap(rules: seq<Rule>, ports: seq<nat>, i: nat, j: nat, tpType: nat, ingress: nat, dst: Word)
    requires UniqueKeys(rules) && Distinct(ports)
    requires i < 2 * |rules| + |ports| && j < 2 * |rules| + |ports|
    requires Matches(KeyOf(EntryAt(rules, ports, i)), tpType, ingress, dst)
    requires Matches(KeyOf(EntryAt(rules, ports, j)), tpType, ingress, dst)
    ensures i == j
  {
    HitsIsMatching(EntryAt(rules, ports, i), tpType, ingress, dst);
    HitsIsMatching(EntryAt(rules, ports, j), tpType, ingress, dst);
    SameOrigin(rules, ports, i, j);
  }

  lemma HitIsWanted(rules: seq<Rule>, ports: seq<nat>, i: nat, tpType: nat, ingress: nat, dst: Word)
    requires i < 2 * |rules| + |ports|
    requires Hits(EntryAt(rules, ports, i), tpType, ingress, dst)
    ensures Wanted(rules, ports, tpType, ingress, dst, Image(EntryAt(rules, ports, i)).action)
  {
    if i < 2 * |rules| {
      var k := i / 2;
      assert rules[k] == Rule(ingress, dst, rules[k].egress);
    }
  }

  /** A packet that matches an entry is given the action that is wanted for it. */
  lemma ImageIsWanted(rules: seq<Rule>, ports: seq<nat>, i: nat, tpType: nat, ingress: nat, dst: Word)
    requires i < 2 * |rules| + |ports|
    requires Matches(KeyOf(EntryAt(rules, ports, i)), tpType, ingress, dst)
    ensures Wanted(rules, ports, tpType, ingress, dst, Image(EntryAt(rules, ports, i)).action)
  {
    HitsIsMatching(EntryAt(rules, ports, i), tpType, ingress, dst);
    HitIsWanted(rules, ports, i, tpType, ingress, dst);
  }

  lemma OriginOfWanted(rules: seq<Rule>, ports: seq<nat>, tpType: nat, ingress: nat, dst: Word, action: Action)
    returns (i: nat)
    requires Wanted(rules, ports, tpType, ingress, dst, action)
    ensures i < 2 * |rules| + |ports|
    ensures Hits(EntryAt(rules, ports, i), tpType, ingress, dst) && Image(EntryAt(rules, ports, i)).action == action
  {
    if tpType == POLLING_PFC_TRC {
      var k :| 0 <= k < |ports| && ports[k] == ingress;
      i := 2 * |rules| + k;
    } else {
      var k :| 0 <= k < |rules| && rules[k] == Rule(ingress, dst, action.port);
      i := if tpType == POLLING_FLW_TRC then 2 * k else 2 * k + 1;
      assert i / 2 == k;
    }
  }

  /** Every wanted answer comes from some entry of the generated list. */
  lemma WantedIsGenerated(rules: seq<Rule>, ports: seq<nat>, tpType: nat, ingress: nat, dst: Word, action: Action)
    returns (i: nat)
    requires Wanted(rules, ports, tpType, ingress, dst, action)
    ensures i < 2 * |rules| + |ports|
    ensures Matches(KeyOf(EntryAt(rules, ports, i)), tpType, ingress, dst)
    ensures Image(EntryAt(rules, ports, i)).action == action
  {
    i := OriginOfWanted(rules, ports, tpType, ingress, dst, action);
    HitsIsMatching(EntryAt(rules, ports, i), tpType, ingress, dst);
  }

  // ---- Installing a generated list never fails ----

  /** Every PFC entry finds a broadcast action left in the data object. */
  ghost predicate Fed(list: seq<ListEntry>) {
    && (forall i :: 0 <= i < |list| ==> list[i].tpType in {1, 2, 3})
    && (forall i :: 0 <= i < |list| && list[i].tpType != 2 ==>
          list[i].action == if list[i].tpType == 1 then "ai_unicast_polling" else "ai_broadcast_polling")
    && (forall i :: 0 <= i < |list| && list[i].tpType == 2 ==> i > 0 && list[i - 1].tpType != 1)
  }

  ghost predicate DistinctKeys(list: seq<ListEntry>) {
    forall i, j :: 0 <= i < j < |list| ==> KeyOf(list[i]) != KeyOf(list[j])
  }

  lemma NewKey(list: seq<ListEntry>, n: nat)
    requires DistinctKeys(list) && n < |list|
    ensures !exists t :: t in Images(list[..n]) && t.key == KeyOf(list[n])
  {
    forall t | t in Images(list[..n])
      ensures t.key != KeyOf(list[n])
    {
      var k :| 0 <= k < n && t == Images(list[..n])[k];
      assert KeyOf(list[k]) != KeyOf(list[n]);
    }
  }

  lemma ImagesNext(list: seq<ListEntry>, n: nat)
    requires n + 1 == |list|
    ensures Images(list) == Images(list[..n]) + [Image(list[n])]
  {
  }

  lemma FillsImage(e: ListEntry, data: Data)
    requires e.tpType in {1, 2, 3}
    requires e.tpType != 2 ==> e.action == if e.tpType == 1 then "ai_unicast_polling" else "ai_broadcast_polling"
    requires e.tpType == 2 ==> data.Some? && data.value.Broadcast?
    ensures Filled(e, data) == Some(Some(Image(e).action))
  {
  }

  lemma {:induction false} InstallsImages(list: seq<ListEntry>)
    requires Fed(list) && DistinctKeys(list)
    ensures Install(list).Some? && Install(list).value.table == Images(list)
    ensures list != [] ==> Install(list).value.data == Some(Image(list[|list| - 1]).action)
  {
    if list != [] {
      var n := |list| - 1;
      InstallsImages(list[..n]);
      NewKey(list, n);
      ImagesNext(list, n);
      assert list[n].tpType == 2 ==> list[n - 1].tpType != 1 && list[..n][n - 1] == list[n - 1];
      FillsImage(list[n], Install(list[..n]).value.data);
    }
  }

  lemma GeneratedIsFed(rules: seq<Rule>, ports: seq<nat>)
    requires rules != []
    ensures Fed(Generated(rules, ports))
  {
    var g := Generated(rules, ports);
    forall i | 0 <= i < |g| && g[i].tpType == 2
      ensures i > 0 && g[i - 1].tpType != 1
    {
      assert g[i] == EntryAt(rules, ports, i);
      assert i >= 2 * |rules|;
      var before: nat := i - 1;
      assert g[before] == EntryAt(rules, ports, before);
      assert before >= 2 * |rules| || before == 2 * (|rules| - 1) + 1;
    }
  }

  lemma GeneratedKeys(rules: seq<Rule>, ports: seq<nat>)
    requires UniqueKeys(rules) && Distinct(ports)
    ensures DistinctKeys(Generated(rules, ports))
  {
    var g := Generated(rules, ports);
    forall i, j | 0 <= i < j < |g|
      ensures KeyOf(g[i]) != KeyOf(g[j])
    {
      if KeyOf(g[i]) == KeyOf(g[j]) {
        SameOrigin(rules, ports, i, j);
      }
    }
  }

  lemma PrefixInstalls(list: seq<ListEntry>, n: nat)
    requires Fed(list) && DistinctKeys(list) && n <= |list|
    ensures Install(list[..n]).Some? && Install(list[..n]).value.table == Images(list)[..n]
  {
    InstallsImages(list[..n]);
    assert Images(list[..n]) == Images(list)[..n];
  }

  // ---- The theorem ----

  /**
   * A table that is installed never matches a packet twice. Every packet is answered as wanted exactly when the
   * generated list has at most 255 entries and does not start with a port entry: the first of these would find no
   * action to fill.
   */
  lemma AnswersExactlyWhenShort(rules: seq<Rule>, ports: seq<nat>)
    requires UniqueKeys(rules) && Distinct(ports)
    ensures Deployed(Generated(rules, ports)).Some? ==> AtMostOneMatch(Deployed(Generated(rules, ports)).value.table)
    ensures (Deployed(Generated(rules, ports)).Some?
             && AnswersAsWanted(Deployed(Generated(rules, ports)).value.table, rules, ports))
            <==> 2 * |rules| + |ports| <= 255 && (rules != [] || ports == [])
  {
    var g := Generated(rules, ports);
    var n := |g| % 256;
    if rules != [] {
      RulesDeploy(rules, ports);
      if |g| <= 255 {
        assert Images(g)[..n] == Images(g);
        WholeListAnswers(rules, ports);
      } else {
        MissingEntry(rules, ports, n);
      }
    } else if ports != [] {
      PortsAlone(ports);
      MissingEntry(rules, ports, 0);
    } else {
      WholeListAnswers(rules, ports);
      assert Images(g) == [] && g[..n] == [];
    }
  }

  /** With some rule in front, whatever part of the list is passed on is installed. */
  lemma RulesDeploy(rules: seq<Rule>, ports: seq<nat>)
    requires rules != [] && UniqueKeys(rules) && Distinct(ports)
    ensures var g := Generated(rules, ports);
            && Deployed(g).Some? && Deployed(g).value.table == Images(g)[..|g| % 256]
            && AtMostOneMatch(Deployed(g).value.table)
  {
    var g := Generated(rules, ports);
    GeneratedIsFed(rules, ports);
    GeneratedKeys(rules, ports);
    PrefixInstalls(g, |g| % 256);
    MatchesOnce(rules, ports, Images(g)[..|g| % 256]);
  }

  lemma PortsAlone(ports: seq<nat>)
    ensures var g := Generated([], ports);
            Deployed(g) == if |ports| % 256 == 0 then Some(Driver(None, [])) else None
  {
    var g := Generated([], ports);
    var used := g[..|g| % 256];
    if used != [] {
      assert used[..1][..0] == [] && used[0] == PfcEntry(ports[0]);
      assert Install(used[..1]).None?;
      InstallFails(used, 1);
    }
  }

  lemma MatchesOnce(rules: seq<Rule>, ports: seq<nat>, table: seq<TableEntry>)
    requires UniqueKeys(rules) && Distinct(ports) && table <= Images(Generated(rules, ports))
    ensures AtMostOneMatch(table)
  {
    var g := Generated(rules, ports);
    forall i, j, tpType, ingress, dst |
      0 <= i < |table| && 0 <= j < |table|
      && Matches(table[i].key, tpType, ingress, dst) && Matches(table[j].key, tpType, ingress, dst)
      ensures i == j
    {
      assert table[i].key == KeyOf(g[i]) && table[j].key == KeyOf(g[j]);
      NoOverlap(rules, ports, i, j, tpType, ingress, dst);
    }
  }

  lemma WholeListAnswers(rules: seq<Rule>, ports: seq<nat>)
    ensures AnswersAsWanted(Images(Generated(rules, ports)), rules, ports)
  {
    var g := Generated(rules, ports);
    forall tpType, ingress, dst, action
      ensures Answers(Images(g), tpType, ingress, dst, action) <==> Wanted(rules, ports, tpType, ingress, dst, action)
    {
      if Answers(Images(g), tpType, ingress, dst, action) {
        var i :| 0 <= i < |g| && Matches(Images(g)[i].key, tpType, ingress, dst) && Images(g)[i].action == action;
        ImageIsWanted(rules, ports, i, tpType, ingress, dst);
      }
      if Wanted(rules, ports, tpType, ingress, dst, action) {
        var i := WantedIsGenerated(rules, ports, tpType, ingress, dst, action);
        assert Images(g)[i] == Image(g[i]);
      }
    }
  }

  /** The first entry that is cut off leaves a packet without the answer it should get. */
  lemma MissingEntry(rules: seq<Rule>, ports: seq<nat>, n: nat)
    requires UniqueKeys(rules) && Distinct(ports) && n < |Generated(rules, ports)|
    ensures !AnswersAsWanted(Images(Generated(rules, ports))[..n], rules, ports)
  {
    var g := Generated(rules, ports);
    var e := g[n];
    var table := Images(g)[..n];
    HitsIsMatching(e, e.tpType, e.ingress, e.dst);
    ImageIsWanted(rules, ports, n, e.tpType, e.ingress, e.dst);
    forall i | 0 <= i < n
      ensures !Matches(table[i].key, e.tpType, e.ingress, e.dst)
    {
      assert table[i].key == KeyOf(g[i]);
      if Matches(KeyOf(g[i]), e.tpType, e.ingress, e.dst) {
        NoOverlap(rules, ports, i, n, e.tpType, e.ingress, e.dst);
      }
    }
    assert !Answers(table, e.tpType, e.ingress, e.dst, Image(e).action);
  }
}
