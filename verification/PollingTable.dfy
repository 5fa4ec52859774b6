/**
 * The polling table: the generator of its entries (ctrl/entry_list_gen.py) and their installation as ternary
 * entries (ctrl/ctrl.c). The table answers every packet as the forwarding list says exactly when the generated
 * list is short enough for the 8-bit count it is passed with.
 */
module PollingTable {
  import opened Wrappers

  const POLLING_FLW_TRC := 1
  const POLLING_PFC_TRC := 2
  const POLLING_ALL_TRC := 3

  /** An IPv4 address or a mask, bit by bit. */
  type Word = bits: seq<bool> | |bits| == 32 witness seq(32, _ => false)

  function Repeated(bit: bool): Word {
    seq(32, _ => bit)
  }

  /** A forwarding rule of the emulated switches: (ingress port, destination) to egress port. */
  datatype Rule = Rule(ingress: nat, dst: Word, egress: nat)

  datatype ListEntry = ListEntry(tpType: nat, ingress: nat, dst: Word, action: string, egress: nat, group: nat)

  // ---- The generator ----

  function FlowEntry(r: Rule): ListEntry {
    ListEntry(1, r.ingress, r.dst, "ai_unicast_polling", r.egress, 0)
  }

  function AllEntry(r: Rule): ListEntry {
    ListEntry(3, r.ingress, r.dst, "ai_broadcast_polling", r.egress, r.ingress)
  }

  function PfcEntry(port: nat): ListEntry {
    ListEntry(2, port, Repeated(false), "ai_broadcast_polling", 511, port)
  }

  function EntryAt(rules: seq<Rule>, ports: seq<nat>, i: nat): ListEntry
    requires i < 2 * |rules| + |ports|
  {
    if i >= 2 * |rules| then PfcEntry(ports[i - 2 * |rules|])
    else if i % 2 == 0 then FlowEntry(rules[i / 2])
    else AllEntry(rules[i / 2])
  }

  /** Two entries for each rule, then one for each port. */
  function Generated(rules: seq<Rule>, ports: seq<nat>): seq<ListEntry> {
    seq(2 * |rules| + |ports|, i requires 0 <= i < 2 * |rules| + |ports| => EntryAt(rules, ports, i))
  }

  method Generate(rules: seq<Rule>, portsA: seq<nat>, portsB: seq<nat>) returns (list: seq<ListEntry>)
    ensures list == Generated(rules, portsA + portsB)
  {
    list := [];
    for i := 0 to |rules|
      invariant list == Generated(rules[..i], [])
    {
      list := list + [FlowEntry(rules[i])];
      list := list + [AllEntry(rules[i])];
    }
    assert rules[..|rules|] == rules;
    for i := 0 to |portsA|
      invariant list == Generated(rules, portsA[..i])
    {
      list := list + [PfcEntry(portsA[i])];
    }
    for i := 0 to |portsB|
      invariant list == Generated(rules, portsA + portsB[..i])
    {
      list := list + [PfcEntry(portsB[i])];
    }
    assert portsB[..|portsB|] == portsB;
  }

  // ---- The table ----

  datatype Action = Unicast(port: nat) | Broadcast(port: nat, group: nat)

  datatype Key = Key(tpType: nat, ingress: nat, dst: Word, mask: Word)

  datatype TableEntry = TableEntry(key: Key, action: Action)

  /** A packet's type and port are matched exactly, its destination under the mask. */
  predicate Matches(k: Key, tpType: nat, ingress: nat, dst: Word) {
    k.tpType == tpType && k.ingress == ingress && forall b :: 0 <= b < 32 && k.mask[b] ==> dst[b] == k.dst[b]
  }

  /**
   * The data object is shared by all insertions: it has no action until it is reset for one. Writing a field of
   * another action is an error of the driver, and so is a second entry with the same key.
   */
  type Data = Option<Action>

  function KeyOf(e: ListEntry): Key {
    Key(e.tpType, e.ingress, e.dst, Repeated(e.tpType != POLLING_PFC_TRC))
  }

  /** The name is copied into a buffer of 64 bytes. */
  function Copied(name: string): string {
    if |name| > 63 then name[..63] else name
  }

  /** Multicast groups are kept in a uint16_t. */
  function Group16(group: nat): nat {
    group % 65536
  }

  /** The data object when the entry is inserted; None: an assertion fails. */
  function Filled(e: ListEntry, data: Data): Option<Data> {
    if e.tpType == POLLING_PFC_TRC then
      if data.Some? && data.value.Broadcast? then Some(Some(Broadcast(e.egress, Group16(e.group)))) else None
    else if Copied(e.action) == "ai_unicast_polling" then Some(Some(Unicast(e.egress)))
    else if Copied(e.action) == "ai_broadcast_polling" then Some(Some(Broadcast(e.egress, Group16(e.group))))
    else Some(data)
  }

  datatype Driver = Driver(data: Data, table: seq<TableEntry>)

  function Insert(e: ListEntry, d: Driver): Option<Driver> {
    match Filled(e, d.data)
    case None => None
    case Some(data) =>
      if data.None? || exists t :: t in d.table && t.key == KeyOf(e) then None
      else Some(Driver(data, d.table + [TableEntry(KeyOf(e), data.value)]))
  }

  /** Entries of an unknown type are passed over. */
  function Install(list: seq<ListEntry>): Option<Driver> {
    if list == [] then Some(Driver(None, []))
    else
      var n := |list| - 1;
      match Install(list[..n])
      case None => None
      case Some(d) => if list[n].tpType in {1, 2, 3} then Insert(list[n], d) else Some(d)
  }

  /** The length is passed as a uint8_t. */
  function Deployed(list: seq<ListEntry>): Option<Driver> {
    Install(list[..|list| % 256])
  }

  class PollingDriver {
    var data: Data
    var table: seq<TableEntry>

    constructor ()
      ensures data == None && table == []
    {
      data, table := None, [];
    }

    /** False: an assertion of the driver failed. */
    method EntryAdd(e: ListEntry) returns (ok: bool)
      modifies this
      ensures (if ok then Some(Driver(data, table)) else None) == old(Insert(e, Driver(data, table)))
    {
      var key;
      if e.tpType == POLLING_PFC_TRC {
        key := Key(e.tpType, e.ingress, e.dst, Repeated(false));
        if data.None? || data.value.Unicast? {
          return false;
        }
        data := Some(data.value.(port := e.egress));
        data := Some(data.value.(group := Group16(e.group)));
      } else {
        key := Key(e.tpType, e.ingress, e.dst, Repeated(true));
        var action := Copied(e.action);
        if action == "ai_unicast_polling" {
          data := Some(Unicast(e.egress));
        } else if action == "ai_broadcast_polling" {
          data := Some(Broadcast(e.egress, Group16(e.group)));
        }
      }
      if data.None? || exists t :: t in table && t.key == key {
        return false;
      }
      table := table + [TableEntry(key, data.value)];
      ok := true;
    }

    method Deploy(list: seq<ListEntry>) returns (ok: bool)
      requires table == []
      modifies this
      ensures (if ok then Some(Driver(data, table)) else None) == Deployed(list)
    {
      data := None;
      var count := |list| % 256;
      ghost var used := list[..count];
      var i := 0;
      while i < count
        invariant i <= count
        invariant Install(used[..i]) == Some(Driver(data, table))
      {
        assert used[..i + 1][..i] == used[..i];
        if list[i].tpType == 1 || list[i].tpType == 2 || list[i].tpType == 3 {
          ok := EntryAdd(list[i]);
          if !ok {
            InstallFails(used, i + 1);
            return;
          }
        }
        i := i + 1;
      }
      assert used[..count] == used;
      ok := true;
    }
  }

  lemma {:induction false} InstallFails(list: seq<ListEntry>, i: nat)
    requires i <= |list| && Install(list[..i]).None?
    ensures Install(list).None?
  {
    if i < |list| {
      var shorter := list[..|list| - 1];
      assert shorter[..i] == list[..i];
      InstallFails(shorter, i);
    } else {
      assert list[..i] == list;
    }
  }
}
