/** NAT tables: what is stored, how it is written (applyNATTable) and how it is looked up. */
module NatTable {
  import opened Core
  import opened NatAllocation
  import opened Sorting

  datatype TargetRef = TargetRef(uid: UID, name: Name, nodeRef: Name)
  datatype Section = Section(ip: IP, port: int, endPort: int, targetRef: Option<TargetRef>)
  datatype NATIP = NATIP(ip: IP, sections: seq<Section>)
  type Table = seq<NATIP>

  /** A section together with the NAT IP it belongs to. */
  datatype Alloc = Alloc(ip: IP, section: Section)

  /** The controller's working map from NAT IP to target to section. */
  type TableData = map<IP, map<UID, Section>>

  /** The sections of a table in the order in which its readers visit them. */
  ghost function Entries(t: Table): seq<Alloc> {
    if t == [] then [] else Entries(t[..|t| - 1]) + EntriesOf(t[|t| - 1])
  }

  ghost function EntriesOf(n: NATIP): seq<Alloc> {
    seq(|n.sections|, i requires 0 <= i < |n.sections| => Alloc(n.ip, n.sections[i]))
  }

  lemma {:induction false} EntriesMember(t: Table, e: Alloc)
    ensures e in Entries(t) <==> exists i :: 0 <= i < |t| && t[i].ip == e.ip && e.section in t[i].sections
  {
    if t != [] {
      var n := |t| - 1;
      EntriesMember(t[..n], e);
      assert e in EntriesOf(t[n]) <==> t[n].ip == e.ip && e.section in t[n].sections by {
        if t[n].ip == e.ip && e.section in t[n].sections {
          var j :| 0 <= j < |t[n].sections| && t[n].sections[j] == e.section;
          assert EntriesOf(t[n])[j] == e;
        }
      }
      assert forall i | 0 <= i < n :: t[..n][i] == t[i];
    }
  }

  ghost predicate Targets(e: Alloc, uid: UID) {
    e.section.targetRef.Some? && e.section.targetRef.value.uid == uid
  }

  /** Slot identity of a written section. */
  ghost function SlotKey(ports: nat, e: Alloc): (IP, nat)
    requires ports > 0
  {
    var slot := SlotAt(ports, e.section.port);
    (e.ip, if slot >= 0 then slot else 0)
  }

  /** A set of allocations with `ports` ports each: slot ranges only, no slot given out twice. */
  ghost predicate Consistent(ports: nat, ips: set<IP>, allocs: map<UID, Alloc>)
    requires ports > 0
  {
    && (forall uid | uid in allocs ::
          && Targets(allocs[uid], uid) && allocs[uid].ip in ips
          && IsSlotRange(ports, allocs[uid].section.port, allocs[uid].section.endPort))
    && (forall u, v | u in allocs && v in allocs && u != v ::
          SlotKey(ports, allocs[u]) != SlotKey(ports, allocs[v]))
  }

  /** The table lists exactly these allocations, each once. */
  ghost predicate Lists(t: Table, allocs: map<UID, Alloc>) {
    && NoDup(Entries(t))
    && (forall e | e in Entries(t) :: e.section.targetRef.Some? && e.section.targetRef.value.uid in allocs
                                      && allocs[e.section.targetRef.value.uid] == e)
    && (forall uid | uid in allocs :: Targets(allocs[uid], uid) && allocs[uid] in Entries(t))
  }

  ghost predicate DisjointPorts(a: Section, b: Section) {
    a.endPort < b.port || b.endPort < a.port
  }

  /**
   * What the data plane relies on: all ranges are ephemeral ports, the ranges of one IP are pairwise
   * disjoint, and no interface has two sections.
   */
  ghost predicate Safe(t: Table) {
    var es := Entries(t);
    && (forall i | 0 <= i < |es| ::
          && es[i].section.targetRef.Some?
          && MIN_EPHEMERAL_PORT <= es[i].section.port <= es[i].section.endPort <= MAX_EPHEMERAL_PORT)
    && (forall i, j | 0 <= i < j < |es| ::
          && es[i].section.targetRef.value.uid != es[j].section.targetRef.value.uid
          && (es[i].ip == es[j].ip ==> DisjointPorts(es[i].section, es[j].section)))
  }

  lemma DistinctSlotsDisjoint(ports: nat, a: Section, b: Section)
    requires ports > 0
    requires IsSlotRange(ports, a.port, a.endPort) && IsSlotRange(ports, b.port, b.endPort)
    requires SlotAt(ports, a.port) != SlotAt(ports, b.port)
    ensures DisjointPorts(a, b)
  {
    if SlotAt(ports, a.port) < SlotAt(ports, b.port) {
      SlotRangesDisjoint(ports, SlotAt(ports, a.port), SlotAt(ports, b.port));
    } else {
      SlotRangesDisjoint(ports, SlotAt(ports, b.port), SlotAt(ports, a.port));
    }
  }

  lemma {:induction false} ConsistentIsSafe(ports: nat, ips: set<IP>, allocs: map<UID, Alloc>, t: Table)
    requires ports > 0 && Consistent(ports, ips, allocs) && Lists(t, allocs)
    ensures Safe(t)
  {
    var es := Entries(t);
    forall i | 0 <= i < |es|
      ensures es[i].section.targetRef.Some?
      ensures MIN_EPHEMERAL_PORT <= es[i].section.port <= es[i].section.endPort <= MAX_EPHEMERAL_PORT
    {
      assert es[i] in es;
      SlotRange(ports, SlotAt(ports, es[i].section.port));
    }
    forall i, j | 0 <= i < j < |es|
      ensures es[i].section.targetRef.value.uid != es[j].section.targetRef.value.uid
      ensures es[i].ip == es[j].ip ==> DisjointPorts(es[i].section, es[j].section)
    {
      assert es[i] in es && es[j] in es && es[i] != es[j];
      var u, v := es[i].section.targetRef.value.uid, es[j].section.targetRef.value.uid;
      assert SlotKey(ports, allocs[u]) != SlotKey(ports, allocs[v]);
      if es[i].ip == es[j].ip {
        DistinctSlotsDisjoint(ports, es[i].section, es[j].section);
      }
    }
  }

  /** A table has as many sections as it lists allocations. */
  lemma {:induction false} ListsCount(t: Table, allocs: map<UID, Alloc>)
    requires Lists(t, allocs)
    ensures |Entries(t)| == |allocs|
  {
    var es := Entries(t);
    var uids := seq(|es|, i requires 0 <= i < |es| && es[i].section.targetRef.Some? =>
      es[i].section.targetRef.value.uid);
    forall i | 0 <= i < |es| ensures es[i].section.targetRef.Some? && allocs[uids[i]] == es[i] {
      assert es[i] in es;
    }
    NoDupCard(uids, set x | x in uids);
    assert (set x | x in uids) == allocs.Keys by {
      forall uid | uid in allocs ensures uid in uids {
        var i :| 0 <= i < |es| && es[i] == allocs[uid];
        assert uids[i] == uid;
      }
    }
  }

  // ---- Writing a table ----

  ghost function UsedIPs(allocs: map<UID, Alloc>): set<IP> {
    set uid | uid in allocs :: allocs[uid].ip
  }

  ghost function Group(allocs: map<UID, Alloc>, ip: IP): map<UID, Section> {
    map uid | uid in allocs && allocs[uid].ip == ip :: allocs[uid].section
  }

  /** The allocations grouped by NAT IP. */
  ghost function Grouped(allocs: map<UID, Alloc>): TableData {
    map ip | ip in UsedIPs(allocs) :: Group(allocs, ip)
  }

  ghost predicate Keyed(allocs: map<UID, Alloc>) {
    forall uid | uid in allocs :: Targets(allocs[uid], uid)
  }

  /** addAlloc: `uid` is the target's UID. */
  function AddAlloc(data: TableData, ip: IP, uid: UID, section: Section): TableData {
    data[ip := (if ip in data then data[ip] else map[])[uid := section]]
  }

  lemma AddAllocGrouped(allocs: map<UID, Alloc>, uid: UID, e: Alloc)
    requires uid !in allocs
    ensures AddAlloc(Grouped(allocs), e.ip, uid, e.section) == Grouped(allocs[uid := e])
  {
    var more := allocs[uid := e];
    assert UsedIPs(more) == UsedIPs(allocs) + {e.ip} by {
      assert more[uid].ip == e.ip;
      assert forall u | u in allocs :: more[u] == allocs[u];
    }
    assert Group(more, e.ip) == Group(allocs, e.ip)[uid := e.section];
    assert e.ip !in UsedIPs(allocs) ==> Group(allocs, e.ip) == map[];
    forall ip | ip != e.ip ensures Group(more, ip) == Group(allocs, ip) {
    }
  }

  predicate ByPort(a: Section, b: Section) {
    a.port < b.port
  }

  predicate ByIP(a: NATIP, b: NATIP) {
    IPLess(a.ip, b.ip)
  }

  /** `sections` is the group `group`, each member once, in port order. */
  ghost predicate GroupWritten(sections: seq<Section>, group: map<UID, Section>) {
    && Sorted(ByPort, sections) && NoDup(sections)
    && (forall s | s in sections :: s.targetRef.Some? && s.targetRef.value.uid in group && group[s.targetRef.value.uid] == s)
    && (forall uid | uid in group :: group[uid] in sections)
  }

  /** The canonical form: IPs in strictly increasing order, each with its group. */
  ghost predicate IsTableOf(t: Table, data: TableData) {
    && StrictlySorted(ByIP, t)
    && (forall i | 0 <= i < |t| :: t[i].ip in data && GroupWritten(t[i].sections, data[t[i].ip]))
    && (forall ip | ip in data :: exists i :: 0 <= i < |t| && t[i].ip == ip)
  }

  method WriteGroup(group: map<UID, Section>) returns (sections: seq<Section>)
    requires forall uid | uid in group :: group[uid].targetRef.Some? && group[uid].targetRef.value.uid == uid
    ensures GroupWritten(sections, group)
  {
    var rest := group.Keys;
    var ss: seq<Section> := [];
    while rest != {}
      invariant rest <= group.Keys
      invariant forall s | s in ss :: s.targetRef.Some? && s.targetRef.value.uid in group.Keys - rest
                                      && group[s.targetRef.value.uid] == s
      invariant forall uid | uid in group.Keys - rest :: group[uid] in ss
      invariant NoDup(ss)
    {
      var uid :| uid in rest;
      assert group[uid] !in ss;
      ss := ss + [group[uid]];
      rest := rest - {uid};
    }
    sections := Sort(ByPort, ss);
    NoDupPermutation(ss, sections);
    SameElements(ss, sections);
  }

  /** Both Go maps are ranged over in an unspecified order. */
  method ApplyTable(data: TableData) returns (t: Table)
    requires forall ip, uid | ip in data && uid in data[ip] ::
      data[ip][uid].targetRef.Some? && data[ip][uid].targetRef.value.uid == uid
    ensures IsTableOf(t, data)
  {
    var rest := data.Keys;
    var ns: seq<NATIP> := [];
    while rest != {}
      invariant rest <= data.Keys
      invariant forall n | n in ns :: n.ip in data.Keys - rest && GroupWritten(n.sections, data[n.ip])
      invariant forall ip | ip in data :: ip in rest || exists i :: 0 <= i < |ns| && ns[i].ip == ip
      invariant forall i, j | 0 <= i < j < |ns| :: ns[i].ip != ns[j].ip
    {
      var ip :| ip in rest;
      var sections := WriteGroup(data[ip]);
      ghost var before := ns;
      ns := ns + [NATIP(ip, sections)];
      assert ns[|before|].ip == ip && forall i | 0 <= i < |before| :: ns[i] == before[i];
      rest := rest - {ip};
    }
    t := Sort(ByIP, ns);
    SortedTable(ns, t);
    forall ip | ip in data ensures exists i :: 0 <= i < |t| && t[i].ip == ip {
      var k :| 0 <= k < |ns| && ns[k].ip == ip;
      assert ns[k] in t;
    }
    assert forall i | 0 <= i < |t| :: t[i] in ns;
  }

  lemma SortedTable(ns: seq<NATIP>, t: Table)
    requires Sorted(ByIP, t) && multiset(t) == multiset(ns)
    requires forall i, j | 0 <= i < j < |ns| :: ns[i].ip != ns[j].ip
    ensures StrictlySorted(ByIP, t) && forall n :: n in ns <==> n in t
  {
    NoDupPermutation(ns, t);
    SameElements(ns, t);
    forall i, j | 0 <= i < j < |t| ensures ByIP(t[i], t[j]) {
      assert t[i] in ns && t[j] in ns && t[i] != t[j];
      assert t[i].ip != t[j].ip;
    }
  }

  lemma {:induction false} EntriesNoDup(t: Table)
    requires forall i, j | 0 <= i < j < |t| :: t[i].ip != t[j].ip
    requires forall i | 0 <= i < |t| :: NoDup(t[i].sections)
    ensures NoDup(Entries(t))
  {
    if t != [] {
      var n := |t| - 1;
      EntriesNoDup(t[..n]);
      var a, b := Entries(t[..n]), EntriesOf(t[n]);
      forall i, j | 0 <= i < |a| && 0 <= j < |b| ensures a[i] != b[j] {
        EntriesMember(t[..n], a[i]);
        assert a[i] in a;
      }
    }
  }

  /** The written table lists exactly the allocations held in the working map. */
  lemma {:induction false} TableLists(t: Table, allocs: map<UID, Alloc>)
    requires Keyed(allocs) && IsTableOf(t, Grouped(allocs))
    ensures Lists(t, allocs)
  {
    var data := Grouped(allocs);
    forall i, j | 0 <= i < j < |t| ensures t[i].ip != t[j].ip {
      assert ByIP(t[i], t[j]);
    }
    EntriesNoDup(t);
    forall e | e in Entries(t)
      ensures e.section.targetRef.Some? && e.section.targetRef.value.uid in allocs
      ensures allocs[e.section.targetRef.value.uid] == e
    {
      EntriesMember(t, e);
    }
    forall uid | uid in allocs ensures allocs[uid] in Entries(t) {
      var e := allocs[uid];
      assert e.ip in data && uid in data[e.ip];
      var i :| 0 <= i < |t| && t[i].ip == e.ip;
      assert data[e.ip][uid] in t[i].sections;
      EntriesMember(t, e);
    }
  }

  /**
   * The written table depends on the allocations alone: whatever order the maps were ranged over,
   * the same allocations give the same table.
   */
  lemma TableUnique(ports: nat, ips: set<IP>, allocs: map<UID, Alloc>, t: Table, t': Table)
    requires ports > 0 && Consistent(ports, ips, allocs)
    requires IsTableOf(t, Grouped(allocs)) && IsTableOf(t', Grouped(allocs))
    ensures t == t'
  {
    forall n ensures n in t <==> n in t' {
      if n in t {
        TableSubset(ports, ips, allocs, t, t', n);
      }
      if n in t' {
        TableSubset(ports, ips, allocs, t', t, n);
      }
    }
    StrictlySortedUnique(ByIP, t, t');
  }

  lemma TableSubset(ports: nat, ips: set<IP>, allocs: map<UID, Alloc>, t: Table, t': Table, n: NATIP)
    requires ports > 0 && Consistent(ports, ips, allocs)
    requires IsTableOf(t, Grouped(allocs)) && IsTableOf(t', Grouped(allocs)) && n in t
    ensures n in t'
  {
    var j :| 0 <= j < |t'| && t'[j].ip == n.ip;
    GroupStrict(ports, ips, allocs, n.ip, n.sections);
    GroupStrict(ports, ips, allocs, n.ip, t'[j].sections);
    StrictlySortedUnique(ByPort, n.sections, t'[j].sections);
  }

  /** Sections of one IP have different first ports, so port order is strict. */
  lemma GroupStrict(ports: nat, ips: set<IP>, allocs: map<UID, Alloc>, ip: IP, sections: seq<Section>)
    requires ports > 0 && Consistent(ports, ips, allocs)
    requires ip in Grouped(allocs) && GroupWritten(sections, Grouped(allocs)[ip])
    ensures StrictlySorted(ByPort, sections)
  {
    forall i, j | 0 <= i < j < |sections| ensures ByPort(sections[i], sections[j]) {
      var a, b := sections[i], sections[j];
      assert a in sections && b in sections && a != b;
      var u, v := a.targetRef.value.uid, b.targetRef.value.uid;
      assert SlotKey(ports, allocs[u]) != SlotKey(ports, allocs[v]);
    }
  }

  // ---- Looking an interface up ----

  ghost function FirstMatch(es: seq<Alloc>, uid: UID): Option<Alloc> {
    if es == [] then None
    else if Targets(es[0], uid) then Some(es[0])
    else FirstMatch(es[1..], uid)
  }

  lemma {:induction false} FirstMatchIn(es: seq<Alloc>, uid: UID)
    ensures FirstMatch(es, uid).Some? ==> FirstMatch(es, uid).value in es && Targets(FirstMatch(es, uid).value, uid)
    ensures FirstMatch(es, uid).None? <==> forall e | e in es :: !Targets(e, uid)
  {
    if es != [] {
      FirstMatchIn(es[1..], uid);
      assert forall e :: e in es <==> e == es[0] || e in es[1..];
    }
  }

  lemma {:induction false} FirstMatchAppend(a: seq<Alloc>, b: seq<Alloc>, uid: UID)
    ensures FirstMatch(a + b, uid) == if FirstMatch(a, uid).Some? then FirstMatch(a, uid) else FirstMatch(b, uid)
  {
    if a == [] {
      assert a + b == b;
    } else {
      FirstMatchAppend(a[1..], b, uid);
      assert (a + b)[1..] == a[1..] + b;
    }
  }

  /** The consumer's search: the first section, in table order, that targets the interface. */
  method Lookup(t: Table, uid: UID) returns (r: Option<Alloc>)
    ensures r == FirstMatch(Entries(t), uid)
  {
    for i := 0 to |t|
      invariant FirstMatch(Entries(t[..i]), uid).None?
    {
      ghost var es := EntriesOf(t[i]);
      for j := 0 to |t[i].sections|
        invariant FirstMatch(es[..j], uid).None?
      {
        FirstMatchAppend(es[..j], [es[j]], uid);
        assert es[..j + 1] == es[..j] + [es[j]];
        var ref := t[i].sections[j].targetRef;
        if ref.None? || ref.value.uid != uid {
          continue;
        }
        FirstMatchAppend(Entries(t[..i]), es, uid);
        FirstMatchAppend(es[..j + 1], es[j + 1..], uid);
        assert es == es[..j + 1] + es[j + 1..];
        EntriesSplit(t, i, uid);
        return Some(Alloc(t[i].ip, t[i].sections[j]));
      }
      assert es[..|es|] == es;
      FirstMatchAppend(Entries(t[..i]), es, uid);
      assert t[..i + 1][..i] == t[..i];
    }
    assert t[..|t|] == t;
    return None;
  }

  /** A match found in a prefix of the table is the match of the whole table. */
  lemma {:induction false} EntriesSplit(t: Table, i: nat, uid: UID)
    requires i < |t|
    requires FirstMatch(Entries(t[..i]) + EntriesOf(t[i]), uid).Some?
    ensures FirstMatch(Entries(t), uid) == FirstMatch(Entries(t[..i]) + EntriesOf(t[i]), uid)
  {
    var n := |t| - 1;
    if i < n {
      assert t[..n][..i] == t[..i];
      EntriesSplit(t[..n], i, uid);
      FirstMatchAppend(Entries(t[..n]), EntriesOf(t[n]), uid);
    }
  }

  /** On a safe table two interfaces never get overlapping ranges of one IP. */
  lemma {:induction false} LookupsDisjoint(t: Table, u: UID, v: UID)
    requires Safe(t) && u != v
    ensures var a, b := FirstMatch(Entries(t), u), FirstMatch(Entries(t), v);
            a.Some? && b.Some? && a.value.ip == b.value.ip ==> DisjointPorts(a.value.section, b.value.section)
  {
    FirstMatchIn(Entries(t), u);
    FirstMatchIn(Entries(t), v);
  }
}
