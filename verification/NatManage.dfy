/** Packing interfaces into NAT slots: manageNATTable of natgateway_controller.go. */
module NatManage {
  import opened Core
  import opened NatAllocation
  import opened NatInterface
  import opened NatReadBack
  import opened NatTable

  datatype Gateway = Gateway(name: Name, uid: UID, family: IPFamily, ports: nat)

  // ---- Sorting interfaces into work lists ----

  /** The interface has an address of the gateway's family and no public IP of that family. */
  predicate Selected(gw: Gateway, nic: Interface) {
    && (exists i :: 0 <= i < |nic.ips| && HasFamily(nic.ips[i], gw.family))
    && gw.family !in nic.publicIPFamilies
  }

  datatype Role = Foreign | Kept | Claimed | ToRelease | Unwanted | Free

  function RoleOf(gw: Gateway, existing: map<UID, Alloc>, nic: Interface): Role {
    var claimer := Claimer(nic.nats, gw.family);
    if claimer.Some? then
      if claimer.value.uid != gw.uid then Foreign
      else if !Selected(gw, nic) then ToRelease
      else if nic.uid in existing then Kept
      else Claimed
    else if !Selected(gw, nic) || nic.deleting then Unwanted
    else Free
  }

  ghost function WithRole(gw: Gateway, existing: map<UID, Alloc>, nics: seq<Interface>, role: Role): seq<Interface> {
    if nics == [] then []
    else
      var nic := nics[|nics| - 1];
      WithRole(gw, existing, nics[..|nics| - 1], role) + if RoleOf(gw, existing, nic) == role then [nic] else []
  }

  ghost function Uids(nics: seq<Interface>): set<UID> {
    set i | 0 <= i < |nics| :: nics[i].uid
  }

  ghost predicate UniqueUids(nics: seq<Interface>) {
    forall i, j | 0 <= i < j < |nics| :: nics[i].uid != nics[j].uid
  }

  lemma {:induction false} WithRoleMembers(gw: Gateway, existing: map<UID, Alloc>, nics: seq<Interface>, role: Role)
    ensures forall nic :: nic in WithRole(gw, existing, nics, role) <==> nic in nics && RoleOf(gw, existing, nic) == role
    ensures UniqueUids(nics) ==> UniqueUids(WithRole(gw, existing, nics, role))
  {
    if nics != [] {
      var n := |nics| - 1;
      WithRoleMembers(gw, existing, nics[..n], role);
      assert forall nic :: nic in nics <==> nic in nics[..n] || nic == nics[n];
      var s := WithRole(gw, existing, nics[..n], role);
      if UniqueUids(nics) {
        forall i | 0 <= i < |s| ensures s[i].uid != nics[n].uid {
          assert s[i] in s;
        }
      }
    }
  }

  /** Interfaces with different roles have different UIDs. */
  lemma {:induction false} RolesApart(gw: Gateway, existing: map<UID, Alloc>, nics: seq<Interface>, a: Role, b: Role)
    requires UniqueUids(nics) && a != b
    ensures Uids(WithRole(gw, existing, nics, a)) !! Uids(WithRole(gw, existing, nics, b))
  {
    WithRoleMembers(gw, existing, nics, a);
    WithRoleMembers(gw, existing, nics, b);
    var x, y := WithRole(gw, existing, nics, a), WithRole(gw, existing, nics, b);
    forall i, j | 0 <= i < |x| && 0 <= j < |y| ensures x[i].uid != y[j].uid {
      assert x[i] in x && y[j] in y;
      assert x[i] in nics && y[j] in nics && x[i] != y[j];
    }
  }

  lemma {:induction false} UidCount(nics: seq<Interface>)
    requires UniqueUids(nics)
    ensures |Uids(nics)| == |nics|
  {
    if nics != [] {
      var n := |nics| - 1;
      UidCount(nics[..n]);
      UidsAppend(nics[..n], nics[n]);
      assert nics[..n] + [nics[n]] == nics;
    }
  }

  lemma NoRoles(gw: Gateway, existing: map<UID, Alloc>)
    ensures Uids([]) == {} && forall role :: WithRole(gw, existing, [], role) == []
  {
  }

  lemma RoleStep(gw: Gateway, existing: map<UID, Alloc>, nics: seq<Interface>, i: nat)
    requires i < |nics|
    ensures forall role ::
      WithRole(gw, existing, nics[..i + 1], role)
      == if RoleOf(gw, existing, nics[i]) == role
         then WithRole(gw, existing, nics[..i], role) + [nics[i]] else WithRole(gw, existing, nics[..i], role)
  {
    assert nics[..i + 1][..i] == nics[..i];
  }

  lemma UidsAppend(nics: seq<Interface>, nic: Interface)
    ensures Uids(nics + [nic]) == Uids(nics) + {nic.uid}
  {
    var all := nics + [nic];
    assert all[|nics|] == nic && forall i | 0 <= i < |nics| :: all[i] == nics[i];
    forall uid | uid in Uids(nics) + {nic.uid} ensures uid in Uids(all) {
      if uid != nic.uid {
        var i :| 0 <= i < |nics| && nics[i].uid == uid;
        assert all[i].uid == uid;
      }
    }
  }

  // ---- Allocating ----

  function NewAlloc(gw: Gateway, nic: Interface, ip: IP, port: int, endPort: int): Alloc {
    Alloc(ip, Section(FamilyIP(nic.ips, gw.family), port, endPort, Some(TargetRef(nic.uid, nic.name, nic.nodeRef))))
  }

  /** The allocation is one made for this interface, wherever it was placed. */
  ghost predicate MadeFor(gw: Gateway, nic: Interface, e: Alloc) {
    e == NewAlloc(gw, nic, e.ip, e.section.port, e.section.endPort)
  }

  ghost function SlotsOf(ports: nat, allocs: map<UID, Alloc>): set<(IP, nat)>
    requires ports > 0
  {
    set uid | uid in allocs :: SlotKey(ports, allocs[uid])
  }

  /** The taken slots are those of the allocations and `spare`; the working map groups the allocations. */
  ghost predicate Packed(ports: nat, ips: set<IP>, taken: set<(IP, nat)>, data: TableData, allocs: map<UID, Alloc>, spare: set<(IP, nat)>) {
    && ports > 0 && Consistent(ports, ips, allocs) && data == Grouped(allocs)
    && taken == SlotsOf(ports, allocs) + spare && SlotsOf(ports, allocs) !! spare
    && |taken| == |allocs| + |spare|
  }

  lemma SlotsOfAdd(ports: nat, allocs: map<UID, Alloc>, uid: UID, e: Alloc)
    requires ports > 0 && uid !in allocs
    ensures SlotsOf(ports, allocs[uid := e]) == SlotsOf(ports, allocs) + {SlotKey(ports, e)}
  {
    hide SlotKey;
    var more := allocs[uid := e];
    assert more[uid] == e && forall u | u in allocs :: more[u] == allocs[u];
    forall k | k in SlotsOf(ports, allocs) + {SlotKey(ports, e)} ensures k in SlotsOf(ports, more) {
      if k in SlotsOf(ports, allocs) {
        var u :| u in allocs && k == SlotKey(ports, allocs[u]);
        assert more[u] == allocs[u];
      }
    }
  }

  lemma ConsistentAdd(ports: nat, ips: set<IP>, allocs: map<UID, Alloc>, uid: UID, e: Alloc)
    requires ports > 0 && Consistent(ports, ips, allocs) && uid !in allocs
    requires Targets(e, uid) && e.ip in ips && IsSlotRange(ports, e.section.port, e.section.endPort)
    requires SlotKey(ports, e) !in SlotsOf(ports, allocs)
    ensures Consistent(ports, ips, allocs[uid := e])
  {
    hide IsSlotRange;
    hide SlotKey;
    assert forall u | u in allocs :: SlotKey(ports, allocs[u]) in SlotsOf(ports, allocs);
  }

  /** Giving a slot that no allocation has to a new target. */
  lemma PackedAdd(ports: nat, ips: set<IP>, taken: set<(IP, nat)>, data: TableData, allocs: map<UID, Alloc>, uid: UID, e: Alloc)
    requires ports > 0 && Packed(ports, ips, taken, data, allocs, {SlotKey(ports, e)}) && uid !in allocs
    requires Targets(e, uid) && e.ip in ips && IsSlotRange(ports, e.section.port, e.section.endPort)
    ensures Packed(ports, ips, taken, AddAlloc(data, e.ip, uid, e.section), allocs[uid := e], {})
    ensures |allocs[uid := e]| == |allocs| + 1
  {
    hide Consistent;
    hide SlotsOf;
    hide Grouped;
    hide SlotKey;
    hide IsSlotRange;
    hide Targets;
    hide AddAlloc;
    AddAllocGrouped(allocs, uid, e);
    ConsistentAdd(ports, ips, allocs, uid, e);
    SlotsOfAdd(ports, allocs, uid, e);
    OneMore(allocs, uid, e);
  }

  lemma OneMore(allocs: map<UID, Alloc>, uid: UID, e: Alloc)
    requires uid !in allocs
    ensures |allocs[uid := e]| == |allocs| + 1
  {
    assert allocs[uid := e].Keys == allocs.Keys + {uid};
  }

  lemma PackedSize(ports: nat, ips: set<IP>, taken: set<(IP, nat)>, data: TableData, allocs: map<UID, Alloc>, spare: set<(IP, nat)>)
    requires Packed(ports, ips, taken, data, allocs, spare)
    ensures ports > 0 && |taken| == |allocs| + |spare|
  {
  }

  lemma PackedParts(ports: nat, ips: set<IP>, taken: set<(IP, nat)>, data: TableData, allocs: map<UID, Alloc>, spare: set<(IP, nat)>)
    requires Packed(ports, ips, taken, data, allocs, spare)
    ensures ports > 0 && Consistent(ports, ips, allocs) && data == Grouped(allocs) && |taken| == |allocs| + |spare|
  {
  }

  /** Taking one more slot. */
  lemma PackedTake(ports: nat, ips: set<IP>, taken: set<(IP, nat)>, data: TableData, allocs: map<UID, Alloc>, slot: (IP, nat))
    requires Packed(ports, ips, taken, data, allocs, {}) && slot !in taken
    ensures Packed(ports, ips, taken + {slot}, data, allocs, {slot})
  {
  }

  lemma PackedEmpty(ports: nat, ips: set<IP>)
    requires ports > 0
    ensures Packed(ports, ips, {}, map[], map[], {})
  {
    assert Grouped(map[]) == map[];
  }

  /** What the first loop has sorted out of the interfaces `nics`. */
  ghost predicate SortedOut(gw: Gateway, existing: map<UID, Alloc>, nics: seq<Interface>, claimed: seq<Interface>, free: seq<Interface>,
                            allocs: map<UID, Alloc>, requests: nat) {
    && claimed == WithRole(gw, existing, nics, Claimed) && free == WithRole(gw, existing, nics, Free)
    && allocs.Keys == Uids(WithRole(gw, existing, nics, Kept))
    && (forall uid | uid in allocs :: uid in existing && allocs[uid] == existing[uid])
    && requests == |allocs| + |claimed| + |free|
  }

  /** An interface that keeps its section. */
  lemma SortKept(gw: Gateway, existing: map<UID, Alloc>, nics: seq<Interface>, i: nat, claimed: seq<Interface>, free: seq<Interface>,
                 allocs: map<UID, Alloc>, requests: nat)
    requires UniqueUids(nics) && i < |nics| && SortedOut(gw, existing, nics[..i], claimed, free, allocs, requests)
    requires RoleOf(gw, existing, nics[i]) == Kept
    ensures nics[i].uid in existing && nics[i].uid !in allocs
    ensures forall uid | uid in allocs :: uid in existing && allocs[uid] == existing[uid]
    ensures SortedOut(gw, existing, nics[..i + 1], claimed, free, allocs[nics[i].uid := existing[nics[i].uid]], requests + 1)
  {
    hide Uids;
    hide WithRole;
    hide Selected;
    RoleStep(gw, existing, nics, i);
    NewKept(gw, existing, nics, i);
    UidsAppend(WithRole(gw, existing, nics[..i], Kept), nics[i]);
    OneMore(allocs, nics[i].uid, existing[nics[i].uid]);
  }

  /** Any other interface goes to the list of its role, if it has one. */
  lemma SortOther(gw: Gateway, existing: map<UID, Alloc>, nics: seq<Interface>, i: nat, claimed: seq<Interface>, free: seq<Interface>,
                  allocs: map<UID, Alloc>, requests: nat, role: Role)
    requires i < |nics| && SortedOut(gw, existing, nics[..i], claimed, free, allocs, requests)
    requires RoleOf(gw, existing, nics[i]) == role && role != Kept
    ensures SortedOut(gw, existing, nics[..i + 1], if role == Claimed then claimed + [nics[i]] else claimed,
                      if role == Free then free + [nics[i]] else free, allocs, if role == Claimed || role == Free then requests + 1 else requests)
  {
    hide Uids;
    hide WithRole;
    hide RoleOf;
    RoleStep(gw, existing, nics, i);
  }

  /** The first loop: re-use what is already granted and build the work lists. */
  method SortOut(gw: Gateway, ips: seq<IP>, existing: map<UID, Alloc>, nics: seq<Interface>)
    returns (mgr: AllocationManager, data: TableData, claimed: seq<Interface>, free: seq<Interface>, requests: nat,
             ghost allocs: map<UID, Alloc>)
    requires gw.ports > 0 && UniqueUids(nics)
    requires Consistent(gw.ports, ToSet(ips), existing) && (existing != map[] ==> gw.ports >= 2)
    ensures fresh(mgr) && fresh(mgr.slots) && mgr.ports == gw.ports && mgr.Valid() && mgr.IPs() == ToSet(ips)
    ensures Packed(mgr.ports, mgr.IPs(), mgr.Taken(), data, allocs, {})
    ensures claimed == WithRole(gw, existing, nics, Claimed) && free == WithRole(gw, existing, nics, Free)
    ensures allocs.Keys == Uids(WithRole(gw, existing, nics, Kept))
    ensures forall uid | uid in allocs :: uid in existing && allocs[uid] == existing[uid]
    ensures requests == |allocs| + |claimed| + |free|
  {
    hide *;
    mgr := new AllocationManager(gw.ports, ips);
    ToSetIs(ips);
    data, claimed, free, requests, allocs := map[], [], [], 0, map[];
    SortNone(gw, existing);
    PackedEmpty(gw.ports, ToSet(ips));
    for i := 0 to |nics|
      invariant fresh(mgr.slots) && mgr.Valid() && mgr.IPs() == ToSet(ips) && Packed(mgr.ports, mgr.IPs(), mgr.Taken(), data, allocs, {})
      invariant SortedOut(gw, existing, nics[..i], claimed, free, allocs, requests)
    {
      var nic := nics[i];
      ghost var role := RoleOf(gw, existing, nic);
      RoleCases(gw, existing, nic);
      var claimer := Claimer(nic.nats, gw.family);
      if claimer.Some? {
        if claimer.value.uid != gw.uid {
          SortOther(gw, existing, nics, i, claimed, free, allocs, requests, role);
          continue;
        }
        if Selected(gw, nic) {
          if nic.uid in existing {
            SortKept(gw, existing, nics, i, claimed, free, allocs, requests);
            requests := requests + 1;
            data, allocs := Reuse(mgr, data, allocs, existing, nic.uid);
            continue;
          }
          SortOther(gw, existing, nics, i, claimed, free, allocs, requests, role);
          requests := requests + 1;
          claimed := claimed + [nic];
          continue;
        }
        // Not matched any more: the claim is released, which leaves the table alone.
        SortOther(gw, existing, nics, i, claimed, free, allocs, requests, role);
        continue;
      }
      SortOther(gw, existing, nics, i, claimed, free, allocs, requests, role);
      if !Selected(gw, nic) || nic.deleting {
        continue;
      }
      requests := requests + 1;
      free := free + [nic];
    }
    assert nics[..|nics|] == nics;
    SortDone(gw, existing, nics, claimed, free, allocs, requests);
  }

  lemma ToSetIs(ips: seq<IP>)
    ensures ToSet(ips) == set ip | ip in ips
  {
  }

  lemma SortNone(gw: Gateway, existing: map<UID, Alloc>)
    ensures forall nics: seq<Interface> :: SortedOut(gw, existing, nics[..0], [], [], map[], 0)
  {
    NoRoles(gw, existing);
  }

  lemma SortDone(gw: Gateway, existing: map<UID, Alloc>, nics: seq<Interface>, claimed: seq<Interface>, free: seq<Interface>,
                 allocs: map<UID, Alloc>, requests: nat)
    requires SortedOut(gw, existing, nics, claimed, free, allocs, requests)
    ensures claimed == WithRole(gw, existing, nics, Claimed) && free == WithRole(gw, existing, nics, Free)
    ensures allocs.Keys == Uids(WithRole(gw, existing, nics, Kept))
    ensures forall uid | uid in allocs :: uid in existing && allocs[uid] == existing[uid]
    ensures requests == |allocs| + |claimed| + |free|
  {
  }

  /** The branches of the loop are the cases of the role. */
  lemma RoleCases(gw: Gateway, existing: map<UID, Alloc>, nic: Interface)
    ensures var claimer, role := Claimer(nic.nats, gw.family), RoleOf(gw, existing, nic);
            && (claimer.Some? && claimer.value.uid != gw.uid ==> role == Foreign)
            && (claimer.Some? && claimer.value.uid == gw.uid ==>
                  role == if !Selected(gw, nic) then ToRelease else if nic.uid in existing then Kept else Claimed)
            && (claimer.None? ==> role == if !Selected(gw, nic) || nic.deleting then Unwanted else Free)
  {
  }

  lemma NewKept(gw: Gateway, existing: map<UID, Alloc>, nics: seq<Interface>, i: nat)
    requires UniqueUids(nics) && i < |nics|
    ensures nics[i].uid !in Uids(WithRole(gw, existing, nics[..i], Kept))
  {
    WithRoleMembers(gw, existing, nics[..i], Kept);
    var s := WithRole(gw, existing, nics[..i], Kept);
    forall j | 0 <= j < |s| ensures s[j].uid != nics[i].uid {
      assert s[j] in s;
    }
  }

  /** An allocation to be re-used is recognised, and its slot is not taken yet. */
  lemma ExistingSlot(ports: nat, ips: set<IP>, taken: set<(IP, nat)>, data: TableData, allocs: map<UID, Alloc>, existing: map<UID, Alloc>, uid: UID)
    requires Packed(ports, ips, taken, data, allocs, {}) && ports >= 2 && Consistent(ports, ips, existing)
    requires uid in existing && uid !in allocs
    requires forall u | u in allocs :: u in existing && allocs[u] == existing[u]
    ensures var e := existing[uid];
            && SlotForPorts(ports, e.section.port, e.section.endPort) == Some(SlotKey(ports, e).1)
            && SlotKey(ports, e).0 == e.ip && e.ip in ips && SlotKey(ports, e) !in taken
            && Targets(e, uid) && IsSlotRange(ports, e.section.port, e.section.endPort)
  {
    hide Grouped;
    hide FirstPort;
    hide EndPort;
    hide SlotsPerIP;
    hide SlotAt;
    SlotForOwnRange(ports, SlotAt(ports, existing[uid].section.port));
  }

  method Reuse(mgr: AllocationManager, data: TableData, ghost allocs: map<UID, Alloc>, existing: map<UID, Alloc>, uid: UID)
    returns (data': TableData, ghost allocs': map<UID, Alloc>)
    requires mgr.Valid() && Packed(mgr.ports, mgr.IPs(), mgr.Taken(), data, allocs, {})
    requires Consistent(mgr.ports, mgr.IPs(), existing) && mgr.ports >= 2
    requires uid in existing && uid !in allocs
    requires forall u | u in allocs :: u in existing && allocs[u] == existing[u]
    modifies mgr.slots
    ensures mgr.Valid() && mgr.IPs() == old(mgr.IPs())
    ensures allocs' == allocs[uid := existing[uid]] && |allocs'| == |allocs| + 1 && Packed(mgr.ports, mgr.IPs(), mgr.Taken(), data', allocs', {})
  {
    hide *;
    var e := existing[uid];
    ExistingSlot(mgr.ports, mgr.IPs(), mgr.Taken(), data, allocs, existing, uid);
    PackedTake(mgr.ports, mgr.IPs(), mgr.Taken(), data, allocs, SlotKey(mgr.ports, e));
    var _ := mgr.Use(e.ip, e.section.port, e.section.endPort);
    PackedAdd(mgr.ports, mgr.IPs(), mgr.Taken(), data, allocs, uid, e);
    data' := AddAlloc(data, e.ip, uid, e.section);
    allocs' := allocs[uid := e];
  }

  /** At most the first `n` elements. */
  function Take<T>(s: seq<T>, n: int): (r: seq<T>)
    ensures |r| == Max(0, Min(n, |s|))
  {
    if n <= 0 then [] else if n >= |s| then s else s[..n]
  }

  lemma TakeStep<T>(s: seq<T>, i: nat, n: nat)
    requires i < |s|
    ensures Take(s[..i + 1], n) == if i < n then s[..i] + [s[i]] else Take(s[..i], n)
    ensures i <= n ==> Take(s[..i], n) == s[..i]
  {
    if n <= i {
      assert s[..i + 1][..n] == s[..i][..n];
    }
  }

  lemma TakeSize<T>(s: seq<T>, n: nat)
    ensures |Take(s, n)| == Min(n, |s|) <= n
    ensures |s| >= n ==> |Take(s, n)| == n
  {
  }

  lemma TakeNone<T>(s: seq<T>, n: nat)
    ensures Take(s[..0], n) == [] && s[..|s|] == s
  {
  }

  /** `after` is `before` plus one new allocation for each of `nics`. */
  ghost predicate Extends(gw: Gateway, before: map<UID, Alloc>, after: map<UID, Alloc>, nics: seq<Interface>) {
    && (forall uid :: uid in after <==> uid in before || uid in Uids(nics))
    && (forall uid | uid in before :: after[uid] == before[uid])
    && (forall nic | nic in nics :: nic.uid in after && MadeFor(gw, nic, after[nic.uid]))
  }

  lemma ExtendsNone(gw: Gateway, before: map<UID, Alloc>)
    ensures Extends(gw, before, before, [])
  {
  }

  lemma ExtendsAdd(gw: Gateway, before: map<UID, Alloc>, after: map<UID, Alloc>, nics: seq<Interface>, nic: Interface, e: Alloc)
    requires Extends(gw, before, after, nics) && nic.uid !in after && MadeFor(gw, nic, e)
    ensures Extends(gw, before, after[nic.uid := e], nics + [nic])
  {
    hide MadeFor;
    hide Uids;
    var more := after[nic.uid := e];
    UidsAppend(nics, nic);
    assert forall uid | uid in before :: more[uid] == after[uid];
  }

  /** The slot number of a handed-out range. */
  ghost function SlotNo(ports: nat, port: int): nat
    requires ports > 0
  {
    if SlotAt(ports, port) >= 0 then SlotAt(ports, port) else 0
  }

  lemma SlotNoIs(ports: nat, port: int, endPort: int)
    requires ports > 0 && IsSlotRange(ports, port, endPort)
    ensures SlotNo(ports, port) == SlotAt(ports, port)
  {
  }

  lemma NewAllocSlot(gw: Gateway, nic: Interface, ip: IP, port: int, endPort: int)
    requires gw.ports > 0 && IsSlotRange(gw.ports, port, endPort)
    ensures var e := NewAlloc(gw, nic, ip, port, endPort);
            && SlotKey(gw.ports, e) == (ip, SlotAt(gw.ports, port)) && Targets(e, nic.uid) && MadeFor(gw, nic, e)
            && e.ip == ip && e.section.port == port && e.section.endPort == endPort
  {
  }

  lemma UidsPrefix(nics: seq<Interface>, i: nat)
    requires UniqueUids(nics) && i < |nics|
    ensures nics[i].uid in Uids(nics) && nics[i].uid !in Uids(nics[..i])
  {
  }

  /** mgr.UseNextFree: a fresh slot in hand, or none is left. */
  method TakeSlot(mgr: AllocationManager, ghost data: TableData, ghost allocs: map<UID, Alloc>)
    returns (ip: IP, port: int, endPort: int, ok: bool)
    requires mgr.Valid() && Packed(mgr.ports, mgr.IPs(), mgr.Taken(), data, allocs, {})
    modifies mgr.slots
    ensures mgr.Valid() && mgr.IPs() == old(mgr.IPs()) && mgr.ports > 0
    ensures ok <==> |allocs| < Total(mgr.ports, mgr.IPs())
    ensures !ok ==> Packed(mgr.ports, mgr.IPs(), mgr.Taken(), data, allocs, {}) && |mgr.Taken()| == Total(mgr.ports, mgr.IPs())
    ensures ok ==> ip in mgr.IPs() && IsSlotRange(mgr.ports, port, endPort)
    ensures ok ==> Packed(mgr.ports, mgr.IPs(), mgr.Taken(), data, allocs, {(ip, SlotNo(mgr.ports, port))})
  {
    hide *;
    ghost var taken := mgr.Taken();
    PackedSize(mgr.ports, mgr.IPs(), taken, data, allocs, {});
    mgr.TakenBound();
    ip, port, endPort, ok := mgr.UseNextFree();
    if ok {
      SlotNoIs(mgr.ports, port, endPort);
      PackedTake(mgr.ports, mgr.IPs(), taken, data, allocs, (ip, SlotNo(mgr.ports, port)));
    }
  }

  /** The second loop: interfaces already claimed but without an allocation, until the slots run out. */
  method AllocateClaimed(gw: Gateway, mgr: AllocationManager, before: TableData, claimed: seq<Interface>, ghost kept: map<UID, Alloc>)
    returns (data: TableData, full: bool, ghost allocs: map<UID, Alloc>)
    requires gw.ports == mgr.ports && mgr.Valid() && Packed(mgr.ports, mgr.IPs(), mgr.Taken(), before, kept, {})
    requires UniqueUids(claimed) && Uids(claimed) !! kept.Keys
    modifies mgr.slots
    ensures mgr.Valid() && mgr.IPs() == old(mgr.IPs()) && Packed(mgr.ports, mgr.IPs(), mgr.Taken(), data, allocs, {})
    ensures |kept| <= Total(gw.ports, mgr.IPs())
    ensures Extends(gw, kept, allocs, Take(claimed, Total(gw.ports, mgr.IPs()) - |kept|))
    ensures |allocs| == |kept| + |Take(claimed, Total(gw.ports, mgr.IPs()) - |kept|)|
    ensures full <==> |claimed| > Total(gw.ports, mgr.IPs()) - |kept|
  {
    hide *;
    mgr.TakenBound();
    PackedSize(mgr.ports, mgr.IPs(), mgr.Taken(), before, kept, {});
    ghost var room := Total(gw.ports, mgr.IPs()) - |kept|;
    data, full, allocs := before, false, kept;
    ExtendsNone(gw, kept);
    TakeNone(claimed, room);
    for i := 0 to |claimed|
      invariant mgr.Valid() && mgr.IPs() == old(mgr.IPs()) && Packed(mgr.ports, mgr.IPs(), mgr.Taken(), data, allocs, {})
      invariant full <==> i > room
      invariant Extends(gw, kept, allocs, Take(claimed[..i], room))
      invariant |allocs| == |kept| + |Take(claimed[..i], room)|
    {
      var nic := claimed[i];
      TakeStep(claimed, i, room);
      if !full {
        ExtendsFresh(gw, kept, allocs, claimed, i);
        var ip, port, endPort, ok := TakeSlot(mgr, data, allocs);
        if ok {
          var e := NewAlloc(gw, nic, ip, port, endPort);
          NewAllocSlot(gw, nic, ip, port, endPort);
          SlotNoIs(gw.ports, port, endPort);
          PackedAdd(mgr.ports, mgr.IPs(), mgr.Taken(), data, allocs, nic.uid, e);
          ExtendsAdd(gw, kept, allocs, claimed[..i], nic, e);
          data := AddAlloc(data, ip, nic.uid, e.section);
          allocs := allocs[nic.uid := e];
          continue;
        }
        full := true;
      }
      // No slot left: the claim is released, which leaves the table alone.
    }
    assert claimed[..|claimed|] == claimed;
  }

  lemma ExtendsFresh(gw: Gateway, before: map<UID, Alloc>, after: map<UID, Alloc>, nics: seq<Interface>, i: nat)
    requires i < |nics| && UniqueUids(nics) && Uids(nics) !! before.Keys && Extends(gw, before, after, nics[..i])
    ensures nics[i].uid !in after
  {
    UidsPrefix(nics, i);
  }

  /** The interfaces whose claim succeeds. */
  ghost function Won(claimOk: set<UID>, nics: seq<Interface>): seq<Interface> {
    if nics == [] then []
    else
      var nic := nics[|nics| - 1];
      Won(claimOk, nics[..|nics| - 1]) + if nic.uid in claimOk then [nic] else []
  }

  lemma {:induction false} WonMembers(claimOk: set<UID>, nics: seq<Interface>)
    ensures forall nic :: nic in Won(claimOk, nics) <==> nic in nics && nic.uid in claimOk
    ensures UniqueUids(nics) ==> UniqueUids(Won(claimOk, nics))
  {
    if nics != [] {
      var n := |nics| - 1;
      WonMembers(claimOk, nics[..n]);
      assert forall nic :: nic in nics <==> nic in nics[..n] || nic == nics[n];
      var s := Won(claimOk, nics[..n]);
      if UniqueUids(nics) {
        forall i | 0 <= i < |s| ensures s[i].uid != nics[n].uid {
          assert s[i] in s;
        }
      }
    }
  }

  lemma {:induction false} WonAll(claimOk: set<UID>, nics: seq<Interface>)
    ensures |Won(claimOk, nics)| <= |nics|
    ensures (forall i | 0 <= i < |nics| :: nics[i].uid in claimOk) ==> |Won(claimOk, nics)| == |nics|
  {
    if nics != [] {
      WonAll(claimOk, nics[..|nics| - 1]);
    }
  }

  lemma {:induction false} WonPrefix(claimOk: set<UID>, nics: seq<Interface>, i: nat)
    requires i <= |nics|
    ensures Won(claimOk, nics[..i]) <= Won(claimOk, nics)
    ensures Take(Won(claimOk, nics), |Won(claimOk, nics[..i])|) == Won(claimOk, nics[..i])
  {
    if i == |nics| {
      assert nics[..i] == nics;
    } else {
      var n := |nics| - 1;
      WonPrefix(claimOk, nics[..n], i);
      assert nics[..n][..i] == nics[..i];
    }
  }

  lemma WonStep(claimOk: set<UID>, nics: seq<Interface>, i: nat)
    requires i < |nics|
    ensures Won(claimOk, nics[..i + 1])
         == if nics[i].uid in claimOk then Won(claimOk, nics[..i]) + [nics[i]] else Won(claimOk, nics[..i])
  {
    assert nics[..i + 1][..i] == nics[..i];
  }

  lemma WonFresh(gw: Gateway, before: map<UID, Alloc>, after: map<UID, Alloc>, claimOk: set<UID>, nics: seq<Interface>, i: nat)
    requires i < |nics| && UniqueUids(nics) && Uids(nics) !! before.Keys
    requires Extends(gw, before, after, Won(claimOk, nics[..i]))
    ensures nics[i].uid !in after
  {
    hide MadeFor;
    WonMembers(claimOk, nics[..i]);
    UidsPrefix(nics, i);
    var s := Won(claimOk, nics[..i]);
    forall j | 0 <= j < |s| ensures s[j].uid != nics[i].uid {
      assert s[j] in s;
    }
  }

  /** Giving the slot in hand to an interface whose claim succeeded. */
  lemma Grant(gw: Gateway, ips: set<IP>, taken: set<(IP, nat)>, data: TableData, held: map<UID, Alloc>, allocs: map<UID, Alloc>,
              claimOk: set<UID>, free: seq<Interface>, i: nat, ip: IP, port: int, endPort: int)
    requires gw.ports > 0 && i < |free| && UniqueUids(free) && Uids(free) !! held.Keys && free[i].uid in claimOk
    requires Packed(gw.ports, ips, taken, data, allocs, {(ip, SlotNo(gw.ports, port))})
    requires ip in ips && IsSlotRange(gw.ports, port, endPort)
    requires Extends(gw, held, allocs, Won(claimOk, free[..i])) && |allocs| == |held| + |Won(claimOk, free[..i])|
    ensures var e := NewAlloc(gw, free[i], ip, port, endPort);
            var more := allocs[free[i].uid := e];
            && Packed(gw.ports, ips, taken, AddAlloc(data, ip, free[i].uid, e.section), more, {})
            && Extends(gw, held, more, Won(claimOk, free[..i + 1])) && |more| == |held| + |Won(claimOk, free[..i + 1])|
  {
    hide *;
    var e := NewAlloc(gw, free[i], ip, port, endPort);
    NewAllocSlot(gw, free[i], ip, port, endPort);
    SlotNoIs(gw.ports, port, endPort);
    WonFresh(gw, held, allocs, claimOk, free, i);
    PackedAdd(gw.ports, ips, taken, data, allocs, free[i].uid, e);
    ExtendsAdd(gw, held, allocs, Won(claimOk, free[..i]), free[i], e);
    WonStep(claimOk, free, i);
  }

  /** Whether a slot taken for a failed claim is still in hand when the third loop ends. */
  ghost predicate SlotInHand(claimOk: set<UID>, free: seq<Interface>, granted: nat, total: nat) {
    granted < total && free != [] && free[|free| - 1].uid !in claimOk
  }

  /** What is taken without an allocation: nothing, or the slot in hand. */
  ghost function Spare(ports: nat, none: bool, ip: IP, port: int): set<(IP, nat)>
    requires ports > 0
  {
    if none then {} else {(ip, SlotNo(ports, port))}
  }

  lemma SpareIs(ports: nat, ip: IP, port: int)
    requires ports > 0
    ensures Spare(ports, true, ip, port) == {} && Spare(ports, false, ip, port) == {(ip, SlotNo(ports, port))}
  {
  }

  /** What the third loop leaves behind when it ends with the interfaces before `i` done. */
  lemma FreeDone(gw: Gateway, ips: set<IP>, taken: set<(IP, nat)>, data: TableData, held: map<UID, Alloc>, allocs: map<UID, Alloc>,
                 claimOk: set<UID>, free: seq<Interface>, i: nat, none: bool, ip: IP, port: int)
    requires gw.ports > 0 && Packed(gw.ports, ips, taken, data, allocs, Spare(gw.ports, none, ip, port))
    requires i <= |free| && Extends(gw, held, allocs, Won(claimOk, free[..i])) && |allocs| == |held| + |Won(claimOk, free[..i])|
    requires none <==> i == 0 || free[i - 1].uid in claimOk
    requires |taken| <= Total(gw.ports, ips)
    requires i < |free| ==> none && |taken| == Total(gw.ports, ips)
    ensures Consistent(gw.ports, ips, allocs) && data == Grouped(allocs)
    ensures Extends(gw, held, allocs, Take(Won(claimOk, free), Total(gw.ports, ips) - |held|))
    ensures |allocs| == |held| + |Take(Won(claimOk, free), Total(gw.ports, ips) - |held|)|
    ensures |taken| == |allocs| + if SlotInHand(claimOk, free, |allocs|, Total(gw.ports, ips)) then 1 else 0
  {
    hide Won;
    hide Extends;
    hide Consistent;
    hide Grouped;
    hide Total;
    hide SlotNo;
    hide SlotsOf;
    WonPrefix(claimOk, free, i);
    assert i == |free| ==> free[..i] == free;
  }

  lemma WonNone(claimOk: set<UID>, nics: seq<Interface>)
    ensures Won(claimOk, nics[..0]) == []
  {
  }

  /**
   * The third loop: unclaimed interfaces. A slot whose interface could not be claimed is carried over
   * to the next interface.
   */
  method AllocateFree(gw: Gateway, mgr: AllocationManager, before: TableData, free: seq<Interface>, claimOk: set<UID>,
                      ghost held: map<UID, Alloc>)
    returns (data: TableData, ghost allocs: map<UID, Alloc>)
    requires gw.ports == mgr.ports && mgr.Valid() && Packed(mgr.ports, mgr.IPs(), mgr.Taken(), before, held, {})
    requires UniqueUids(free) && Uids(free) !! held.Keys
    modifies mgr.slots
    ensures mgr.Valid() && mgr.IPs() == old(mgr.IPs()) && Consistent(gw.ports, mgr.IPs(), allocs) && data == Grouped(allocs)
    ensures Extends(gw, held, allocs, Take(Won(claimOk, free), Total(gw.ports, mgr.IPs()) - |held|))
    ensures |allocs| == |held| + |Take(Won(claimOk, free), Total(gw.ports, mgr.IPs()) - |held|)|
    ensures |mgr.Taken()| == |allocs| + if SlotInHand(claimOk, free, |allocs|, Total(gw.ports, mgr.IPs())) then 1 else 0
  {
    hide *;
    PackedSize(gw.ports, mgr.IPs(), mgr.Taken(), before, held, {});
    data, allocs := before, held;
    WonNone(claimOk, free);
    ExtendsNone(gw, held);
    var ip, port, endPort, shouldUseNextFree := NoIP, 0, 0, true;
    SpareIs(gw.ports, ip, port);
    for i := 0 to |free|
      invariant mgr.Valid() && mgr.IPs() == old(mgr.IPs())
      invariant Packed(gw.ports, mgr.IPs(), mgr.Taken(), data, allocs, Spare(gw.ports, shouldUseNextFree, ip, port))
      invariant Extends(gw, held, allocs, Won(claimOk, free[..i]))
      invariant |allocs| == |held| + |Won(claimOk, free[..i])|
      invariant shouldUseNextFree <==> i == 0 || free[i - 1].uid in claimOk
      invariant !shouldUseNextFree ==> ip in mgr.IPs() && IsSlotRange(gw.ports, port, endPort)
    {
      var nic := free[i];
      if shouldUseNextFree {
        SpareIs(gw.ports, ip, port);
        var ok;
        ip, port, endPort, ok := TakeSlot(mgr, data, allocs);
        if !ok {
          SpareIs(gw.ports, ip, port);
          FreeDone(gw, mgr.IPs(), mgr.Taken(), data, held, allocs, claimOk, free, i, true, ip, port);
          return;
        }
        shouldUseNextFree := false;
      }
      SpareIs(gw.ports, ip, port);
      if nic.uid !in claimOk {
        WonStep(claimOk, free, i);
        continue;
      }
      Grant(gw, mgr.IPs(), mgr.Taken(), data, held, allocs, claimOk, free, i, ip, port, endPort);
      var e := NewAlloc(gw, nic, ip, port, endPort);
      data := AddAlloc(data, ip, nic.uid, e.section);
      allocs := allocs[nic.uid := e];
      shouldUseNextFree := true;
    }
    mgr.TakenBound();
    FreeDone(gw, mgr.IPs(), mgr.Taken(), data, held, allocs, claimOk, free, |free|, shouldUseNextFree, ip, port);
  }

  // ---- One pass of manageNATTable ----

  /**
   * Exactly what one pass leaves: re-used allocations verbatim, then already claimed interfaces in list
   * order, then newly claimed ones in list order, as far as the slots reach.
   */
  ghost predicate Managed(gw: Gateway, ips: set<IP>, existing: map<UID, Alloc>, nics: seq<Interface>, claimOk: set<UID>,
                          allocs: map<UID, Alloc>, used: nat, requests: nat)
    requires gw.ports > 0
  {
    var total := Total(gw.ports, ips);
    var kept, claimed, free := WithRole(gw, existing, nics, Kept), WithRole(gw, existing, nics, Claimed), WithRole(gw, existing, nics, Free);
    var fromClaimed := Take(claimed, total - |kept|);
    var fromFree := Take(Won(claimOk, free), total - |kept| - |fromClaimed|);
    && Consistent(gw.ports, ips, allocs) && |kept| <= total
    && |allocs| == |kept| + |fromClaimed| + |fromFree|
    && (forall uid :: uid in allocs <==> uid in Uids(kept) || uid in Uids(fromClaimed) || uid in Uids(fromFree))
    && (forall uid | uid in Uids(kept) :: uid in existing && allocs[uid] == existing[uid])
    && (forall nic | nic in fromClaimed :: MadeFor(gw, nic, allocs[nic.uid]))
    && (forall nic | nic in fromFree :: MadeFor(gw, nic, allocs[nic.uid]))
    && requests == |kept| + |claimed| + |free|
    && used == |allocs| + if SlotInHand(claimOk, free, |allocs|, total) then 1 else 0
  }

  lemma UidOf(nics: seq<Interface>, nic: Interface)
    requires nic in nics
    ensures nic.uid in Uids(nics)
  {
  }

  lemma ExtendsTwice(gw: Gateway, kept: map<UID, Alloc>, held: map<UID, Alloc>, allocs: map<UID, Alloc>, xs: seq<Interface>, ys: seq<Interface>)
    requires Extends(gw, kept, held, xs) && Extends(gw, held, allocs, ys)
    ensures forall uid :: uid in allocs <==> uid in kept || uid in Uids(xs) || uid in Uids(ys)
    ensures forall uid | uid in kept :: allocs[uid] == kept[uid]
    ensures forall nic | nic in xs :: nic.uid in allocs && MadeFor(gw, nic, allocs[nic.uid])
    ensures forall nic | nic in ys :: nic.uid in allocs && MadeFor(gw, nic, allocs[nic.uid])
  {
    hide Uids;
    hide MadeFor;
  }

  lemma ManagedFrom(gw: Gateway, ips: set<IP>, existing: map<UID, Alloc>, nics: seq<Interface>, claimOk: set<UID>,
                    keptAllocs: map<UID, Alloc>, held: map<UID, Alloc>, allocs: map<UID, Alloc>, used: nat, requests: nat)
    requires gw.ports > 0
    requires var kept, claimed, free := WithRole(gw, existing, nics, Kept), WithRole(gw, existing, nics, Claimed), WithRole(gw, existing, nics, Free);
             var total := Total(gw.ports, ips);
             && keptAllocs.Keys == Uids(kept) && |keptAllocs| == |kept| <= total
             && (forall uid | uid in keptAllocs :: uid in existing && keptAllocs[uid] == existing[uid])
             && Extends(gw, keptAllocs, held, Take(claimed, total - |kept|))
             && |held| == |kept| + |Take(claimed, total - |kept|)|
             && Extends(gw, held, allocs, Take(Won(claimOk, free), total - |held|))
             && |allocs| == |held| + |Take(Won(claimOk, free), total - |held|)|
             && Consistent(gw.ports, ips, allocs)
             && requests == |kept| + |claimed| + |free|
             && used == |allocs| + if SlotInHand(claimOk, free, |allocs|, total) then 1 else 0
    ensures Managed(gw, ips, existing, nics, claimOk, allocs, used, requests)
  {
    hide Uids;
    hide WithRole;
    hide Won;
    hide Take;
    hide Consistent;
    hide MadeFor;
    hide SlotInHand;
    hide Total;
    hide Extends;
    var total, k := Total(gw.ports, ips), |WithRole(gw, existing, nics, Kept)|;
    ExtendsTwice(gw, keptAllocs, held, allocs, Take(WithRole(gw, existing, nics, Claimed), total - k),
                 Take(Won(claimOk, WithRole(gw, existing, nics, Free)), total - |held|));
  }

  /** The work lists: no interface is listed twice, and the lists do not overlap. */
  lemma {:induction false} ListsApart(gw: Gateway, existing: map<UID, Alloc>, nics: seq<Interface>, kept: map<UID, Alloc>)
    requires UniqueUids(nics) && kept.Keys == Uids(WithRole(gw, existing, nics, Kept))
    ensures UniqueUids(WithRole(gw, existing, nics, Claimed)) && UniqueUids(WithRole(gw, existing, nics, Free))
    ensures Uids(WithRole(gw, existing, nics, Claimed)) !! kept.Keys
    ensures |kept| == |WithRole(gw, existing, nics, Kept)|
  {
    hide WithRole;
    WithRoleMembers(gw, existing, nics, Kept);
    WithRoleMembers(gw, existing, nics, Claimed);
    WithRoleMembers(gw, existing, nics, Free);
    RolesApart(gw, existing, nics, Kept, Claimed);
    UidCount(WithRole(gw, existing, nics, Kept));
    assert |kept.Keys| == |kept|;
  }

  lemma {:induction false} StillApart(gw: Gateway, existing: map<UID, Alloc>, nics: seq<Interface>, kept: map<UID, Alloc>, held: map<UID, Alloc>, room: int)
    requires UniqueUids(nics) && kept.Keys == Uids(WithRole(gw, existing, nics, Kept))
    requires Extends(gw, kept, held, Take(WithRole(gw, existing, nics, Claimed), room))
    ensures Uids(WithRole(gw, existing, nics, Free)) !! held.Keys
  {
    hide WithRole;
    hide MadeFor;
    RolesApart(gw, existing, nics, Kept, Free);
    RolesApart(gw, existing, nics, Claimed, Free);
    TakeUids(WithRole(gw, existing, nics, Claimed), room);
  }

  lemma TakeUids(nics: seq<Interface>, n: int)
    ensures Uids(Take(nics, n)) <= Uids(nics)
  {
  }

  /** With no slot left the third loop is skipped, which is what running it would amount to. */
  lemma FullStop(gw: Gateway, held: map<UID, Alloc>, claimOk: set<UID>, free: seq<Interface>, total: nat)
    requires |held| >= total
    ensures Take(Won(claimOk, free), total - |held|) == [] && !SlotInHand(claimOk, free, |held|, total)
    ensures Extends(gw, held, held, [])
  {
  }

  method Manage(gw: Gateway, ips: seq<IP>, existing: map<UID, Alloc>, nics: seq<Interface>, claimOk: set<UID>)
    returns (data: TableData, used: nat, requests: nat)
    requires gw.ports > 0 && UniqueUids(nics)
    requires Consistent(gw.ports, ToSet(ips), existing) && (existing != map[] ==> gw.ports >= 2)
    ensures exists allocs :: data == Grouped(allocs) && Managed(gw, ToSet(ips), existing, nics, claimOk, allocs, used, requests)
  {
    hide *;
    var mgr, claimed, free;
    ghost var kept, held, allocs;
    mgr, data, claimed, free, requests, kept := SortOut(gw, ips, existing, nics);
    ListsApart(gw, existing, nics, kept);
    var full;
    data, full, held := AllocateClaimed(gw, mgr, data, claimed, kept);
    PackedParts(gw.ports, mgr.IPs(), mgr.Taken(), data, held, {});
    StillApart(gw, existing, nics, kept, held, Total(gw.ports, mgr.IPs()) - |kept|);
    allocs := held;
    if full {
      TakeSize(claimed, Total(gw.ports, mgr.IPs()) - |kept|);
      FullStop(gw, held, claimOk, free, Total(gw.ports, mgr.IPs()));
    } else {
      data, allocs := AllocateFree(gw, mgr, data, free, claimOk, held);
    }
    used := mgr.Used();
    ManagedFrom(gw, ToSet(ips), existing, nics, claimOk, kept, held, allocs, used, requests);
  }
}
