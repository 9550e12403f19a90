/** Whole reconciles of a NAT gateway and runs of them: internal/controllers/natgateway_controller.go. */
module NatGateway {
  import opened Core
  import opened NatAllocation
  import opened NatInterface
  import opened NatManage
  import opened NatReadBack
  import opened NatTable

  /** A table that some earlier pass wrote, with whatever ports and addresses the gateway had then. */
  ghost predicate Written(t: Table) {
    exists ports: nat, ips: set<IP>, allocs: map<UID, Alloc> ::
      ports > 0 && Consistent(ports, ips, allocs) && Lists(t, allocs)
  }

  ghost function Existing(ports: nat, ips: set<IP>, stored: Option<Table>): map<UID, Alloc>
    requires ports > 0
  {
    if stored.None? then map[] else ReadBack(ports, ips, Entries(stored.value)).allocs
  }

  lemma ExistingConsistent(ports: nat, ips: set<IP>, stored: Option<Table>)
    requires ports > 0 && (stored.Some? ==> Written(stored.value))
    ensures Consistent(ports, ips, Existing(ports, ips, stored))
    ensures Existing(ports, ips, stored) != map[] ==> ports >= 2
  {
    if stored.Some? {
      var p: nat, s: set<IP>, allocs :| p > 0 && Consistent(p, s, allocs) && Lists(stored.value, allocs);
      hide Consistent;
      ReadBackTable(ports, ips, p, s, allocs, stored.value);
    }
  }

  /** One reconcile of an existing gateway: read the table back, pack the interfaces, write the table. */
  method Reconcile(gw: Gateway, ips: seq<IP>, stored: Option<Table>, nics: seq<Interface>, claimOk: set<UID>)
    returns (t: Table, used: nat, requests: nat, ghost allocs: map<UID, Alloc>)
    requires gw.ports > 0 && UniqueUids(nics) && (stored.Some? ==> Written(stored.value))
    ensures Managed(gw, ToSet(ips), Existing(gw.ports, ToSet(ips), stored), nics, claimOk, allocs, used, requests)
    ensures IsTableOf(t, Grouped(allocs)) && Lists(t, allocs)
    ensures Written(t) && Safe(t)
  {
    var existing := GetExistingAllocations(gw.ports, ips, stored);
    hide *;
    ExistingConsistent(gw.ports, ToSet(ips), stored);
    ExistingIs(gw.ports, ToSet(ips), stored);
    var data;
    data, used, requests := Manage(gw, ips, existing, nics, claimOk);
    allocs :| data == Grouped(allocs) && Managed(gw, ToSet(ips), existing, nics, claimOk, allocs, used, requests);
    ManagedConsistent(gw, ToSet(ips), existing, nics, claimOk, allocs, used, requests);
    GroupedKeyed(allocs);
    t := ApplyTable(data);
    TableLists(t, allocs);
    ConsistentIsSafe(gw.ports, ToSet(ips), allocs, t);
    WrittenBy(gw.ports, ToSet(ips), allocs, t);
  }

  lemma ExistingIs(ports: nat, ips: set<IP>, stored: Option<Table>)
    requires ports > 0
    ensures Existing(ports, ips, stored) == if stored.None? then map[] else ReadBack(ports, ips, Entries(stored.value)).allocs
  {
  }

  lemma ManagedConsistent(gw: Gateway, ips: set<IP>, existing: map<UID, Alloc>, nics: seq<Interface>, claimOk: set<UID>,
                          allocs: map<UID, Alloc>, used: nat, requests: nat)
    requires gw.ports > 0 && Managed(gw, ips, existing, nics, claimOk, allocs, used, requests)
    ensures Consistent(gw.ports, ips, allocs) && Keyed(allocs)
  {
    hide IsSlotRange;
    hide SlotKey;
    hide Total;
  }

  lemma GroupedKeyed(allocs: map<UID, Alloc>)
    requires Keyed(allocs)
    ensures forall ip, uid | ip in Grouped(allocs) && uid in Grouped(allocs)[ip] ::
      Grouped(allocs)[ip][uid].targetRef.Some? && Grouped(allocs)[ip][uid].targetRef.value.uid == uid
  {
  }

  lemma WrittenBy(ports: nat, ips: set<IP>, allocs: map<UID, Alloc>, t: Table)
    requires ports > 0 && Consistent(ports, ips, allocs) && Lists(t, allocs)
    ensures Written(t)
  {
  }

  // ---- Runs ----

  /**
   * One pass of a run. The gateway, its addresses, the interfaces and the outcome of every claim are
   * arbitrary. The cached read may lag: it returns the table of any earlier pass, or finds none. `applied`
   * says whether writing the table succeeded.
   */
  datatype Pass = Pass(gw: Gateway, ips: seq<IP>, nics: seq<Interface>, claimOk: set<UID>, readAt: Option<nat>, applied: bool)

  function TableRead(pass: Pass, tables: seq<Option<Table>>): Option<Table> {
    if pass.readAt.Some? && pass.readAt.value < |tables| then tables[pass.readAt.value] else None
  }

  /** The table comes from packing the pass's interfaces around what the table it read still says. */
  ghost predicate Writes(pass: Pass, tables: seq<Option<Table>>, t: Table)
    requires pass.gw.ports > 0
  {
    exists allocs: map<UID, Alloc>, used: nat, requests: nat ::
      && Managed(pass.gw, ToSet(pass.ips), Existing(pass.gw.ports, ToSet(pass.ips), TableRead(pass, tables)), pass.nics, pass.claimOk,
                 allocs, used, requests)
      && IsTableOf(t, Grouped(allocs))
  }

  /**
   * Every table written in any run that starts without a table is safe, so at no time can two
   * interfaces be given overlapping ranges of one IP. The result has one place per pass.
   */
  method Run(passes: seq<Pass>) returns (tables: seq<Option<Table>>)
    requires forall i | 0 <= i < |passes| :: passes[i].gw.ports > 0 && UniqueUids(passes[i].nics)
    ensures |tables| == |passes| && forall i | 0 <= i < |passes| :: tables[i].Some? <==> passes[i].applied
    ensures forall i | 0 <= i < |passes| && passes[i].applied :: Writes(passes[i], tables[..i], tables[i].value)
    ensures forall i | 0 <= i < |passes| && passes[i].applied :: Safe(tables[i].value)
    ensures forall i, u, v | 0 <= i < |passes| && passes[i].applied && u != v ::
      NoOverlap(FirstMatch(Entries(tables[i].value), u), FirstMatch(Entries(tables[i].value), v))
  {
    hide *;
    tables := [];
    for i := 0 to |passes|
      invariant |tables| == i && forall j | 0 <= j < i :: tables[j].Some? <==> passes[j].applied
      invariant forall j | 0 <= j < i && passes[j].applied :: Writes(passes[j], tables[..j], tables[j].value)
      invariant forall j | 0 <= j < i && passes[j].applied :: Written(tables[j].value) && Safe(tables[j].value)
    {
      var pass := passes[i];
      TableReadIs(pass, tables);
      var t, used, requests, allocs := Reconcile(pass.gw, pass.ips, TableRead(pass, tables), pass.nics, pass.claimOk);
      WritesBy(pass, tables, t, allocs, used, requests);
      ghost var before := tables;
      tables := tables + [if pass.applied then Some(t) else None];
      assert forall j | 0 <= j <= i :: tables[..j] == before[..j];
      assert before[..i] == before;
    }
    forall i, u, v | 0 <= i < |passes| && passes[i].applied && u != v
      ensures NoOverlap(FirstMatch(Entries(tables[i].value), u), FirstMatch(Entries(tables[i].value), v))
    {
      SafeLookups(tables[i].value, u, v);
    }
  }

  lemma TableReadIs(pass: Pass, tables: seq<Option<Table>>)
    ensures TableRead(pass, tables) == None || exists j :: 0 <= j < |tables| && TableRead(pass, tables) == tables[j]
  {
  }

  lemma WritesBy(pass: Pass, tables: seq<Option<Table>>, t: Table, allocs: map<UID, Alloc>, used: nat, requests: nat)
    requires pass.gw.ports > 0 && IsTableOf(t, Grouped(allocs))
    requires Managed(pass.gw, ToSet(pass.ips), Existing(pass.gw.ports, ToSet(pass.ips), TableRead(pass, tables)), pass.nics, pass.claimOk,
                     allocs, used, requests)
    ensures Writes(pass, tables, t)
  {
    hide Managed;
    hide IsTableOf;
    hide Existing;
  }

  ghost predicate NoOverlap(a: Option<Alloc>, b: Option<Alloc>) {
    a.Some? && b.Some? && a.value.ip == b.value.ip ==> DisjointPorts(a.value.section, b.value.section)
  }

  lemma SafeLookups(t: Table, u: UID, v: UID)
    requires Safe(t) && u != v
    ensures NoOverlap(FirstMatch(Entries(t), u), FirstMatch(Entries(t), v))
  {
    hide Safe;
    LookupsDisjoint(t, u, v);
  }

  // ---- Work conservation ----

  /**
   * Slots are never left idle while an interface could have them: the number of sections is the number
   * of slots or of interfaces that could be served, whichever is smaller. `used` exceeds it by the one
   * slot carried past a failed last claim, if any.
   */
  lemma WorkConserving(gw: Gateway, ips: set<IP>, existing: map<UID, Alloc>, nics: seq<Interface>, claimOk: set<UID>,
                       allocs: map<UID, Alloc>, used: nat, requests: nat)
    requires gw.ports > 0 && Managed(gw, ips, existing, nics, claimOk, allocs, used, requests)
    ensures var kept, claimed := |WithRole(gw, existing, nics, Kept)|, |WithRole(gw, existing, nics, Claimed)|;
            var won := |Won(claimOk, WithRole(gw, existing, nics, Free))|;
            |allocs| == Min(kept + claimed + won, Total(gw.ports, ips)) <= requests
    ensures |allocs| <= used <= |allocs| + 1 && used <= Total(gw.ports, ips)
    ensures (forall nic | nic in WithRole(gw, existing, nics, Free) :: nic.uid in claimOk)
            ==> |allocs| == used == Min(requests, Total(gw.ports, ips))
  {
    hide Consistent;
    hide WithRole;
    hide Won;
    hide Uids;
    hide Total;
    hide MadeFor;
    var free := WithRole(gw, existing, nics, Free);
    WonAll(claimOk, free);
    if forall nic | nic in free :: nic.uid in claimOk {
      assert forall i | 0 <= i < |free| :: free[i] in free;
    }
  }

  // ---- A second pass ----

  lemma KeptAllocs(gw: Gateway, ips: set<IP>, allocs: map<UID, Alloc>, nics: seq<Interface>, claimOk: set<UID>,
                   allocs': map<UID, Alloc>, used: nat, requests: nat)
    requires gw.ports > 0 && Managed(gw, ips, allocs, nics, claimOk, allocs', used, requests)
    requires allocs.Keys <= Uids(WithRole(gw, allocs, nics, Kept)) && UniqueUids(nics)
    ensures forall uid | uid in allocs :: uid in allocs' && allocs'[uid] == allocs[uid]
    ensures |WithRole(gw, allocs, nics, Kept)| == |allocs|
    ensures |allocs'| == |allocs| ==> allocs' == allocs
  {
    hide Consistent;
    hide WithRole;
    hide Won;
    hide MadeFor;
    hide Total;
    hide SlotInHand;
    var kept := WithRole(gw, allocs, nics, Kept);
    assert Uids(kept) == allocs.Keys;
    WithRoleMembers(gw, allocs, nics, Kept);
    UidCount(kept);
    assert |allocs.Keys| == |allocs| && |allocs'.Keys| == |allocs'|;
    CardSubset(allocs.Keys, allocs'.Keys);
  }

  /**
   * A second pass with the same addresses and at least two ports per interface: every interface that is
   * still claimed and selected keeps its section verbatim. If all of them are, the very same table is
   * written again, whatever order the maps are ranged over, if and only if it is full or nobody else can be
   * served.
   */
  lemma {:induction false} SecondPass(gw: Gateway, ips: set<IP>, allocs: map<UID, Alloc>, t: Table,
                   nics: seq<Interface>, claimOk: set<UID>, allocs': map<UID, Alloc>, used: nat, requests: nat, t': Table)
    requires gw.ports >= 2 && Consistent(gw.ports, ips, allocs) && Lists(t, allocs) && IsTableOf(t, Grouped(allocs))
    requires UniqueUids(nics) && Managed(gw, ips, Existing(gw.ports, ips, Some(t)), nics, claimOk, allocs', used, requests)
    requires IsTableOf(t', Grouped(allocs'))
    ensures forall uid | uid in Uids(WithRole(gw, allocs, nics, Kept)) :: uid in allocs && uid in allocs' && allocs'[uid] == allocs[uid]
    ensures allocs.Keys <= Uids(WithRole(gw, allocs, nics, Kept)) ==>
      (t' == t <==> || |allocs| == Total(gw.ports, ips)
                    || (WithRole(gw, allocs, nics, Claimed) == [] && Won(claimOk, WithRole(gw, allocs, nics, Free)) == []))
  {
    hide *;
    ReadBackRoundTrip(gw.ports, ips, allocs, t);
    ExistingIs(gw.ports, ips, Some(t));
    KeptVerbatim(gw, ips, allocs, nics, claimOk, allocs', used, requests);
    if allocs.Keys <= Uids(WithRole(gw, allocs, nics, Kept)) {
      SameTableIff(gw, ips, allocs, t, nics, claimOk, allocs', used, requests, t');
    }
  }

  lemma KeptVerbatim(gw: Gateway, ips: set<IP>, allocs: map<UID, Alloc>, nics: seq<Interface>, claimOk: set<UID>,
                     allocs': map<UID, Alloc>, used: nat, requests: nat)
    requires gw.ports > 0 && Managed(gw, ips, allocs, nics, claimOk, allocs', used, requests)
    ensures forall uid | uid in Uids(WithRole(gw, allocs, nics, Kept)) :: uid in allocs && uid in allocs' && allocs'[uid] == allocs[uid]
  {
    hide Consistent;
    hide WithRole;
    hide Won;
    hide Uids;
    hide Total;
    hide MadeFor;
    hide SlotInHand;
  }

  lemma {:induction false} SameTableIff(gw: Gateway, ips: set<IP>, allocs: map<UID, Alloc>, t: Table,
                     nics: seq<Interface>, claimOk: set<UID>, allocs': map<UID, Alloc>, used: nat, requests: nat, t': Table)
    requires gw.ports >= 2 && Consistent(gw.ports, ips, allocs) && Lists(t, allocs) && IsTableOf(t, Grouped(allocs))
    requires UniqueUids(nics) && Managed(gw, ips, allocs, nics, claimOk, allocs', used, requests)
    requires Existing(gw.ports, ips, Some(t)) == allocs
    requires IsTableOf(t', Grouped(allocs')) && allocs.Keys <= Uids(WithRole(gw, allocs, nics, Kept))
    ensures t' == t <==> || |allocs| == Total(gw.ports, ips)
                         || (WithRole(gw, allocs, nics, Claimed) == [] && Won(claimOk, WithRole(gw, allocs, nics, Free)) == [])
  {
    hide *;
    KeptAllocs(gw, ips, allocs, nics, claimOk, allocs', used, requests);
    WorkConserving(gw, ips, allocs, nics, claimOk, allocs', used, requests);
    MinIs(|allocs| + |WithRole(gw, allocs, nics, Claimed)| + |Won(claimOk, WithRole(gw, allocs, nics, Free))|, Total(gw.ports, ips));
    ConsistentFits(gw, ips, allocs, nics, claimOk, allocs', used, requests);
    if allocs' == allocs {
      TableUnique(gw.ports, ips, allocs, t, t');
    }
    if t' == t {
      SameTableSameAllocs(t, allocs, allocs', gw, ips, nics, claimOk, used, requests, t');
    }
  }

  lemma MinIs(a: int, b: int)
    ensures Min(a, b) <= a && Min(a, b) <= b && (Min(a, b) == a || Min(a, b) == b)
  {
  }

  lemma ConsistentFits(gw: Gateway, ips: set<IP>, existing: map<UID, Alloc>, nics: seq<Interface>, claimOk: set<UID>,
                       allocs: map<UID, Alloc>, used: nat, requests: nat)
    requires gw.ports > 0 && Managed(gw, ips, existing, nics, claimOk, allocs, used, requests)
    ensures |WithRole(gw, existing, nics, Kept)| <= Total(gw.ports, ips)
  {
    hide Consistent;
    hide Total;
    hide WithRole;
  }

  /**
   * The interfaces after a pass that granted `gained`: those that were unclaimed now carry the gateway's
   * claim. The claims the pass releases, of interfaces it does not select or has no slot for, are gone
   * for the interfaces in `released`, an arbitrary set, since a release need not take effect.
   */
  ghost function AfterPass(gw: Gateway, nics: seq<Interface>, gained: set<UID>, released: set<UID>): seq<Interface> {
    seq(|nics|, i requires 0 <= i < |nics| => Left(gw, nics[i], gained, released))
  }

  ghost function Left(gw: Gateway, nic: Interface, gained: set<UID>, released: set<UID>): Interface {
    var claimer := Claimer(nic.nats, gw.family);
    if nic.uid in gained then
      if claimer.None? then nic.(nats := nic.nats + [NAT(gw.family, ClaimRef(gw.name, gw.uid))]) else nic
    else if nic.uid in released && claimer.Some? && claimer.value.uid == gw.uid then nic.(nats := WithoutFirst(nic.nats, gw.family))
    else nic
  }

  /** Releasing deletes the first entry of the family. */
  ghost function WithoutFirst(nats: seq<NAT>, family: IPFamily): seq<NAT> {
    if nats == [] then []
    else if nats[0].family == family then nats[1..]
    else [nats[0]] + WithoutFirst(nats[1..], family)
  }

  /** Roles after the pass, for a gateway whose table holds `allocs`. */
  lemma RoleAfterPass(gw: Gateway, existing: map<UID, Alloc>, allocs: map<UID, Alloc>, nic: Interface, released: set<UID>)
    ensures var role, role' := RoleOf(gw, existing, nic), RoleOf(gw, allocs, Left(gw, nic, allocs.Keys, released));
            && (nic.uid in allocs && (role.Kept? || role.Claimed? || role.Free?) ==> role'.Kept?)
            && (role'.Claimed? || role'.Free? ==> nic.uid !in allocs && (role.Kept? || role.Claimed? || role.Free?))
  {
    if Claimer(nic.nats, gw.family).None? {
      ClaimerAppend(nic.nats, gw.family, ClaimRef(gw.name, gw.uid));
    }
  }

  /** Everybody allocated in the first pass is re-used in the second. */
  lemma {:induction false} AllocatedBecomeKept(gw: Gateway, ips: set<IP>, existing: map<UID, Alloc>, nics: seq<Interface>, claimOk: set<UID>,
                            allocs: map<UID, Alloc>, used: nat, requests: nat, released: set<UID>)
    requires gw.ports > 0 && Managed(gw, ips, existing, nics, claimOk, allocs, used, requests)
    ensures allocs.Keys <= Uids(WithRole(gw, allocs, AfterPass(gw, nics, allocs.Keys, released), Kept))
  {
    var nics' := AfterPass(gw, nics, allocs.Keys, released);
    WithRoleMembers(gw, allocs, nics', Kept);
    forall uid | uid in allocs ensures uid in Uids(WithRole(gw, allocs, nics', Kept)) {
      var i := AllocatedFrom(gw, ips, existing, nics, claimOk, allocs, used, requests, uid);
      RoleAfterPass(gw, existing, allocs, nics[i], released);
      assert nics'[i] in nics' && nics'[i].uid == uid;
      UidOf(WithRole(gw, allocs, nics', Kept), nics'[i]);
    }
  }

  /** The interface an allocation was made for. */
  lemma {:induction false} AllocatedFrom(gw: Gateway, ips: set<IP>, existing: map<UID, Alloc>, nics: seq<Interface>, claimOk: set<UID>,
                      allocs: map<UID, Alloc>, used: nat, requests: nat, uid: UID) returns (i: nat)
    requires gw.ports > 0 && Managed(gw, ips, existing, nics, claimOk, allocs, used, requests) && uid in allocs
    ensures i < |nics| && nics[i].uid == uid
    ensures var role := RoleOf(gw, existing, nics[i]); role.Kept? || role.Claimed? || role.Free?
  {
    hide Consistent;
    hide WithRole;
    hide Won;
    hide MadeFor;
    hide Total;
    hide SlotInHand;
    hide RoleOf;
    hide Uids;
    hide Take;
    WithRoleMembers(gw, existing, nics, Kept);
    WithRoleMembers(gw, existing, nics, Claimed);
    WithRoleMembers(gw, existing, nics, Free);
    WonMembers(claimOk, WithRole(gw, existing, nics, Free));
    var kept, claimed, won := WithRole(gw, existing, nics, Kept), WithRole(gw, existing, nics, Claimed), Won(claimOk, WithRole(gw, existing, nics, Free));
    var room := Total(gw.ports, ips) - |kept|;
    TakeUids(claimed, room);
    TakeUids(won, room - |Take(claimed, room)|);
    var nic := FindUid(if uid in Uids(kept) then kept else if uid in Uids(claimed) then claimed else won, uid);
    i :| 0 <= i < |nics| && nics[i] == nic;
  }

  lemma FindUid(nics: seq<Interface>, uid: UID) returns (nic: Interface)
    requires uid in Uids(nics)
    ensures nic in nics && nic.uid == uid
  {
    var j :| 0 <= j < |nics| && nics[j].uid == uid;
    nic := nics[j];
  }

  /** If everybody got a slot, nobody is left for the second pass to serve. */
  lemma {:induction false} NobodyLeft(gw: Gateway, ips: set<IP>, existing: map<UID, Alloc>, nics: seq<Interface>, claimOk: set<UID>,
                   allocs: map<UID, Alloc>, used: nat, requests: nat, released: set<UID>, role: Role)
    requires gw.ports > 0 && Managed(gw, ips, existing, nics, claimOk, allocs, used, requests) && |allocs| == requests
    requires role == Claimed || role == Free
    ensures WithRole(gw, allocs, AfterPass(gw, nics, allocs.Keys, released), role) == []
  {
    var nics' := AfterPass(gw, nics, allocs.Keys, released);
    var left := WithRole(gw, allocs, nics', role);
    WithRoleMembers(gw, allocs, nics', role);
    if left != [] {
      assert left[0] in left;
      var i :| 0 <= i < |nics'| && nics'[i] == left[0];
      RoleAfterPass(gw, existing, allocs, nics[i], released);
      EverybodyServed(gw, ips, existing, nics, claimOk, allocs, used, requests, nics[i]);
      assert false;
    }
  }

  lemma {:induction false} EverybodyServed(gw: Gateway, ips: set<IP>, existing: map<UID, Alloc>, nics: seq<Interface>, claimOk: set<UID>,
                        allocs: map<UID, Alloc>, used: nat, requests: nat, nic: Interface)
    requires gw.ports > 0 && Managed(gw, ips, existing, nics, claimOk, allocs, used, requests) && |allocs| == requests
    requires nic in nics
    requires var role := RoleOf(gw, existing, nic); role.Kept? || role.Claimed? || role.Free?
    ensures nic.uid in allocs
  {
    hide Consistent;
    hide WithRole;
    hide Won;
    hide MadeFor;
    hide Total;
    hide SlotInHand;
    hide RoleOf;
    hide Uids;
    WithRoleMembers(gw, existing, nics, RoleOf(gw, existing, nic));
    var kept, claimed, free := WithRole(gw, existing, nics, Kept), WithRole(gw, existing, nics, Claimed), WithRole(gw, existing, nics, Free);
    WonAll(claimOk, free);
    WonWhole(claimOk, free);
    match RoleOf(gw, existing, nic) {
      case Kept => UidOf(kept, nic);
      case Claimed => UidOf(claimed, nic);
      case Free => UidOf(free, nic);
    }
  }

  lemma {:induction false} WonWhole(claimOk: set<UID>, nics: seq<Interface>)
    ensures |Won(claimOk, nics)| == |nics| ==> Won(claimOk, nics) == nics
  {
    if nics != [] {
      WonWhole(claimOk, nics[..|nics| - 1]);
      WonAll(claimOk, nics[..|nics| - 1]);
    }
  }

  /**
   * No churn: when every claim of a pass succeeded, a second pass over the interfaces it left behind
   * writes the identical table, whichever releases took effect and whatever further claims would do.
   */
  lemma {:induction false} Idempotent(gw: Gateway, ips: set<IP>, existing: map<UID, Alloc>, nics: seq<Interface>, claimOk: set<UID>,
                   allocs: map<UID, Alloc>, used: nat, requests: nat, t: Table, released: set<UID>,
                   claimOk': set<UID>, allocs': map<UID, Alloc>, used': nat, requests': nat, t': Table)
    requires gw.ports >= 2 && UniqueUids(nics)
    requires Managed(gw, ips, existing, nics, claimOk, allocs, used, requests)
    requires IsTableOf(t, Grouped(allocs)) && Lists(t, allocs)
    requires forall nic | nic in WithRole(gw, existing, nics, Free) :: nic.uid in claimOk
    requires Managed(gw, ips, Existing(gw.ports, ips, Some(t)), AfterPass(gw, nics, allocs.Keys, released), claimOk', allocs', used', requests')
    requires IsTableOf(t', Grouped(allocs'))
    ensures t' == t && allocs' == allocs
  {
    hide *;
    var nics' := AfterPass(gw, nics, allocs.Keys, released);
    AfterPassUnique(gw, nics, allocs.Keys, released);
    ManagedConsistent(gw, ips, existing, nics, claimOk, allocs, used, requests);
    AllocatedBecomeKept(gw, ips, existing, nics, claimOk, allocs, used, requests, released);
    WorkConserving(gw, ips, existing, nics, claimOk, allocs, used, requests);
    MinIs(requests, Total(gw.ports, ips));
    if |allocs| == requests {
      NobodyLeft(gw, ips, existing, nics, claimOk, allocs, used, requests, released, Claimed);
      NobodyLeft(gw, ips, existing, nics, claimOk, allocs, used, requests, released, Free);
      WonAll(claimOk', []);
    }
    SecondPass(gw, ips, allocs, t, nics', claimOk', allocs', used', requests', t');
    SameTableSameAllocs(t, allocs, allocs', gw, ips, nics', claimOk', used', requests', t');
  }

  lemma AfterPassUnique(gw: Gateway, nics: seq<Interface>, gained: set<UID>, released: set<UID>)
    requires UniqueUids(nics)
    ensures UniqueUids(AfterPass(gw, nics, gained, released))
  {
  }

  lemma {:induction false} SameTableSameAllocs(t: Table, allocs: map<UID, Alloc>, allocs': map<UID, Alloc>, gw: Gateway, ips: set<IP>,
                            nics: seq<Interface>, claimOk: set<UID>, used: nat, requests: nat, t': Table)
    requires gw.ports >= 2 && Lists(t, allocs) && IsTableOf(t', Grouped(allocs')) && t == t'
    requires Managed(gw, ips, Existing(gw.ports, ips, Some(t)), nics, claimOk, allocs', used, requests)
    ensures allocs == allocs'
  {
    hide Managed;
    hide IsTableOf;
    ManagedConsistent(gw, ips, Existing(gw.ports, ips, Some(t)), nics, claimOk, allocs', used, requests);
    TableLists(t', allocs');
    hide Consistent;
    assert allocs.Keys == allocs'.Keys;
  }
}
