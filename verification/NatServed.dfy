/**
 * Who is served by a pass of a NAT gateway, and with what, read off the interfaces' own fields:
 * internal/controllers/natgateway_controller.go.
 */
module NatServed {
  import opened Core
  import opened NatAllocation
  import opened NatInterface
  import opened NatTable
  import opened NatManage
  import opened Sorting

  /** The first address of the family is the one at `i`. */
  ghost predicate FirstIP(ips: seq<IP>, family: IPFamily, i: int) {
    0 <= i < |ips| && ips[i].IP? && ips[i].family == family && forall j | 0 <= j < i :: ips[j].IP? ==> ips[j].family != family
  }

  /** The first NAT entry of the family is the one at `i`. */
  ghost predicate FirstNAT(nats: seq<NAT>, family: IPFamily, i: int) {
    0 <= i < |nats| && nats[i].family == family && forall j | 0 <= j < i :: nats[j].family != family
  }

  ghost predicate Ours(gw: Gateway, nic: Interface) {
    exists i :: FirstNAT(nic.nats, gw.family, i) && nic.nats[i].claimRef.uid == gw.uid
  }

  ghost predicate Unclaimed(gw: Gateway, nic: Interface) {
    forall i | 0 <= i < |nic.nats| :: nic.nats[i].family != gw.family
  }

  /** The interface has an address of the family and no public IP of it. */
  ghost predicate Wants(gw: Gateway, nic: Interface) {
    && (exists i :: 0 <= i < |nic.ips| && nic.ips[i].IP? && nic.ips[i].family == gw.family)
    && forall i | 0 <= i < |nic.publicIPFamilies| :: nic.publicIPFamilies[i] != gw.family
  }

  // ---- The searches find the first ----

  lemma {:induction false} FamilyIPFirst(ips: seq<IP>, family: IPFamily)
    ensures FamilyIP(ips, family) == NoIP <==> forall i | 0 <= i < |ips| :: ips[i].IP? ==> ips[i].family != family
    ensures forall i | FirstIP(ips, family, i) :: FamilyIP(ips, family) == ips[i]
    ensures FamilyIP(ips, family) != NoIP ==> exists i :: FirstIP(ips, family, i)
  {
    if ips != [] {
      var rest := ips[1..];
      FamilyIPFirst(rest, family);
      assert forall i | 1 <= i < |ips| :: ips[i] == rest[i - 1];
      if HasFamily(ips[0], family) {
        assert FirstIP(ips, family, 0);
      } else {
        forall i | FirstIP(ips, family, i) ensures FamilyIP(ips, family) == ips[i] {
          assert FirstIP(rest, family, i - 1);
        }
        if i :| FirstIP(rest, family, i) {
          assert FirstIP(ips, family, i + 1);
        }
      }
    }
  }

  lemma {:induction false} ClaimerFirst(nats: seq<NAT>, family: IPFamily)
    ensures forall i | FirstNAT(nats, family, i) :: Claimer(nats, family) == Some(nats[i].claimRef)
    ensures Claimer(nats, family).Some? ==> exists i :: FirstNAT(nats, family, i)
  {
    if nats != [] {
      var rest := nats[1..];
      ClaimerFirst(rest, family);
      assert forall i | 1 <= i < |nats| :: nats[i] == rest[i - 1];
      if nats[0].family == family {
        assert FirstNAT(nats, family, 0);
      } else {
        forall i | FirstNAT(nats, family, i) ensures Claimer(nats, family) == Some(nats[i].claimRef) {
          assert FirstNAT(rest, family, i - 1);
        }
        if i :| FirstNAT(rest, family, i) {
          assert FirstNAT(nats, family, i + 1);
        }
      }
    }
  }

  lemma WantsIs(gw: Gateway, nic: Interface)
    ensures Selected(gw, nic) <==> Wants(gw, nic)
  {
  }

  /** The roles, on the fields. */
  lemma RoleIs(gw: Gateway, existing: map<UID, Alloc>, nic: Interface)
    ensures RoleOf(gw, existing, nic) == Kept <==> Ours(gw, nic) && Wants(gw, nic) && nic.uid in existing
    ensures RoleOf(gw, existing, nic) == Claimed <==> Ours(gw, nic) && Wants(gw, nic) && nic.uid !in existing
    ensures RoleOf(gw, existing, nic) == Free <==> Unclaimed(gw, nic) && Wants(gw, nic) && !nic.deleting
  {
    hide Selected;
    hide Wants;
    WantsIs(gw, nic);
    ClaimerNone(nic.nats, gw.family);
    ClaimerFirst(nic.nats, gw.family);
    hide Claimer;
    if i :| FirstNAT(nic.nats, gw.family, i) {
      assert Claimer(nic.nats, gw.family) == Some(nic.nats[i].claimRef);
      assert Ours(gw, nic) <==> nic.nats[i].claimRef.uid == gw.uid;
    }
  }

  // ---- The result of a pass ----

  /** Where the allocation of an interface comes from. */
  lemma ServedFrom(gw: Gateway, ips: set<IP>, existing: map<UID, Alloc>, nics: seq<Interface>, claimOk: set<UID>,
                   allocs: map<UID, Alloc>, used: nat, requests: nat, nic: Interface)
    requires gw.ports > 0 && UniqueUids(nics) && Managed(gw, ips, existing, nics, claimOk, allocs, used, requests)
    requires nic in nics && nic.uid in allocs
    ensures var role := RoleOf(gw, existing, nic);
            && (role == Kept || role == Claimed || (role == Free && nic.uid in claimOk))
            && (role == Kept ==> nic.uid in existing && allocs[nic.uid] == existing[nic.uid])
            && (role != Kept ==> MadeFor(gw, nic, allocs[nic.uid]))
  {
    hide *;
    var kept, claimed, won := WithRole(gw, existing, nics, Kept), WithRole(gw, existing, nics, Claimed), Won(claimOk, WithRole(gw, existing, nics, Free));
    var room := Total(gw.ports, ips) - |kept|;
    var fromClaimed := Take(claimed, room);
    var fromFree := Take(won, room - |fromClaimed|);
    ManagedParts(gw, ips, existing, nics, claimOk, allocs, used, requests);
    WithRoleMembers(gw, existing, nics, Kept);
    WithRoleMembers(gw, existing, nics, Claimed);
    WithRoleMembers(gw, existing, nics, Free);
    WonMembers(claimOk, WithRole(gw, existing, nics, Free));
    TakeMembers(claimed, room);
    TakeMembers(won, room - |fromClaimed|);
    if nic.uid in Uids(kept) {
      SameUid(nics, kept, nic);
    } else if nic.uid in Uids(fromClaimed) {
      SameUid(nics, fromClaimed, nic);
    } else {
      SameUid(nics, fromFree, nic);
    }
  }

  lemma ManagedParts(gw: Gateway, ips: set<IP>, existing: map<UID, Alloc>, nics: seq<Interface>, claimOk: set<UID>,
                     allocs: map<UID, Alloc>, used: nat, requests: nat)
    requires gw.ports > 0 && Managed(gw, ips, existing, nics, claimOk, allocs, used, requests)
    ensures var kept, claimed, won := WithRole(gw, existing, nics, Kept), WithRole(gw, existing, nics, Claimed), Won(claimOk, WithRole(gw, existing, nics, Free));
            var room := Total(gw.ports, ips) - |kept|;
            var fromClaimed := Take(claimed, room);
            var fromFree := Take(won, room - |fromClaimed|);
            && (forall uid | uid in allocs :: uid in Uids(kept) || uid in Uids(fromClaimed) || uid in Uids(fromFree))
            && (forall uid | uid in Uids(kept) :: uid in allocs && uid in existing && allocs[uid] == existing[uid])
            && (forall nic | nic in fromClaimed :: nic.uid in allocs && MadeFor(gw, nic, allocs[nic.uid]))
            && (forall nic | nic in fromFree :: nic.uid in allocs && MadeFor(gw, nic, allocs[nic.uid]))
  {
    hide Consistent;
    hide WithRole;
    hide Won;
    hide MadeFor;
    hide Total;
    hide SlotInHand;
    hide Take;
    hide Uids;
    var kept, claimed, won := WithRole(gw, existing, nics, Kept), WithRole(gw, existing, nics, Claimed), Won(claimOk, WithRole(gw, existing, nics, Free));
    var room := Total(gw.ports, ips) - |kept|;
    var fromClaimed := Take(claimed, room);
    var fromFree := Take(won, room - |fromClaimed|);
    forall nic | nic in fromClaimed ensures nic.uid in Uids(fromClaimed) {
      UidOf(fromClaimed, nic);
    }
    forall nic | nic in fromFree ensures nic.uid in Uids(fromFree) {
      UidOf(fromFree, nic);
    }
  }

  lemma TakeMembers(nics: seq<Interface>, n: int)
    ensures forall nic | nic in Take(nics, n) :: nic in nics
  {
  }

  lemma SameUid(nics: seq<Interface>, part: seq<Interface>, nic: Interface)
    requires UniqueUids(nics) && nic in nics && nic.uid in Uids(part) && forall x | x in part :: x in nics
    ensures nic in part
  {
    var j :| 0 <= j < |part| && part[j].uid == nic.uid;
    assert part[j] in part;
    var a :| 0 <= a < |nics| && nics[a] == part[j];
    var b :| 0 <= b < |nics| && nics[b] == nic;
  }

  /** A section was made for the interface: its first address of the family, and a reference to it. */
  lemma MadeIs(gw: Gateway, nic: Interface, e: Alloc)
    requires MadeFor(gw, nic, e) && Wants(gw, nic)
    ensures exists i :: FirstIP(nic.ips, gw.family, i) && e.section.ip == nic.ips[i]
    ensures e.section.targetRef == Some(TargetRef(nic.uid, nic.name, nic.nodeRef))
  {
    FamilyIPFirst(nic.ips, gw.family);
    var k :| 0 <= k < |nic.ips| && nic.ips[k].IP? && nic.ips[k].family == gw.family;
    assert FamilyIP(nic.ips, gw.family) != NoIP;
  }

  /**
   * Whoever has an allocation wants one and is claimed, or was free and could be claimed. One that was
   * claimed and had an allocation keeps it; any other one gets a section with its first address of the
   * family, which refers to it.
   */
  lemma Served(gw: Gateway, ips: set<IP>, existing: map<UID, Alloc>, nics: seq<Interface>, claimOk: set<UID>,
               allocs: map<UID, Alloc>, used: nat, requests: nat, nic: Interface)
    requires gw.ports > 0 && UniqueUids(nics) && Managed(gw, ips, existing, nics, claimOk, allocs, used, requests)
    requires nic in nics && nic.uid in allocs
    ensures Wants(gw, nic) && (Ours(gw, nic) || (Unclaimed(gw, nic) && !nic.deleting && nic.uid in claimOk))
    ensures Ours(gw, nic) && nic.uid in existing ==> allocs[nic.uid] == existing[nic.uid]
    ensures !(Ours(gw, nic) && nic.uid in existing) ==>
      && (exists i :: FirstIP(nic.ips, gw.family, i) && allocs[nic.uid].section.ip == nic.ips[i])
      && allocs[nic.uid].section.targetRef == Some(TargetRef(nic.uid, nic.name, nic.nodeRef))
  {
    hide Managed;
    hide RoleOf;
    hide MadeFor;
    hide Wants;
    hide Ours;
    hide Unclaimed;
    ServedFrom(gw, ips, existing, nics, claimOk, allocs, used, requests, nic);
    RoleIs(gw, existing, nic);
    if RoleOf(gw, existing, nic) != Kept {
      MadeIs(gw, nic, allocs[nic.uid]);
    }
  }

  /**
   * Nobody is left out without need: who wants an allocation and is claimed with one, or claimed, or could
   * be claimed, has one, unless all slots are taken; and no free interface is served before a claimed one.
   */
  lemma NobodyLeftOut(gw: Gateway, ips: set<IP>, existing: map<UID, Alloc>, nics: seq<Interface>, claimOk: set<UID>,
                      allocs: map<UID, Alloc>, used: nat, requests: nat, nic: Interface)
    requires gw.ports > 0 && UniqueUids(nics) && Managed(gw, ips, existing, nics, claimOk, allocs, used, requests)
    requires nic in nics && Wants(gw, nic) && nic.uid !in allocs
    ensures !(Ours(gw, nic) && nic.uid in existing)
    ensures Ours(gw, nic) || (Unclaimed(gw, nic) && !nic.deleting && nic.uid in claimOk) ==> |allocs| == Total(gw.ports, ips)
    ensures Ours(gw, nic) ==> forall other | other in nics && other.uid in allocs :: Ours(gw, other)
  {
    hide Managed;
    hide RoleOf;
    hide Wants;
    hide Ours;
    hide Unclaimed;
    hide Total;
    RoleIs(gw, existing, nic);
    LeftOutFull(gw, ips, existing, nics, claimOk, allocs, used, requests, nic);
    if Ours(gw, nic) {
      forall other | other in nics && other.uid in allocs ensures Ours(gw, other) {
        RoleIs(gw, existing, other);
        ServedFrom(gw, ips, existing, nics, claimOk, allocs, used, requests, other);
        LeftOutOrder(gw, ips, existing, nics, claimOk, allocs, used, requests, nic, other);
      }
    }
  }

  lemma LeftOutFull(gw: Gateway, ips: set<IP>, existing: map<UID, Alloc>, nics: seq<Interface>, claimOk: set<UID>,
                    allocs: map<UID, Alloc>, used: nat, requests: nat, nic: Interface)
    requires gw.ports > 0 && Managed(gw, ips, existing, nics, claimOk, allocs, used, requests) && nic in nics && nic.uid !in allocs
    ensures var role := RoleOf(gw, existing, nic);
            role != Kept && (role == Claimed || (role == Free && nic.uid in claimOk) ==> |allocs| == Total(gw.ports, ips))
  {
    hide Consistent;
    hide WithRole;
    hide Won;
    hide MadeFor;
    hide Total;
    hide SlotInHand;
    hide RoleOf;
    hide Uids;
    var kept, claimed, free := WithRole(gw, existing, nics, Kept), WithRole(gw, existing, nics, Claimed), WithRole(gw, existing, nics, Free);
    var won := Won(claimOk, free);
    WithRoleMembers(gw, existing, nics, Kept);
    WithRoleMembers(gw, existing, nics, Claimed);
    WithRoleMembers(gw, existing, nics, Free);
    WonMembers(claimOk, free);
    if nic in kept {
      UidOf(kept, nic);
    } else if nic in claimed {
      UidOf(claimed, nic);
    } else if nic in won {
      UidOf(won, nic);
    }
  }

  lemma LeftOutOrder(gw: Gateway, ips: set<IP>, existing: map<UID, Alloc>, nics: seq<Interface>, claimOk: set<UID>,
                     allocs: map<UID, Alloc>, used: nat, requests: nat, nic: Interface, other: Interface)
    requires gw.ports > 0 && UniqueUids(nics) && Managed(gw, ips, existing, nics, claimOk, allocs, used, requests)
    requires nic in nics && nic.uid !in allocs && RoleOf(gw, existing, nic) == Claimed && other in nics && other.uid in allocs
    ensures RoleOf(gw, existing, other) != Free
  {
    hide Consistent;
    hide WithRole;
    hide Won;
    hide MadeFor;
    hide Total;
    hide SlotInHand;
    hide RoleOf;
    var kept, claimed := WithRole(gw, existing, nics, Kept), WithRole(gw, existing, nics, Claimed);
    var room := Total(gw.ports, ips) - |kept|;
    WithRoleMembers(gw, existing, nics, Kept);
    WithRoleMembers(gw, existing, nics, Claimed);
    UidOf(claimed, nic);
    assert Take(claimed, room) != claimed;
    TakeMembers(claimed, room);
    assert other.uid in Uids(kept) || other.uid in Uids(Take(claimed, room));
    SameUid(nics, if other.uid in Uids(kept) then kept else Take(claimed, room), other);
  }

  // ---- The table ----

  /** Addresses in order: IPv4 before IPv6, and by number; sections by port. */
  lemma TableInOrder(ports: nat, ips: set<IP>, allocs: map<UID, Alloc>, t: Table)
    requires ports > 0 && Consistent(ports, ips, allocs) && IsTableOf(t, Grouped(allocs))
    ensures forall i, j | 0 <= i < j < |t| && t[i].ip.IP? && t[j].ip.IP? ::
      if t[i].ip.family == t[j].ip.family then t[i].ip.bits < t[j].ip.bits else t[i].ip.family == IPv4
    ensures forall i, a, b | 0 <= i < |t| && 0 <= a < b < |t[i].sections| :: t[i].sections[a].port < t[i].sections[b].port
  {
    hide Consistent;
    hide Grouped;
    hide GroupWritten;
    assert forall i, j | 0 <= i < j < |t| :: ByIP(t[i], t[j]);
    forall i, a, b | 0 <= i < |t| && 0 <= a < b < |t[i].sections| ensures t[i].sections[a].port < t[i].sections[b].port {
      GroupStrict(ports, ips, allocs, t[i].ip, t[i].sections);
      assert ByPort(t[i].sections[a], t[i].sections[b]);
    }
  }

  /** The consumer's lookup of a UID finds exactly its allocation. */
  lemma LookupFinds(t: Table, allocs: map<UID, Alloc>, uid: UID)
    requires Lists(t, allocs)
    ensures FirstMatch(Entries(t), uid) == if uid in allocs then Some(allocs[uid]) else None
  {
    FirstMatchIn(Entries(t), uid);
  }

  /** No port of an address is given out twice. */
  lemma PortOnce(t: Table, i: nat, a: nat, j: nat, b: nat, port: int)
    requires Safe(t) && i < |t| && j < |t| && a < |t[i].sections| && b < |t[j].sections|
    requires t[i].ip == t[j].ip && t[i].sections[a].port <= port <= t[i].sections[a].endPort
    requires t[j].sections[b].port <= port <= t[j].sections[b].endPort
    ensures t[i].sections[a] == t[j].sections[b] && 1024 <= port <= 65535
  {
    var x, y := Alloc(t[i].ip, t[i].sections[a]), Alloc(t[j].ip, t[j].sections[b]);
    EntriesMember(t, x);
    EntriesMember(t, y);
    assert x.section in t[i].sections && y.section in t[j].sections;
    var k :| 0 <= k < |Entries(t)| && Entries(t)[k] == x;
    var l :| 0 <= l < |Entries(t)| && Entries(t)[l] == y;
    hide Entries;
    assert k != l ==> DisjointPorts(x.section, y.section) || DisjointPorts(y.section, x.section);
  }
}
