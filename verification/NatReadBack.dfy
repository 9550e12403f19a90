/** Reading the stored NAT table back: getExistingAllocations of natgateway_controller.go. */
module NatReadBack {
  import opened Core
  import opened NatAllocation
  import opened NatTable
  import opened Sorting

  function ToSet<T>(s: seq<T>): set<T> {
    set x | x in s
  }

  datatype Reading = Reading(taken: set<(IP, nat)>, allocs: map<UID, Alloc>)

  ghost function ReadStep(ports: nat, ips: set<IP>, r: Reading, e: Alloc): Reading
    requires ports > 0
  {
    var slot := SlotForPorts(ports, e.section.port, e.section.endPort);
    if e.ip in ips && e.section.targetRef.Some? && slot.Some? && (e.ip, slot.value) !in r.taken
    then Reading(r.taken + {(e.ip, slot.value)}, r.allocs[e.section.targetRef.value.uid := e])
    else r
  }

  /** What the read-back loop has taken and recorded after visiting `es`. */
  ghost function ReadBack(ports: nat, ips: set<IP>, es: seq<Alloc>): Reading
    requires ports > 0
  {
    if es == [] then Reading({}, map[])
    else ReadStep(ports, ips, ReadBack(ports, ips, es[..|es| - 1]), es[|es| - 1])
  }

  lemma {:induction false} ReadBackAppend(ports: nat, ips: set<IP>, es: seq<Alloc>, e: Alloc)
    requires ports > 0
    ensures ReadBack(ports, ips, es + [e]) == ReadStep(ports, ips, ReadBack(ports, ips, es), e)
  {
    assert (es + [e])[..|es|] == es;
  }

  /** getExistingAllocations; a missing table reads as no allocations. */
  method GetExistingAllocations(ports: nat, ips: seq<IP>, stored: Option<Table>) returns (allocs: map<UID, Alloc>)
    requires ports > 0
    ensures allocs == if stored.None? then map[] else ReadBack(ports, ToSet(ips), Entries(stored.value)).allocs
  {
    if stored.None? {
      return map[];
    }
    var t := stored.value;
    var mgr := new AllocationManager(ports, ips);
    allocs := map[];
    for i := 0 to |t|
      invariant mgr.Valid() && mgr.IPs() == ToSet(ips)
      invariant Reading(mgr.Taken(), allocs) == ReadBack(ports, ToSet(ips), Entries(t[..i]))
    {
      assert t[..i + 1][..i] == t[..i];
      var has := mgr.HasIP(t[i].ip);
      if !has {
        SkipForeign(ports, ToSet(ips), Entries(t[..i]), EntriesOf(t[i]));
        continue;
      }
      allocs := ReadSections(mgr, t[i], allocs, Entries(t[..i]));
    }
    assert t[..|t|] == t;
  }

  method ReadSections(mgr: AllocationManager, natIP: NATIP, read: map<UID, Alloc>, ghost done: seq<Alloc>)
    returns (allocs: map<UID, Alloc>)
    requires mgr.Valid() && Reading(mgr.Taken(), read) == ReadBack(mgr.ports, mgr.IPs(), done)
    modifies mgr.slots
    ensures mgr.Valid() && mgr.IPs() == old(mgr.IPs())
    ensures Reading(mgr.Taken(), allocs) == ReadBack(mgr.ports, mgr.IPs(), done + EntriesOf(natIP))
  {
    ghost var es := EntriesOf(natIP);
    allocs := read;
    assert done + es[..0] == done;
    for j := 0 to |natIP.sections|
      invariant mgr.Valid() && mgr.IPs() == old(mgr.IPs())
      invariant Reading(mgr.Taken(), allocs) == ReadBack(mgr.ports, mgr.IPs(), done + es[..j])
    {
      var section := natIP.sections[j];
      ReadBackAppend(mgr.ports, mgr.IPs(), done + es[..j], Alloc(natIP.ip, section));
      assert done + es[..j + 1] == done + es[..j] + [Alloc(natIP.ip, section)];
      if section.targetRef.None? {
        continue;
      }
      var ok := mgr.Use(natIP.ip, section.port, section.endPort);
      if ok {
        allocs := allocs[section.targetRef.value.uid := Alloc(natIP.ip, section)];
      }
    }
    assert es[..|es|] == es;
  }

  lemma {:induction false} SkipForeign(ports: nat, ips: set<IP>, done: seq<Alloc>, es: seq<Alloc>)
    requires ports > 0
    requires forall i | 0 <= i < |es| :: es[i].ip !in ips
    ensures ReadBack(ports, ips, done + es) == ReadBack(ports, ips, done)
  {
    if es == [] {
      assert done + es == done;
    } else {
      SkipForeign(ports, ips, done, es[..|es| - 1]);
      assert (done + es)[..|done + es| - 1] == done + es[..|es| - 1];
    }
  }

  /** Whether the read-back loop recognises a section written with `wrote` ports per interface. */
  ghost predicate Recognised(ports: nat, wrote: nat, ips: set<IP>, e: Alloc) {
    ports >= 2 && ports == wrote && e.ip in ips
  }

  lemma RecognisesWritten(ports: nat, wrote: nat, e: Alloc)
    requires ports > 0 && wrote > 0 && IsSlotRange(wrote, e.section.port, e.section.endPort)
    ensures SlotForPorts(ports, e.section.port, e.section.endPort)
         == if ports >= 2 && ports == wrote then Some(SlotAt(ports, e.section.port)) else None
  {
    SlotForOwnRange(wrote, SlotAt(wrote, e.section.port));
    SlotRange(wrote, SlotAt(wrote, e.section.port));
  }

  /** `r` holds exactly the recognised ones of `es`, under their own UIDs, and their slots. */
  ghost predicate ReadExactly(ports: nat, wrote: nat, ips: set<IP>, allocs: map<UID, Alloc>, es: seq<Alloc>, r: Reading)
    requires ports > 0
  {
    && (forall uid :: uid in r.allocs <==> uid in allocs && allocs[uid] in es && Recognised(ports, wrote, ips, allocs[uid]))
    && (forall uid | uid in r.allocs :: r.allocs[uid] == allocs[uid])
    && (forall k | k in r.taken :: exists uid :: uid in r.allocs && k == SlotKey(ports, allocs[uid]))
  }

  lemma ReadExactlyStep(ports: nat, wrote: nat, ips: set<IP>, wroteIPs: set<IP>, allocs: map<UID, Alloc>, es: seq<Alloc>, r: Reading, uid: UID)
    requires ports > 0 && wrote > 0 && Consistent(wrote, wroteIPs, allocs) && es != []
    requires ReadExactly(ports, wrote, ips, allocs, es[..|es| - 1], r)
    requires uid in allocs && allocs[uid] == es[|es| - 1] && es[|es| - 1] !in es[..|es| - 1]
    ensures ReadExactly(ports, wrote, ips, allocs, es, ReadStep(ports, ips, r, es[|es| - 1]))
  {
    assert forall x :: x in es <==> x in es[..|es| - 1] || x == allocs[uid];
    hide SlotForPorts;
    hide IsSlotRange;
    hide SlotAt;
    var e := allocs[uid];
    RecognisesWritten(ports, wrote, e);
    var r' := ReadStep(ports, ips, r, e);
    if Recognised(ports, wrote, ips, e) {
      SlotKeyIs(ports, e);
      assert SlotKey(ports, e) !in r.taken;
      assert r'.allocs == r.allocs[uid := e];
      forall k | k in r'.taken ensures exists u :: u in r'.allocs && k == SlotKey(ports, allocs[u]) {
        if k in r.taken {
          var u :| u in r.allocs && k == SlotKey(ports, allocs[u]);
          assert u in r'.allocs;
        }
      }
    }
  }

  lemma SlotKeyIs(ports: nat, e: Alloc)
    requires ports > 0 && IsSlotRange(ports, e.section.port, e.section.endPort)
    ensures SlotKey(ports, e) == (e.ip, SlotAt(ports, e.section.port))
  {
  }

  lemma {:induction false} ReadBackWritten(ports: nat, ips: set<IP>, wrote: nat, wroteIPs: set<IP>, allocs: map<UID, Alloc>, es: seq<Alloc>)
    requires ports > 0 && wrote > 0 && Consistent(wrote, wroteIPs, allocs) && NoDup(es)
    requires forall e | e in es :: e.section.targetRef.Some? && e.section.targetRef.value.uid in allocs
                                   && allocs[e.section.targetRef.value.uid] == e
    ensures ReadExactly(ports, wrote, ips, allocs, es, ReadBack(ports, ips, es))
  {
    if es != [] {
      hide Consistent;
      hide ReadExactly;
      var n := |es| - 1;
      assert es[n] in es && forall e | e in es[..n] :: e in es;
      ReadBackWritten(ports, ips, wrote, wroteIPs, allocs, es[..n]);
      ReadExactlyStep(ports, wrote, ips, wroteIPs, allocs, es, ReadBack(ports, ips, es[..n]), es[n].section.targetRef.value.uid);
    }
  }

  /**
   * Reading a written table back, whatever the gateway's addresses and ports are by now: the result
   * holds exactly the recognised allocations.
   */
  lemma {:induction false} ReadBackTable(ports: nat, ips: set<IP>, wrote: nat, wroteIPs: set<IP>, allocs: map<UID, Alloc>, t: Table)
    requires ports > 0 && wrote > 0 && Consistent(wrote, wroteIPs, allocs) && Lists(t, allocs)
    ensures var read := ReadBack(ports, ips, Entries(t)).allocs;
            && Consistent(ports, ips, read) && (read != map[] ==> ports >= 2)
            && (forall uid :: uid in read <==> uid in allocs && Recognised(ports, wrote, ips, allocs[uid]))
            && (forall uid | uid in read :: read[uid] == allocs[uid])
  {
    ReadBackWritten(ports, ips, wrote, wroteIPs, allocs, Entries(t));
    var read := ReadBack(ports, ips, Entries(t)).allocs;
    if uid :| uid in read {
      assert ports == wrote;
    }
  }

  /** Round trip: with the same addresses and ports the whole map is recovered, unless ranges have one port. */
  lemma {:induction false} ReadBackRoundTrip(ports: nat, ips: set<IP>, allocs: map<UID, Alloc>, t: Table)
    requires ports > 0 && Consistent(ports, ips, allocs) && Lists(t, allocs)
    ensures ReadBack(ports, ips, Entries(t)).allocs == allocs <==> ports >= 2 || allocs == map[]
    ensures ports == 1 ==> ReadBack(ports, ips, Entries(t)).allocs == map[]
  {
    ReadBackTable(ports, ips, ports, ips, allocs, t);
    var read := ReadBack(ports, ips, Entries(t)).allocs;
    if ports >= 2 {
      assert read.Keys == allocs.Keys;
    } else {
      assert read.Keys == {};
    }
  }
}
