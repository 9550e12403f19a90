/**
 * What updates of several objects do to one another: internal/registry/ipallocator/allocators.go over the
 * IP objects of internal/registry/ipallocator/ipallocator.go. An address created for one object has no
 * claim reference, so another object can claim it by value; releasing it deletes it for both.
 */
module AddressRuns {
  import opened Core
  import opened IpAllocators

  /** Someone else holds the address as well. */
  ghost predicate HeldByOther(o: IPObject, uid: UID) {
    (o.claimRef.Some? && o.claimRef.value != uid) || (o.controller.Some? && o.controller.value != uid)
  }

  ghost predicate HoldsAt(objs: Objects, ip: IP, uid: UID) {
    ip in objs && HeldBy(objs[ip], uid)
  }

  /** What other objects hold is the same in both. */
  ghost predicate OthersKept(before: Objects, after: Objects, uid: UID) {
    forall ip, other | other != uid :: HoldsAt(after, ip, other) <==> HoldsAt(before, ip, other)
  }

  /** Every address is claimed by value or controlled, not both. */
  ghost predicate Exclusive(objs: Objects) {
    forall ip | ip in objs :: objs[ip].claimRef.None? || objs[ip].controller.None?
  }

  // ---- One update ----

  /** Whether other objects keep what they hold depends on the dropped addresses alone. */
  lemma OthersKeptIff(objs: Objects, uid: UID, held: set<IP>, reqs: seq<Request>, spec: seq<Request>)
    requires Fills(objs, held, reqs, spec) && Holds(objs, uid, held)
    ensures OthersKept(objs, Outcome(objs, uid, held, reqs, spec), uid)
       <==> forall ip | ip in held && ip !in Addrs(reqs) :: !HeldByOther(objs[ip], uid)
  {
    var after := Outcome(objs, uid, held, reqs, spec);
    DroppedApart(objs, uid, held, reqs, spec);
    if forall ip | ip in held && ip !in Addrs(reqs) :: !HeldByOther(objs[ip], uid) {
      forall ip, other | other != uid ensures HoldsAt(after, ip, other) <==> HoldsAt(objs, ip, other) {
        OtherAt(objs, uid, held, reqs, spec, ip, other);
      }
    } else {
      var ip :| ip in held && ip !in Addrs(reqs) && HeldByOther(objs[ip], uid);
      var other := if objs[ip].claimRef.Some? && objs[ip].claimRef.value != uid then objs[ip].claimRef.value else objs[ip].controller.value;
      SharedDropLoses(objs, uid, held, reqs, spec, ip, other);
      assert HoldsAt(objs, ip, other) && !HoldsAt(after, ip, other);
    }
  }

  lemma OtherAt(objs: Objects, uid: UID, held: set<IP>, reqs: seq<Request>, spec: seq<Request>, ip: IP, other: UID)
    requires Fills(objs, held, reqs, spec) && Holds(objs, uid, held) && other != uid
    requires ip in held && ip !in Addrs(reqs) ==> ip in objs && !HeldByOther(objs[ip], uid)
    ensures HoldsAt(Outcome(objs, uid, held, reqs, spec), ip, other) <==> HoldsAt(objs, ip, other)
  {
    OutcomeAt(objs, uid, held, reqs, spec, ip);
    WantedUnclaimed(objs, held, reqs, spec, ip);
    MadeNew(objs, held, reqs, spec, ip);
    hide Outcome;
    hide Fills;
    hide Holds;
  }

  lemma WantedUnclaimed(objs: Objects, held: set<IP>, reqs: seq<Request>, spec: seq<Request>, ip: IP)
    requires Fills(objs, held, reqs, spec)
    ensures ip in Wanted(reqs, held) && ip in objs ==> objs[ip].claimRef.None?
  {
  }

  lemma MadeNew(objs: Objects, held: set<IP>, reqs: seq<Request>, spec: seq<Request>, ip: IP)
    requires Fills(objs, held, reqs, spec)
    ensures ip in Made(reqs, spec) ==> ip !in objs
  {
  }

  /** Dropping an address that another object holds as well takes it from that object. */
  lemma SharedDropLoses(objs: Objects, uid: UID, held: set<IP>, reqs: seq<Request>, spec: seq<Request>, ip: IP, other: UID)
    requires Fills(objs, held, reqs, spec) && Holds(objs, uid, held) && other != uid
    requires ip in held && ip !in Addrs(reqs) && HoldsAt(objs, ip, other)
    ensures ip !in Outcome(objs, uid, held, reqs, spec)
  {
    OutcomeAt(objs, uid, held, reqs, spec, ip);
    DroppedApart(objs, uid, held, reqs, spec);
    hide Outcome;
    hide Fills;
    assert HeldBy(objs[ip], uid) && HeldBy(objs[ip], other);
  }

  /** Every address newly asked for by value exists without a controller. */
  ghost predicate AsksForStatic(objs: Objects, held: set<IP>, reqs: seq<Request>) {
    forall ip | ip in Wanted(reqs, held) :: ip in objs && objs[ip].controller.None?
  }

  /** Claims stay exclusive if and only if no request names an address that is controlled, or does not exist yet. */
  lemma ExclusiveIff(objs: Objects, uid: UID, held: set<IP>, reqs: seq<Request>, spec: seq<Request>)
    requires Fills(objs, held, reqs, spec) && Holds(objs, uid, held) && Exclusive(objs)
    ensures Exclusive(Outcome(objs, uid, held, reqs, spec)) <==> AsksForStatic(objs, held, reqs)
  {
    var after := Outcome(objs, uid, held, reqs, spec);
    DroppedApart(objs, uid, held, reqs, spec);
    if AsksForStatic(objs, held, reqs) {
      forall ip | ip in after ensures after[ip].claimRef.None? || after[ip].controller.None? {
        OutcomeAt(objs, uid, held, reqs, spec, ip);
        MadeNew(objs, held, reqs, spec, ip);
      }
    } else {
      var ip :| ip in Wanted(reqs, held) && !(ip in objs && objs[ip].controller.None?);
      OutcomeAt(objs, uid, held, reqs, spec, ip);
      WantedExists(objs, held, reqs, spec, ip);
      assert after[ip] == Granted1(objs, uid, ip, true);
    }
  }

  /** Nothing newly asked for by value is the object's own, or does not exist yet. */
  ghost predicate AsksForOthers(objs: Objects, uid: UID, held: set<IP>, reqs: seq<Request>) {
    forall ip | ip in Wanted(reqs, held) :: ip in objs && objs[ip].controller != Some(uid)
  }

  /** The specification lists no address twice if and only if the object does not ask for its own addresses by value. */
  lemma DistinctIff(objs: Objects, uid: UID, held: set<IP>, reqs: seq<Request>, spec: seq<Request>)
    requires Fills(objs, held, reqs, spec) && Holds(objs, uid, held) && NoIP !in held
    ensures DistinctAddrs(spec) <==> AsksForOthers(objs, uid, held, reqs)
  {
    if AsksForOthers(objs, uid, held, reqs) {
      forall i, j | 0 <= i < j < |spec| ensures spec[i].addr != spec[j].addr {
        ApartAt(objs, uid, held, reqs, spec, i, j);
      }
    } else {
      var ip :| ip in Wanted(reqs, held) && !(ip in objs && objs[ip].controller != Some(uid));
      TwiceListed(objs, uid, held, reqs, spec, ip);
    }
  }

  lemma ApartAt(objs: Objects, uid: UID, held: set<IP>, reqs: seq<Request>, spec: seq<Request>, i: nat, j: nat)
    requires Fills(objs, held, reqs, spec) && Holds(objs, uid, held) && NoIP !in held && AsksForOthers(objs, uid, held, reqs)
    requires i < j < |spec|
    ensures spec[i].addr != spec[j].addr
  {
    KindAt(objs, uid, held, reqs, spec, i);
    KindAt(objs, uid, held, reqs, spec, j);
  }

  /** Kept addresses are held, those newly asked for are another's or nobody's, new ones did not exist. */
  lemma KindAt(objs: Objects, uid: UID, held: set<IP>, reqs: seq<Request>, spec: seq<Request>, i: nat)
    requires Fills(objs, held, reqs, spec) && Holds(objs, uid, held) && NoIP !in held && AsksForOthers(objs, uid, held, reqs)
    requires i < |spec|
    ensures reqs[i].addr.NoIP? ==> spec[i].addr !in objs
    ensures reqs[i].addr.IP? ==> spec[i].addr in objs && (Kept(reqs, held, i) <==> HeldBy(objs[spec[i].addr], uid))
  {
    if reqs[i].addr.IP? && !Kept(reqs, held, i) {
      assert reqs[i].addr in Wanted(reqs, held);
    } else if reqs[i].addr.IP? {
      assert reqs[i].addr in held;
    }
  }

  lemma TwiceListed(objs: Objects, uid: UID, held: set<IP>, reqs: seq<Request>, spec: seq<Request>, ip: IP)
    requires Fills(objs, held, reqs, spec) && Holds(objs, uid, held) && NoIP !in held
    requires ip in Wanted(reqs, held) && (ip in objs ==> objs[ip].controller == Some(uid))
    ensures !DistinctAddrs(spec)
  {
    var i :| 0 <= i < |reqs| && reqs[i].addr.IP? && !Kept(reqs, held, i) && reqs[i].addr == ip;
    if ip in objs {
      assert HeldBy(objs[ip], uid) && ip in held;
      var j :| 0 <= j < i && reqs[j].addr == ip;
      assert spec[j] == reqs[j] && spec[i] == reqs[i];
    } else {
      assert ip in Made(reqs, spec);
      var j :| 0 <= j < |reqs| && reqs[j].addr.NoIP? && spec[j].addr == ip;
      assert spec[i] == reqs[i] && i != j;
    }
  }

  // ---- Runs ----

  /** The IP objects and the specifications of the objects that use them. */
  datatype World = World(objects: Objects, specs: map<UID, seq<Request>>)

  /** The object's update to `reqs` was granted and committed. */
  ghost predicate Updates(w: World, uid: UID, reqs: seq<Request>, w': World) {
    && uid in w.specs && uid in w'.specs && w'.specs == w.specs[uid := w'.specs[uid]]
    && Fills(w.objects, Addrs(w.specs[uid]), reqs, w'.specs[uid])
    && w'.objects == Outcome(w.objects, uid, Addrs(w.specs[uid]), reqs, w'.specs[uid])
  }

  /** Every object holds exactly what its specification lists. */
  ghost predicate Settled(w: World) {
    forall uid | uid in w.specs :: NoIP !in Addrs(w.specs[uid]) && Holds(w.objects, uid, Addrs(w.specs[uid]))
  }

  lemma UpdateSettles(w: World, uid: UID, reqs: seq<Request>, w': World)
    requires Settled(w) && Exclusive(w.objects) && Updates(w, uid, reqs, w')
    ensures Settled(w')
  {
    var held := Addrs(w.specs[uid]);
    NothingShared(w, uid, held);
    OthersKeptIff(w.objects, uid, held, reqs, w'.specs[uid]);
    OutcomeHolds(w.objects, uid, held, reqs, w'.specs[uid]);
    SpecValid(w.objects, held, reqs, w'.specs[uid]);
    hide Fills;
    hide Outcome;
    hide Addrs;
    forall other | other in w'.specs ensures NoIP !in Addrs(w'.specs[other]) && Holds(w'.objects, other, Addrs(w'.specs[other])) {
      if other != uid {
        StillHolds(w.objects, w'.objects, uid, other, Addrs(w.specs[other]));
      }
    }
  }

  lemma StillHolds(before: Objects, after: Objects, uid: UID, other: UID, addrs: set<IP>)
    requires OthersKept(before, after, uid) && other != uid && Holds(before, other, addrs)
    ensures Holds(after, other, addrs)
  {
    forall ip ensures (ip in after && HeldBy(after[ip], other)) <==> ip in addrs {
      assert HoldsAt(after, ip, other) <==> HoldsAt(before, ip, other);
    }
  }

  lemma NothingShared(w: World, uid: UID, held: set<IP>)
    requires Exclusive(w.objects) && Holds(w.objects, uid, held)
    ensures forall ip | ip in held :: ip in w.objects && !HeldByOther(w.objects[ip], uid)
  {
  }

  lemma SpecValid(objs: Objects, held: set<IP>, reqs: seq<Request>, spec: seq<Request>)
    requires Fills(objs, held, reqs, spec)
    ensures NoIP !in Addrs(spec)
  {
    forall i | 0 <= i < |spec| ensures spec[i].addr != NoIP {
    }
  }

  datatype Update = Update(uid: UID, reqs: seq<Request>)

  ghost predicate IsRun(worlds: seq<World>, updates: seq<Update>) {
    && |worlds| == |updates| + 1
    && forall i | 0 <= i < |updates| :: Updates(worlds[i], updates[i].uid, updates[i].reqs, worlds[i + 1])
  }

  ghost predicate Static(w: World, u: Update) {
    u.uid in w.specs && AsksForStatic(w.objects, Addrs(w.specs[u.uid]), u.reqs)
  }

  /**
   * Over every run of updates that ask by value for uncontrolled addresses only, every object holds
   * exactly what its specification lists, all the time.
   */
  lemma {:induction false} AlwaysSettled(worlds: seq<World>, updates: seq<Update>, i: nat)
    requires IsRun(worlds, updates) && i < |worlds| && Settled(worlds[0]) && Exclusive(worlds[0].objects)
    requires forall j | 0 <= j < |updates| :: Static(worlds[j], updates[j])
    ensures Settled(worlds[i]) && Exclusive(worlds[i].objects)
  {
    hide Settled;
    hide Exclusive;
    hide Static;
    if i > 0 {
      AlwaysSettled(worlds, updates, i - 1);
      var w, u := worlds[i - 1], updates[i - 1];
      UpdateSettles(w, u.uid, u.reqs, worlds[i]);
      StillExclusive(w, u, worlds[i]);
    }
  }

  lemma StillExclusive(w: World, u: Update, w': World)
    requires Settled(w) && Exclusive(w.objects) && Updates(w, u.uid, u.reqs, w')
    ensures Exclusive(w'.objects) <==> Static(w, u)
  {
    ExclusiveIff(w.objects, u.uid, Addrs(w.specs[u.uid]), u.reqs, w'.specs[u.uid]);
    hide Fills;
    hide Outcome;
    hide Exclusive;
  }

  // ---- Asking for another object's address ----

  /**
   * The failing family: once an object has been granted, by value, an address created for another one,
   * every update by which that other one drops the address takes it from a specification that lists it.
   */
  lemma SharedThenLost(w: World, uid: UID, reqs: seq<Request>, w': World, ip: IP, creator: UID, reqs': seq<Request>, w'': World)
    requires Settled(w) && Exclusive(w.objects) && Updates(w, uid, reqs, w') && ip in Wanted(reqs, Addrs(w.specs[uid]))
    requires ip in w.objects && w.objects[ip].controller == Some(creator) && creator != uid && creator in w.specs
    requires Updates(w', creator, reqs', w'') && ip !in Addrs(reqs')
    ensures ip in Addrs(w''.specs[uid]) && !HoldsAt(w''.objects, ip, uid) && !Settled(w'')
  {
    var held := Addrs(w.specs[uid]);
    UpdateSettles(w, uid, reqs, w');
    OutcomeAt(w.objects, uid, held, reqs, w'.specs[uid], ip);
    SpecAddrs(w.objects, held, reqs, w'.specs[uid]);
    DroppedApart(w.objects, uid, held, reqs, w'.specs[uid]);
    assert HoldsAt(w'.objects, ip, uid) && HoldsAt(w'.objects, ip, creator);
    hide Outcome;
    hide Fills;
    SharedDropLoses(w'.objects, creator, Addrs(w'.specs[creator]), reqs', w''.specs[creator], ip, uid);
    assert w''.specs[uid] == w'.specs[uid];
  }

  /** Such an update is always open to the other object: it can drop everything. */
  lemma CanDropAll(w: World, uid: UID) returns (w': World)
    requires uid in w.specs
    ensures Updates(w, uid, [], w')
  {
    w' := World(Outcome(w.objects, uid, Addrs(w.specs[uid]), [], []), w.specs[uid := []]);
  }

  /** Asking for it is granted: nothing but the claim reference is looked at. */
  lemma CanAskForShared(w: World, uid: UID, ip: IP) returns (w': World)
    requires uid in w.specs && ip in w.objects && ip.IP? && w.objects[ip].claimRef.None?
    requires ip !in Addrs(w.specs[uid])
    ensures GrantAll(w.objects, uid, NotKept([Request(ip.family, ip)], Addrs(w.specs[uid]), 1), []).ok
    ensures Updates(w, uid, [Request(ip.family, ip)], w') && ip in Wanted([Request(ip.family, ip)], Addrs(w.specs[uid]))
  {
    var held, reqs := Addrs(w.specs[uid]), [Request(ip.family, ip)];
    w' := World(Outcome(w.objects, uid, held, reqs, reqs), w.specs[uid := reqs]);
    assert !Kept(reqs, held, 0);
    assert reqs[0].addr in Wanted(reqs, held);
    assert NotKept(reqs, held, 1) == reqs by {
      assert NotKept(reqs, held, 0) == [];
    }
    assert reqs[..0] == [];
    assert GrantAll(w.objects, uid, reqs[..0], []) == Progress(w.objects, [], true);
  }

  /**
   * Put together, for every world in order: an unclaimed address controlled by one object and not listed by
   * another can be asked for by the other and dropped by its creator, and then a specification lists an
   * address its object does not hold.
   */
  lemma SharingUnsettles(w: World, uid: UID, ip: IP, creator: UID) returns (w': World, w'': World)
    requires Settled(w) && Exclusive(w.objects) && uid in w.specs && creator in w.specs && uid != creator
    requires ip in w.objects && ip.IP? && w.objects[ip] == IPObject(None, Some(creator))
    ensures Updates(w, uid, [Request(ip.family, ip)], w') && Updates(w', creator, [], w'')
    ensures ip in Addrs(w''.specs[uid]) && !HoldsAt(w''.objects, ip, uid) && !Settled(w'')
  {
    hide Fills;
    hide Outcome;
    hide Kept;
    hide GrantAll;
    assert !HoldsAt(w.objects, ip, uid);
    w' := CanAskForShared(w, uid, ip);
    w'' := CanDropAll(w', creator);
    SharedThenLost(w, uid, [Request(ip.family, ip)], w', ip, creator, [], w'');
  }
}
