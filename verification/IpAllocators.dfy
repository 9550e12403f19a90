/** Addresses of an object across an update: internal/registry/ipallocator/allocators.go. */
module IpAllocators {
  import opened Core

  datatype Request = Request(family: IPFamily, addr: IP)

  function Addrs(reqs: seq<Request>): set<IP> {
    set i | 0 <= i < |reqs| :: reqs[i].addr
  }

  ghost predicate DistinctAddrs(reqs: seq<Request>) {
    forall i, j | 0 <= i < j < |reqs| :: reqs[i].addr != reqs[j].addr
  }

  /** Every address is valid and of the family it is requested for. */
  ghost predicate ValidAddrs(reqs: seq<Request>) {
    forall i | 0 <= i < |reqs| :: HasFamily(reqs[i].addr, reqs[i].family)
  }

  // ---- The store of IP objects ----

  /**
   * An IP object: the object that claims it by value, and the controller it was created for. Creating an
   * address for an object leaves its claim reference empty.
   */
  datatype IPObject = IPObject(claimRef: Option<UID>, controller: Option<UID>)

  type Objects = map<IP, IPObject>

  predicate HeldBy(o: IPObject, uid: UID) {
    o.claimRef == Some(uid) || o.controller == Some(uid)
  }

  /** The object holds exactly these addresses. */
  ghost predicate Holds(objs: Objects, uid: UID, addrs: set<IP>) {
    forall ip :: (ip in objs && HeldBy(objs[ip], uid)) <==> ip in addrs
  }

  class AddressStore {
    var objects: Objects

    /** Claims an existing address of the family whose claim reference is empty; a controller does not matter. */
    method Allocate(uid: UID, family: IPFamily, addr: IP) returns (ok: bool)
      modifies this
      ensures ok <==> HasFamily(addr, family) && addr in old(objects) && old(objects)[addr].claimRef.None?
      ensures objects == if ok then old(objects)[addr := old(objects)[addr].(claimRef := Some(uid))] else old(objects)
    {
      if !HasFamily(addr, family) || addr !in objects {
        return false;
      }
      if objects[addr].claimRef.Some? {
        return false;
      }
      objects := objects[addr := objects[addr].(claimRef := Some(uid))];
      return true;
    }

    /** Creates an address controlled by the object; `pick` is the server's choice, which has to be new and of the family. */
    method AllocateNext(uid: UID, family: IPFamily, pick: IP) returns (r: Option<IP>)
      modifies this
      ensures r == if HasFamily(pick, family) && pick !in old(objects) then Some(pick) else None
      ensures objects == if r.Some? then old(objects)[pick := IPObject(None, Some(uid))] else old(objects)
    {
      if !HasFamily(pick, family) || pick in objects {
        return None;
      }
      objects := objects[pick := IPObject(None, Some(uid))];
      return Some(pick);
    }

    /** Deletes a controlled address, whoever claims it; empties the claim reference of any other one. */
    method Release(addr: IP)
      modifies this
      ensures objects == Released(old(objects), {addr})
    {
      if addr !in objects {
        return;
      }
      if objects[addr].controller.Some? {
        objects := objects - {addr};
      } else {
        objects := objects[addr := objects[addr].(claimRef := None)];
      }
    }
  }

  ghost function Released(objs: Objects, addrs: set<IP>): Objects {
    map ip | ip in objs && !(ip in addrs && objs[ip].controller.Some?) :: if ip in addrs then objs[ip].(claimRef := None) else objs[ip]
  }

  // ---- Planning ----

  /** Both families at once end the search; None is a request of a family without allocator. */
  method AllocatorsFor(available: set<IPFamily>, reqs: seq<Request>) returns (r: Option<set<IPFamily>>)
    ensures r.None? <==> exists i :: 0 <= i < |reqs| && reqs[i].family !in available
    ensures r.Some? ==> r.value <= available && forall i | 0 <= i < |reqs| :: reqs[i].family in r.value
  {
    var allocs: set<IPFamily> := {};
    for i := 0 to |reqs|
      invariant allocs <= available && forall j | 0 <= j < i :: reqs[j].family in allocs
      invariant !(IPv4 in allocs && IPv6 in allocs)
    {
      if reqs[i].family !in available {
        return None;
      }
      allocs := allocs + {reqs[i].family};
      if IPv4 in allocs && IPv6 in allocs {
        forall f: IPFamily ensures f in allocs {
          assert f == IPv4 || f == IPv6;
        }
        return Some(allocs);
      }
    }
    return Some(allocs);
  }

  /** The request repeats an address of the old object, and is the first one to do so. */
  ghost predicate Kept(reqs: seq<Request>, held: set<IP>, i: nat)
    requires i < |reqs|
  {
    reqs[i].addr in held && forall j | 0 <= j < i :: reqs[j].addr != reqs[i].addr
  }

  /** The requests that are not kept, in order. */
  ghost function NotKept(reqs: seq<Request>, held: set<IP>, n: nat): seq<Request>
    requires n <= |reqs|
  {
    if n == 0 then [] else NotKept(reqs, held, n - 1) + if Kept(reqs, held, n - 1) then [] else [reqs[n - 1]]
  }

  /** Every request that is not kept has its own place in the list of requests to allocate, and nothing else is in it. */
  ghost predicate Indexed(reqs: seq<Request>, held: set<IP>, n: nat, toAllocate: seq<Request>, index: map<nat, nat>)
    requires n <= |reqs|
  {
    && (forall i: nat :: i in index <==> i < n && !Kept(reqs, held, i))
    && (forall i | i in index :: index[i] < |toAllocate| && toAllocate[index[i]] == reqs[i])
    && (forall i, j | i in index && j in index && i < j :: index[i] < index[j])
    && (forall k: nat | k < |toAllocate| :: Sourced(index, k))
  }

  ghost predicate Sourced(index: map<nat, nat>, k: nat) {
    exists i :: i in index && index[i] == k
  }

  method Diff(reqs: seq<Request>, held: set<IP>) returns (toRelease: set<IP>, toAllocate: seq<Request>, index: map<nat, nat>)
    ensures toRelease == held - Addrs(reqs)
    ensures toAllocate == NotKept(reqs, held, |reqs|) && Indexed(reqs, held, |reqs|, toAllocate, index)
  {
    hide Kept;
    hide Addrs;
    NoAddrs(reqs);
    toRelease, toAllocate, index := held, [], map[];
    for i := 0 to |reqs|
      invariant toRelease == held - Addrs(reqs[..i])
      invariant toAllocate == NotKept(reqs, held, i) && Indexed(reqs, held, i, toAllocate, index)
    {
      AddrsMore(reqs, i);
      KeptIff(reqs, held, i);
      if reqs[i].addr in toRelease {
        toRelease := toRelease - {reqs[i].addr};
      } else {
        IndexMore(reqs, held, i, toAllocate, index);
        index := index[i := |toAllocate|];
        toAllocate := toAllocate + [reqs[i]];
      }
    }
    assert reqs[..|reqs|] == reqs;
  }

  lemma NoAddrs(reqs: seq<Request>)
    ensures Addrs(reqs[..0]) == {}
  {
  }

  lemma AddrsMore(reqs: seq<Request>, i: nat)
    requires i < |reqs|
    ensures Addrs(reqs[..i + 1]) == Addrs(reqs[..i]) + {reqs[i].addr}
  {
    assert forall j | 0 <= j < i :: reqs[..i + 1][j] == reqs[..i][j];
    assert reqs[..i + 1][i] == reqs[i];
  }

  lemma KeptIff(reqs: seq<Request>, held: set<IP>, i: nat)
    requires i < |reqs|
    ensures Kept(reqs, held, i) <==> reqs[i].addr in held - Addrs(reqs[..i])
  {
    assert forall j | 0 <= j < i :: reqs[..i][j] == reqs[j];
    if !Kept(reqs, held, i) && reqs[i].addr in held {
      var j :| 0 <= j < i && reqs[j].addr == reqs[i].addr;
      assert reqs[..i][j].addr in Addrs(reqs[..i]);
    }
  }

  lemma IndexMore(reqs: seq<Request>, held: set<IP>, i: nat, toAllocate: seq<Request>, index: map<nat, nat>)
    requires i < |reqs| && Indexed(reqs, held, i, toAllocate, index) && !Kept(reqs, held, i)
    ensures Indexed(reqs, held, i + 1, toAllocate + [reqs[i]], index[i := |toAllocate|])
  {
    hide Kept;
    var more := index[i := |toAllocate|];
    forall k: nat | k < |toAllocate| + 1 ensures Sourced(more, k) {
      if k < |toAllocate| {
        assert Sourced(index, k);
        var j :| j in index && index[j] == k;
        assert more[j] == k;
      } else {
        assert more[i] == k;
      }
    }
  }

  // ---- Allocating ----

  /** The objects after some requests, the addresses granted, and whether all went well. */
  datatype Progress = Progress(objects: Objects, ips: seq<IP>, ok: bool)

  ghost function GrantOne(p: Progress, uid: UID, req: Request, pick: IP): Progress {
    if req.addr.IP? then
      if HasFamily(req.addr, req.family) && req.addr in p.objects && p.objects[req.addr].claimRef.None?
      then Progress(p.objects[req.addr := p.objects[req.addr].(claimRef := Some(uid))], p.ips + [req.addr], true)
      else p.(ok := false)
    else if HasFamily(pick, req.family) && pick !in p.objects
    then Progress(p.objects[pick := IPObject(None, Some(uid))], p.ips + [pick], true)
    else p.(ok := false)
  }

  function PickAt(picks: seq<IP>, k: nat): IP {
    if k < |picks| then picks[k] else NoIP
  }

  /** Request by request; the first failure ends it and leaves what was granted so far. */
  ghost function GrantAll(objs: Objects, uid: UID, reqs: seq<Request>, picks: seq<IP>): Progress {
    if reqs == [] then Progress(objs, [], true)
    else
      var p := GrantAll(objs, uid, reqs[..|reqs| - 1], picks);
      if p.ok then GrantOne(p, uid, reqs[|reqs| - 1], PickAt(picks, |reqs| - 1)) else p
  }

  lemma GrantStep(objs: Objects, uid: UID, reqs: seq<Request>, picks: seq<IP>, k: nat)
    requires k < |reqs|
    ensures var p := GrantAll(objs, uid, reqs[..k], picks);
            GrantAll(objs, uid, reqs[..k + 1], picks) == if p.ok then GrantOne(p, uid, reqs[k], PickAt(picks, k)) else p
  {
    hide GrantOne;
    assert reqs[..k + 1][..k] == reqs[..k];
  }

  lemma {:induction false} FailureStays(objs: Objects, uid: UID, reqs: seq<Request>, picks: seq<IP>, k: nat)
    requires k <= |reqs| && !GrantAll(objs, uid, reqs[..k], picks).ok
    ensures GrantAll(objs, uid, reqs, picks) == GrantAll(objs, uid, reqs[..k], picks)
    decreases |reqs| - k
  {
    if k == |reqs| {
      assert reqs[..k] == reqs;
    } else {
      GrantStep(objs, uid, reqs, picks, k);
      FailureStays(objs, uid, reqs, picks, k + 1);
    }
  }

  /** allocateIPs; every request has an allocator. */
  method AllocateIPs(store: AddressStore, allocs: set<IPFamily>, uid: UID, reqs: seq<Request>, picks: seq<IP>) returns (r: Option<seq<IP>>)
    requires forall k | 0 <= k < |reqs| :: reqs[k].family in allocs
    modifies store
    ensures var p := GrantAll(old(store.objects), uid, reqs, picks);
            store.objects == p.objects && r == if p.ok then Some(p.ips) else None
  {
    hide GrantAll;
    ghost var objs := store.objects;
    var ips: seq<IP> := [];
    NothingGranted(objs, uid, reqs, picks);
    for k := 0 to |reqs|
      invariant GrantAll(objs, uid, reqs[..k], picks) == Progress(store.objects, ips, true)
    {
      var addr := reqs[k].addr;
      GrantStep(objs, uid, reqs, picks, k);
      if addr.IP? {
        var ok := store.Allocate(uid, reqs[k].family, addr);
        if !ok {
          FailureStays(objs, uid, reqs, picks, k + 1);
          return None;
        }
      } else {
        var next := store.AllocateNext(uid, reqs[k].family, PickAt(picks, k));
        if next.None? {
          FailureStays(objs, uid, reqs, picks, k + 1);
          return None;
        }
        addr := next.value;
      }
      ips := ips + [addr];
    }
    assert reqs[..|reqs|] == reqs;
    return Some(ips);
  }

  lemma NothingGranted(objs: Objects, uid: UID, reqs: seq<Request>, picks: seq<IP>)
    ensures GrantAll(objs, uid, reqs[..0], picks) == Progress(objs, [], true)
  {
  }

  // ---- What was granted ----

  ghost function ByValue(reqs: seq<Request>, ips: seq<IP>): set<IP>
    requires |reqs| == |ips|
  {
    set k | 0 <= k < |reqs| && reqs[k].addr.IP? :: ips[k]
  }

  ghost function Created(reqs: seq<Request>, ips: seq<IP>): set<IP>
    requires |reqs| == |ips|
  {
    set k | 0 <= k < |reqs| && reqs[k].addr.NoIP? :: ips[k]
  }

  /** The objects once `claimed` are claimed by value and `made` are created. */
  ghost function AfterGrant(objs: Objects, uid: UID, claimed: set<IP>, made: set<IP>): Objects {
    map ip | ip in objs.Keys + made :: Granted1(objs, uid, ip, ip in claimed)
  }

  ghost function Granted1(objs: Objects, uid: UID, ip: IP, claimed: bool): IPObject {
    IPObject(if claimed then Some(uid) else if ip in objs then objs[ip].claimRef else None,
             if ip in objs then objs[ip].controller else Some(uid))
  }

  /** Given addresses are granted as they are; only an address created before can be granted again, and then by value. */
  ghost predicate Listed(objs: Objects, reqs: seq<Request>, ips: seq<IP>) {
    && |ips| == |reqs|
    && (forall k | 0 <= k < |reqs| :: HasFamily(ips[k], reqs[k].family) && (reqs[k].addr.IP? ==> ips[k] == reqs[k].addr))
    && (forall k | 0 <= k < |reqs| && reqs[k].addr.NoIP? :: ips[k] !in objs)
    && (forall k | 0 <= k < |reqs| && reqs[k].addr.IP? && ips[k] in objs :: objs[ips[k]].claimRef.None?)
    && (forall j, k | 0 <= j < k < |reqs| && ips[j] == ips[k] :: reqs[j].addr.NoIP? && reqs[k].addr.IP?)
  }

  ghost predicate Granted(objs: Objects, uid: UID, reqs: seq<Request>, p: Progress) {
    && Listed(objs, reqs, p.ips)
    && ByValue(reqs, p.ips) <= objs.Keys + Created(reqs, p.ips)
    && p.objects == AfterGrant(objs, uid, ByValue(reqs, p.ips), Created(reqs, p.ips))
  }

  lemma {:induction false} GrantsAre(objs: Objects, uid: UID, reqs: seq<Request>, picks: seq<IP>)
    requires GrantAll(objs, uid, reqs, picks).ok
    ensures Granted(objs, uid, reqs, GrantAll(objs, uid, reqs, picks))
  {
    hide Granted;
    hide GrantOne;
    if reqs == [] {
      NoGrant(objs, uid);
    } else {
      var n := |reqs| - 1;
      GrantsAre(objs, uid, reqs[..n], picks);
      GrantMore(objs, uid, reqs[..n], GrantAll(objs, uid, reqs[..n], picks), reqs[n], PickAt(picks, n));
      assert reqs[..n] + [reqs[n]] == reqs;
    }
  }

  lemma NoGrant(objs: Objects, uid: UID)
    ensures Granted(objs, uid, [], Progress(objs, [], true))
  {
    assert AfterGrant(objs, uid, {}, {}) == objs;
  }

  lemma SetsMore(reqs: seq<Request>, ips: seq<IP>, req: Request, ip: IP)
    requires |reqs| == |ips|
    ensures ByValue(reqs + [req], ips + [ip]) == ByValue(reqs, ips) + if req.addr.IP? then {ip} else {}
    ensures Created(reqs + [req], ips + [ip]) == Created(reqs, ips) + if req.addr.NoIP? then {ip} else {}
  {
    var r, i := reqs + [req], ips + [ip];
    assert r[|reqs|] == req && i[|reqs|] == ip && forall k | 0 <= k < |reqs| :: r[k] == reqs[k] && i[k] == ips[k];
  }

  lemma GrantMore(objs: Objects, uid: UID, reqs: seq<Request>, p: Progress, req: Request, pick: IP)
    requires Granted(objs, uid, reqs, p) && p.ok && GrantOne(p, uid, req, pick).ok
    ensures Granted(objs, uid, reqs + [req], GrantOne(p, uid, req, pick))
  {
    hide AfterGrant;
    hide Granted1;
    hide ByValue;
    hide Created;
    var q := GrantOne(p, uid, req, pick);
    var ip := q.ips[|p.ips|];
    SetsMore(reqs, p.ips, req, ip);
    GrantMoreObjects(objs, uid, ByValue(reqs, p.ips), Created(reqs, p.ips), req, ip, p.objects, q.objects);
    GrantMoreListed(objs, uid, reqs, p, req, ip);
    assert q.ips == p.ips + [ip];
    assert ByValue(reqs, p.ips) + {} == ByValue(reqs, p.ips) && Created(reqs, p.ips) + {} == Created(reqs, p.ips);
  }

  lemma GrantMoreListed(objs: Objects, uid: UID, reqs: seq<Request>, p: Progress, req: Request, ip: IP)
    requires Granted(objs, uid, reqs, p) && HasFamily(ip, req.family) && (req.addr.IP? ==> ip == req.addr)
    requires req.addr.IP? ==> ip in p.objects && p.objects[ip].claimRef.None?
    requires req.addr.NoIP? ==> ip !in p.objects
    ensures Listed(objs, reqs + [req], p.ips + [ip])
  {
    GrantMoreApart(objs, uid, reqs, p, req, ip);
    assert ip in objs ==> ip in p.objects && (p.objects[ip].claimRef.None? ==> objs[ip].claimRef.None?);
    hide AfterGrant;
    hide ByValue;
    hide Created;
  }

  lemma GrantMoreObjects(objs: Objects, uid: UID, claimed: set<IP>, made: set<IP>, req: Request, ip: IP, before: Objects, after: Objects)
    requires before == AfterGrant(objs, uid, claimed, made) && claimed <= objs.Keys + made
    requires req.addr.IP? ==> ip in before && after == before[ip := before[ip].(claimRef := Some(uid))]
    requires req.addr.NoIP? ==> ip !in before && after == before[ip := IPObject(None, Some(uid))]
    ensures after == AfterGrant(objs, uid, if req.addr.IP? then claimed + {ip} else claimed, if req.addr.IP? then made else made + {ip})
    ensures ip in before <==> ip in objs || ip in made
    ensures ip in before ==> before[ip] == Granted1(objs, uid, ip, ip in claimed)
  {
  }

  /** An address granted before is granted again only by value, after it was created. */
  lemma GrantMoreApart(objs: Objects, uid: UID, reqs: seq<Request>, p: Progress, req: Request, ip: IP)
    requires Granted(objs, uid, reqs, p)
    requires req.addr.IP? ==> ip in p.objects && p.objects[ip].claimRef.None?
    requires req.addr.NoIP? ==> ip !in p.objects
    ensures forall j | 0 <= j < |reqs| && p.ips[j] == ip :: reqs[j].addr.NoIP? && req.addr.IP?
  {
    forall j | 0 <= j < |reqs| && p.ips[j] == ip ensures reqs[j].addr.NoIP? && req.addr.IP? {
      assert ip in ByValue(reqs, p.ips) + Created(reqs, p.ips);
    }
  }

  // ---- When all is granted ----

  /** The address the request is about: the one it names, or the server's choice. */
  function Wished(reqs: seq<Request>, picks: seq<IP>, k: nat): IP
    requires k < |reqs|
  {
    if reqs[k].addr.IP? then reqs[k].addr else PickAt(picks, k)
  }

  /**
   * A named address is unclaimed, exists or is created by an earlier request, and is not named before; an
   * empty request needs a new address not created before. Both have to be of the family.
   */
  ghost predicate CanGrant(objs: Objects, reqs: seq<Request>, picks: seq<IP>, k: nat)
    requires k < |reqs|
  {
    var ip := Wished(reqs, picks, k);
    && ip.IP? && ip.family == reqs[k].family
    && (forall j: nat | j < k && Wished(reqs, picks, j) == ip :: reqs[j].addr.NoIP? && reqs[k].addr.IP?)
    && if reqs[k].addr.IP? then
         if ip in objs then objs[ip].claimRef.None? else exists j: nat :: j < k && reqs[j].addr.NoIP? && Wished(reqs, picks, j) == ip
       else ip !in objs
  }

  /** Every request is granted if and only if each one can be. */
  lemma {:induction false} GrantAllIff(objs: Objects, uid: UID, reqs: seq<Request>, picks: seq<IP>)
    ensures GrantAll(objs, uid, reqs, picks).ok <==> forall k: nat | k < |reqs| :: CanGrant(objs, reqs, picks, k)
    ensures GrantAll(objs, uid, reqs, picks).ok ==>
      |GrantAll(objs, uid, reqs, picks).ips| == |reqs| && forall k: nat | k < |reqs| :: GrantAll(objs, uid, reqs, picks).ips[k] == Wished(reqs, picks, k)
  {
    hide CanGrant;
    if reqs != [] {
      var n := |reqs| - 1;
      var init := reqs[..n];
      GrantAllIff(objs, uid, init, picks);
      forall k: nat | k < n ensures CanGrant(objs, init, picks, k) <==> CanGrant(objs, reqs, picks, k) {
        CanGrantPrefix(objs, reqs, picks, n, k);
      }
      var p := GrantAll(objs, uid, init, picks);
      if p.ok {
        GrantsAre(objs, uid, init, picks);
        CanGrantIff(objs, uid, reqs, picks, p);
      }
    }
  }

  lemma CanGrantPrefix(objs: Objects, reqs: seq<Request>, picks: seq<IP>, n: nat, k: nat)
    requires k < n <= |reqs|
    ensures CanGrant(objs, reqs[..n], picks, k) <==> CanGrant(objs, reqs, picks, k)
  {
    assert forall j: nat | j < n :: reqs[..n][j] == reqs[j];
    forall j: nat | j < n ensures Wished(reqs[..n], picks, j) == Wished(reqs, picks, j) {
    }
  }

  lemma CanGrantIff(objs: Objects, uid: UID, reqs: seq<Request>, picks: seq<IP>, p: Progress)
    requires reqs != [] && p.ok && Granted(objs, uid, reqs[..|reqs| - 1], p)
    requires forall k: nat | k < |reqs| - 1 :: p.ips[k] == Wished(reqs[..|reqs| - 1], picks, k)
    ensures GrantOne(p, uid, reqs[|reqs| - 1], PickAt(picks, |reqs| - 1)).ok <==> CanGrant(objs, reqs, picks, |reqs| - 1)
    ensures var q := GrantOne(p, uid, reqs[|reqs| - 1], PickAt(picks, |reqs| - 1));
            q.ok ==> |q.ips| == |reqs| && forall k: nat | k < |reqs| :: q.ips[k] == Wished(reqs, picks, k)
  {
    hide Granted;
    hide CanGrant;
    hide GrantOne;
    GrantedCount(objs, uid, reqs[..|reqs| - 1], p);
    GrantOneIff(objs, uid, reqs, picks, p);
    GrantOneIps(p, uid, reqs[|reqs| - 1], PickAt(picks, |reqs| - 1));
  }

  lemma GrantOneIps(p: Progress, uid: UID, req: Request, pick: IP)
    ensures GrantOne(p, uid, req, pick).ok && p.ok ==> GrantOne(p, uid, req, pick).ips == p.ips + [if req.addr.IP? then req.addr else pick]
  {
  }

  /** Which addresses were named and created so far, and what the objects say of one. */
  lemma PrefixSets(objs: Objects, uid: UID, reqs: seq<Request>, picks: seq<IP>, p: Progress, ip: IP)
    requires reqs != [] && Granted(objs, uid, reqs[..|reqs| - 1], p)
    requires forall k: nat | k < |reqs| - 1 :: p.ips[k] == Wished(reqs[..|reqs| - 1], picks, k)
    ensures var n := |reqs| - 1;
            var named := exists j: nat :: j < n && reqs[j].addr.IP? && Wished(reqs, picks, j) == ip;
            && (named ==> ip in p.objects)
            && (ip in p.objects <==> ip in objs || exists j: nat :: j < n && reqs[j].addr.NoIP? && Wished(reqs, picks, j) == ip)
            && (ip in p.objects ==> (p.objects[ip].claimRef.None? <==> !named && (ip in objs ==> objs[ip].claimRef.None?)))
  {
    hide Listed;
    var n := |reqs| - 1;
    var init := reqs[..n];
    assert |p.ips| == n by {
      GrantedCount(objs, uid, init, p);
    }
    forall j: nat | j < n ensures init[j] == reqs[j] && p.ips[j] == Wished(reqs, picks, j) {
    }
    assert ip in ByValue(init, p.ips) <==> exists j: nat :: j < n && reqs[j].addr.IP? && Wished(reqs, picks, j) == ip;
    assert ip in Created(init, p.ips) <==> exists j: nat :: j < n && reqs[j].addr.NoIP? && Wished(reqs, picks, j) == ip;
  }

  lemma GrantOneIff(objs: Objects, uid: UID, reqs: seq<Request>, picks: seq<IP>, p: Progress)
    requires reqs != [] && p.ok && Granted(objs, uid, reqs[..|reqs| - 1], p)
    requires forall k: nat | k < |reqs| - 1 :: p.ips[k] == Wished(reqs[..|reqs| - 1], picks, k)
    ensures GrantOne(p, uid, reqs[|reqs| - 1], PickAt(picks, |reqs| - 1)).ok <==> CanGrant(objs, reqs, picks, |reqs| - 1)
  {
    hide Granted;
    PrefixSets(objs, uid, reqs, picks, p, Wished(reqs, picks, |reqs| - 1));
  }

  // ---- Writing back ----

  /** What writing the allocated addresses back leaves in the specification. */
  ghost function WrittenBack(reqs: seq<Request>, ips: seq<IP>, index: map<nat, nat>): seq<Request>
    requires forall i | i in index :: index[i] < |ips|
  {
    seq(|reqs|, i requires 0 <= i < |reqs| => if i in index then reqs[i].(addr := ips[index[i]]) else reqs[i])
  }

  /** The loop over the index map, in any order. */
  method WriteBack(spec: array<Request>, ips: seq<IP>, index: map<nat, nat>)
    requires forall i | i in index :: i < spec.Length && index[i] < |ips|
    modifies spec
    ensures spec[..] == WrittenBack(old(spec[..]), ips, index)
  {
    var rest := index.Keys;
    while rest != {}
      invariant rest <= index.Keys
      invariant forall i: nat | i < spec.Length ::
        spec[i] == if i in index && i !in rest then old(spec[i]).(addr := ips[index[i]]) else old(spec[i])
    {
      var i :| i in rest;
      rest := rest - {i};
      spec[i] := spec[i].(addr := ips[index[i]]);
    }
  }

  // ---- The update ----

  /** The addresses asked for by value that the object did not have. */
  ghost function Wanted(reqs: seq<Request>, held: set<IP>): set<IP> {
    set i | 0 <= i < |reqs| && reqs[i].addr.IP? && !Kept(reqs, held, i) :: reqs[i].addr
  }

  /** The addresses that fill the empty requests. */
  ghost function Made(reqs: seq<Request>, spec: seq<Request>): set<IP>
    requires |spec| == |reqs|
  {
    set i | 0 <= i < |reqs| && reqs[i].addr.NoIP? :: spec[i].addr
  }

  /**
   * Given addresses are untouched, and each empty request is filled, at its own index, with a new address
   * of its family. An address asked for by value existed unclaimed, or fills an empty request.
   */
  ghost predicate Fills(objs: Objects, held: set<IP>, reqs: seq<Request>, spec: seq<Request>) {
    && |spec| == |reqs|
    && (forall i | 0 <= i < |reqs| && reqs[i].addr.IP? :: spec[i] == reqs[i])
    && (forall i | 0 <= i < |reqs| && reqs[i].addr.NoIP? ::
          spec[i].family == reqs[i].family && HasFamily(spec[i].addr, reqs[i].family) && spec[i].addr !in objs)
    && (forall i, j | 0 <= i < j < |reqs| && reqs[i].addr.NoIP? && reqs[j].addr.NoIP? :: spec[i].addr != spec[j].addr)
    && (forall i, j | 0 <= i < j < |reqs| && reqs[i].addr.IP? && !Kept(reqs, held, i) && !Kept(reqs, held, j) :: reqs[i].addr != reqs[j].addr)
    && (forall ip | ip in Wanted(reqs, held) :: if ip in objs then objs[ip].claimRef.None? else ip in Made(reqs, spec))
  }

  /** The facts of a successful plan. */
  ghost predicate Done(objs: Objects, uid: UID, reqs: seq<Request>, held: set<IP>, toAllocate: seq<Request>, index: map<nat, nat>, p: Progress) {
    NoIP !in held && Indexed(reqs, held, |reqs|, toAllocate, index) && Granted(objs, uid, toAllocate, p)
  }

  lemma WrittenAt(objs: Objects, uid: UID, reqs: seq<Request>, held: set<IP>, toAllocate: seq<Request>, index: map<nat, nat>, p: Progress, i: nat)
    requires Done(objs, uid, reqs, held, toAllocate, index, p) && i < |reqs|
    ensures var spec := WrittenBack(reqs, p.ips, index);
            && |spec| == |reqs|
            && (i in index <==> !Kept(reqs, held, i))
            && (i !in index ==> spec[i] == reqs[i] && reqs[i].addr.IP?)
            && (i in index ==> index[i] < |p.ips| && toAllocate[index[i]] == reqs[i] && spec[i] == reqs[i].(addr := p.ips[index[i]])
                               && HasFamily(spec[i].addr, reqs[i].family) && (reqs[i].addr.IP? ==> spec[i] == reqs[i]))
  {
    hide AfterGrant;
    hide ByValue;
    hide Created;
    assert i in index <==> !Kept(reqs, held, i);
  }

  lemma SetsWritten(objs: Objects, uid: UID, reqs: seq<Request>, held: set<IP>, toAllocate: seq<Request>, index: map<nat, nat>, p: Progress)
    requires Done(objs, uid, reqs, held, toAllocate, index, p)
    ensures |WrittenBack(reqs, p.ips, index)| == |reqs|
    ensures ByValue(toAllocate, p.ips) == Wanted(reqs, held)
    ensures Created(toAllocate, p.ips) == Made(reqs, WrittenBack(reqs, p.ips, index))
  {
    hide Kept;
    hide AfterGrant;
    var spec := WrittenBack(reqs, p.ips, index);
    forall i | 0 <= i < |reqs| && reqs[i].addr.IP? && !Kept(reqs, held, i) ensures reqs[i].addr in ByValue(toAllocate, p.ips) {
      WrittenAt(objs, uid, reqs, held, toAllocate, index, p, i);
      assert p.ips[index[i]] == reqs[i].addr;
    }
    forall i | 0 <= i < |reqs| && reqs[i].addr.NoIP? ensures spec[i].addr in Created(toAllocate, p.ips) {
      WrittenAt(objs, uid, reqs, held, toAllocate, index, p, i);
      assert p.ips[index[i]] == spec[i].addr;
    }
    forall k: nat | k < |toAllocate|
      ensures toAllocate[k].addr.IP? ==> p.ips[k] in Wanted(reqs, held)
      ensures toAllocate[k].addr.NoIP? ==> p.ips[k] in Made(reqs, spec)
    {
      assert Sourced(index, k);
      var i :| i in index && index[i] == k;
      WrittenAt(objs, uid, reqs, held, toAllocate, index, p, i);
    }
  }

  lemma IndexApart(objs: Objects, uid: UID, reqs: seq<Request>, held: set<IP>, toAllocate: seq<Request>, index: map<nat, nat>, p: Progress, i: nat, j: nat)
    requires Done(objs, uid, reqs, held, toAllocate, index, p) && i < j < |reqs| && i in index && j in index
    requires reqs[i].addr.IP? || reqs[j].addr.NoIP?
    ensures p.ips[index[i]] != p.ips[index[j]]
  {
    hide Kept;
    hide AfterGrant;
    hide ByValue;
    hide Created;
    assert toAllocate[index[i]] == reqs[i] && toAllocate[index[j]] == reqs[j] && index[i] < index[j];
  }

  lemma PlanFills(objs: Objects, uid: UID, reqs: seq<Request>, held: set<IP>, toAllocate: seq<Request>, index: map<nat, nat>, p: Progress)
    requires Done(objs, uid, reqs, held, toAllocate, index, p)
    ensures Fills(objs, held, reqs, WrittenBack(reqs, p.ips, index))
    ensures p.objects == AfterGrant(objs, uid, Wanted(reqs, held), Made(reqs, WrittenBack(reqs, p.ips, index)))
  {
    SetsWritten(objs, uid, reqs, held, toAllocate, index, p);
    var spec := WrittenBack(reqs, p.ips, index);
    forall i | 0 <= i < |reqs|
      ensures reqs[i].addr.IP? ==> spec[i] == reqs[i]
      ensures reqs[i].addr.NoIP? ==> spec[i].family == reqs[i].family && HasFamily(spec[i].addr, reqs[i].family) && spec[i].addr !in objs
    {
      WrittenAt(objs, uid, reqs, held, toAllocate, index, p, i);
    }
    forall i, j | 0 <= i < j < |reqs| && reqs[i].addr.NoIP? && reqs[j].addr.NoIP? ensures spec[i].addr != spec[j].addr {
      WrittenAt(objs, uid, reqs, held, toAllocate, index, p, i);
      WrittenAt(objs, uid, reqs, held, toAllocate, index, p, j);
      IndexApart(objs, uid, reqs, held, toAllocate, index, p, i, j);
    }
    forall i, j | 0 <= i < j < |reqs| && reqs[i].addr.IP? && !Kept(reqs, held, i) && !Kept(reqs, held, j) ensures reqs[i].addr != reqs[j].addr {
      WrittenAt(objs, uid, reqs, held, toAllocate, index, p, i);
      WrittenAt(objs, uid, reqs, held, toAllocate, index, p, j);
      IndexApart(objs, uid, reqs, held, toAllocate, index, p, i, j);
    }
    WantedWere(objs, uid, reqs, held, toAllocate, index, p);
    hide AfterGrant;
    hide Indexed;
    hide WrittenBack;
  }

  lemma WantedWere(objs: Objects, uid: UID, reqs: seq<Request>, held: set<IP>, toAllocate: seq<Request>, index: map<nat, nat>, p: Progress)
    requires Done(objs, uid, reqs, held, toAllocate, index, p)
    ensures forall ip | ip in Wanted(reqs, held) ::
      if ip in objs then objs[ip].claimRef.None? else ip in Created(toAllocate, p.ips)
  {
    SetsWritten(objs, uid, reqs, held, toAllocate, index, p);
    hide Kept;
    hide AfterGrant;
    hide Wanted;
  }

  /** The allocators in use and the addresses to release on commit. */
  datatype Transaction = Transaction(allocs: set<IPFamily>, toRelease: set<IP>)

  /** Every request has an allocator, and in order each can be granted. */
  ghost predicate Grantable(objs: Objects, available: set<IPFamily>, uid: UID, olds: seq<Request>, reqs: seq<Request>, picks: seq<IP>) {
    && (forall i | 0 <= i < |olds + reqs| :: (olds + reqs)[i].family in available)
    && GrantAll(objs, uid, NotKept(reqs, Addrs(olds), |reqs|), picks).ok
  }

  /** AllocateUpdate: allocates what the new specification asks for and writes it there; None is an error. */
  method AllocateUpdate(store: AddressStore, available: set<IPFamily>, uid: UID, spec: array<Request>, olds: seq<Request>, picks: seq<IP>)
    returns (txn: Option<Transaction>)
    requires ValidAddrs(olds)
    modifies store, spec
    ensures txn.Some? <==> Grantable(old(store.objects), available, uid, olds, old(spec[..]), picks)
    ensures txn.None? ==> spec[..] == old(spec[..])
    ensures txn.Some? ==> Fills(old(store.objects), Addrs(olds), old(spec[..]), spec[..])
    ensures txn.Some? ==> store.objects == AfterGrant(old(store.objects), uid, Wanted(old(spec[..]), Addrs(olds)), Made(old(spec[..]), spec[..]))
    ensures txn.Some? ==> txn.value.toRelease == Addrs(olds) - Addrs(old(spec[..]))
    ensures txn.Some? ==> forall ip | ip in txn.value.toRelease :: ip.IP? && ip.family in txn.value.allocs
  {
    hide Fills;
    hide Granted;
    hide GrantAll;
    hide WrittenBack;
    hide AfterGrant;
    hide Wanted;
    hide Made;
    hide Kept;
    hide NotKept;
    ghost var objs, reqs := store.objects, spec[..];
    var allocs := AllocatorsFor(available, olds + spec[..]);
    if allocs.None? {
      return None;
    }
    var held := Addrs(olds);
    var toRelease, toAllocate, index := Diff(spec[..], held);
    AllocatorsCover(reqs, olds, allocs.value, toAllocate, index);
    var ips := AllocateIPs(store, allocs.value, uid, toAllocate, picks);
    if ips.None? {
      return None;
    }
    GrantsAre(objs, uid, toAllocate, picks);
    ghost var p := GrantAll(objs, uid, toAllocate, picks);
    GrantedCount(objs, uid, toAllocate, p);
    assert Done(objs, uid, reqs, held, toAllocate, index, p);
    PlanFills(objs, uid, reqs, held, toAllocate, index, p);
    WriteBack(spec, ips.value, index);
    return Some(Transaction(allocs.value, toRelease));
  }

  lemma GrantedCount(objs: Objects, uid: UID, reqs: seq<Request>, p: Progress)
    requires Granted(objs, uid, reqs, p)
    ensures |p.ips| == |reqs|
  {
  }

  lemma AllocatorsCover(reqs: seq<Request>, olds: seq<Request>, allocs: set<IPFamily>, toAllocate: seq<Request>, index: map<nat, nat>)
    requires forall i | 0 <= i < |olds + reqs| :: (olds + reqs)[i].family in allocs
    requires ValidAddrs(olds) && Indexed(reqs, Addrs(olds), |reqs|, toAllocate, index)
    ensures NoIP !in Addrs(olds) && forall ip | ip in Addrs(olds) :: ip.IP? && ip.family in allocs
    ensures forall k | 0 <= k < |toAllocate| :: toAllocate[k].family in allocs
  {
    hide Kept;
    forall i | 0 <= i < |olds| ensures olds[i].family in allocs {
      assert (olds + reqs)[i] == olds[i];
    }
    forall k: nat | k < |toAllocate| ensures toAllocate[k].family in allocs {
      assert Sourced(index, k);
      var i :| i in index && index[i] == k;
      assert (olds + reqs)[|olds| + i] == reqs[i];
    }
  }

  /** Commit: releases, in any order; every address has an allocator. */
  method Commit(store: AddressStore, txn: Transaction)
    requires forall ip | ip in txn.toRelease :: ip.IP? && ip.family in txn.allocs
    modifies store
    ensures store.objects == Released(old(store.objects), txn.toRelease)
  {
    hide Released;
    ghost var objs := store.objects;
    var rest := txn.toRelease;
    ReleasedNone(objs);
    assert txn.toRelease - rest == {};
    while rest != {}
      invariant rest <= txn.toRelease && store.objects == Released(objs, txn.toRelease - rest)
    {
      var ip :| ip in rest;
      ReleasedMore(objs, txn.toRelease - rest, ip);
      store.Release(ip);
      assert txn.toRelease - (rest - {ip}) == txn.toRelease - rest + {ip};
      rest := rest - {ip};
    }
    assert txn.toRelease - {} == txn.toRelease;
  }

  lemma ReleasedNone(objs: Objects)
    ensures Released(objs, {}) == objs
  {
  }

  lemma ReleasedMore(objs: Objects, addrs: set<IP>, ip: IP)
    ensures Released(Released(objs, addrs), {ip}) == Released(objs, addrs + {ip})
  {
  }

  /** What a committed update leaves in the store. */
  ghost function Outcome(objs: Objects, uid: UID, held: set<IP>, reqs: seq<Request>, spec: seq<Request>): Objects
    requires |spec| == |reqs|
  {
    Released(AfterGrant(objs, uid, Wanted(reqs, held), Made(reqs, spec)), held - Addrs(reqs))
  }

  /**
   * An update that can be granted, committed, leaves the object holding exactly the addresses of its new
   * specification: given ones untouched, dropped ones released, every empty request filled at its own index.
   */
  method UpdateAndCommit(store: AddressStore, available: set<IPFamily>, uid: UID, spec: array<Request>, olds: seq<Request>, picks: seq<IP>)
    returns (ok: bool)
    requires ValidAddrs(olds) && Holds(store.objects, uid, Addrs(olds))
    modifies store, spec
    ensures ok <==> Grantable(old(store.objects), available, uid, olds, old(spec[..]), picks)
    ensures ok ==> Fills(old(store.objects), Addrs(olds), old(spec[..]), spec[..])
    ensures ok ==> store.objects == Outcome(old(store.objects), uid, Addrs(olds), old(spec[..]), spec[..])
    ensures ok ==> Holds(store.objects, uid, Addrs(spec[..]))
  {
    hide Fills;
    hide Grantable;
    hide AfterGrant;
    hide Released;
    hide Holds;
    hide ValidAddrs;
    hide Wanted;
    hide Made;
    hide Addrs;
    ghost var objs, reqs := store.objects, spec[..];
    var txn := AllocateUpdate(store, available, uid, spec, olds, picks);
    if txn.None? {
      return false;
    }
    Commit(store, txn.value);
    OldsValid(olds);
    FillsCount(objs, Addrs(olds), reqs, spec[..]);
    OutcomeHolds(objs, uid, Addrs(olds), reqs, spec[..]);
    return true;
  }

  lemma OldsValid(olds: seq<Request>)
    requires ValidAddrs(olds)
    ensures NoIP !in Addrs(olds)
  {
  }

  lemma FillsCount(objs: Objects, held: set<IP>, reqs: seq<Request>, spec: seq<Request>)
    requires Fills(objs, held, reqs, spec)
    ensures |spec| == |reqs|
  {
  }

  // ---- Who holds what afterwards ----

  lemma SpecAddrs(objs: Objects, held: set<IP>, reqs: seq<Request>, spec: seq<Request>)
    requires Fills(objs, held, reqs, spec) && NoIP !in held
    ensures Addrs(spec) == (held * Addrs(reqs)) + Wanted(reqs, held) + Made(reqs, spec)
    ensures Made(reqs, spec) !! objs.Keys
  {
    var all := (held * Addrs(reqs)) + Wanted(reqs, held) + Made(reqs, spec);
    forall i | 0 <= i < |spec| ensures spec[i].addr in all {
      if reqs[i].addr.IP? && !Kept(reqs, held, i) {
        assert reqs[i].addr in Wanted(reqs, held);
      } else if reqs[i].addr.IP? {
        assert reqs[i].addr in held && reqs[i].addr in Addrs(reqs);
      } else {
        assert spec[i].addr in Made(reqs, spec);
      }
    }
    forall ip | ip in all ensures ip in Addrs(spec) {
      if ip in Made(reqs, spec) {
        var i :| 0 <= i < |reqs| && reqs[i].addr.NoIP? && spec[i].addr == ip;
      } else {
        var i :| 0 <= i < |reqs| && reqs[i].addr == ip;
        assert reqs[i].addr.IP? && spec[i] == reqs[i];
      }
    }
  }

  /** An address asked for by value is not among those dropped, nor is a new one. */
  lemma DroppedApart(objs: Objects, uid: UID, held: set<IP>, reqs: seq<Request>, spec: seq<Request>)
    requires Fills(objs, held, reqs, spec) && Holds(objs, uid, held)
    ensures Wanted(reqs, held) !! held - Addrs(reqs) && Made(reqs, spec) !! held
    ensures forall ip | ip in held :: ip in objs && HeldBy(objs[ip], uid)
  {
    forall ip | ip in Wanted(reqs, held) ensures ip in Addrs(reqs) {
    }
    forall ip | ip in Made(reqs, spec) ensures ip !in objs {
    }
  }

  /** Each address after the update. */
  lemma OutcomeAt(objs: Objects, uid: UID, held: set<IP>, reqs: seq<Request>, spec: seq<Request>, ip: IP)
    requires Fills(objs, held, reqs, spec) && Holds(objs, uid, held)
    ensures var after, dropped := Outcome(objs, uid, held, reqs, spec), ip in held - Addrs(reqs);
            && (ip in after <==> ip in Made(reqs, spec) || (ip in objs && !(dropped && objs[ip].controller.Some?)))
            && (ip in after && dropped ==> after[ip] == IPObject(None, None))
            && (ip in after && !dropped ==> after[ip] == Granted1(objs, uid, ip, ip in Wanted(reqs, held)))
  {
    DroppedApart(objs, uid, held, reqs, spec);
    hide Fills;
    hide Holds;
    hide Wanted;
    hide Made;
    hide Addrs;
  }

  lemma OutcomeHolds(objs: Objects, uid: UID, held: set<IP>, reqs: seq<Request>, spec: seq<Request>)
    requires Fills(objs, held, reqs, spec) && Holds(objs, uid, held) && NoIP !in held
    ensures Holds(Outcome(objs, uid, held, reqs, spec), uid, Addrs(spec))
  {
    var after := Outcome(objs, uid, held, reqs, spec);
    SpecAddrs(objs, held, reqs, spec);
    DroppedApart(objs, uid, held, reqs, spec);
    forall ip ensures (ip in after && HeldBy(after[ip], uid)) <==> ip in Addrs(spec) {
      OutcomeAt(objs, uid, held, reqs, spec, ip);
      WantedExists(objs, held, reqs, spec, ip);
    }
  }

  lemma WantedExists(objs: Objects, held: set<IP>, reqs: seq<Request>, spec: seq<Request>, ip: IP)
    requires Fills(objs, held, reqs, spec)
    ensures ip in Wanted(reqs, held) ==> ip in objs || ip in Made(reqs, spec)
  {
  }
}
