/**
 * How far anti-affinity goes: the exact condition under which every continuation of a scheduler state keeps
 * the bound instances compatible. Cleanup (internal/controllers/scheduler/cache.go) forgets an assumed
 * instance as soon as its binding has finished, and a later snapshot then misses it.
 */
module PlacementLimits {
  import opened Core
  import opened Cluster
  import opened CacheModel
  import opened Sorting
  import opened AntiAffinity
  import opened Scheduling
  import opened PlacementSafety

  /** The cache knows the instance, and its node unless no other node matters; a node without labels never matters. */
  ghost predicate Recorded(world: World, cache: Cache, uid: UID, x: Instance)
    requires x.nodeRef.Some? && x.nodeRef.value in world
  {
    var v := x.nodeRef.value;
    world[v].labels == map[] || (uid in cache.entries && (v in cache.live || Alone(world, v)))
  }

  ghost predicate AllRecorded(world: World, s: State)
    requires InWorld(world, s.bound)
  {
    forall uid | uid in s.bound :: Recorded(world, s.cache, uid, s.bound[uid])
  }

  ghost predicate NothingExpires(cache: Cache) {
    forall uid | uid in cache.entries :: !cache.entries[uid].phase.AssumedFinished?
  }

  /** Cleanup finds nothing to expire, no node goes, and no stored binding is forgotten. */
  ghost predicate Careful(s: State, e: Event) {
    match e
    case Observe(op) => !op.RemoveContainer? && (op.Cleanup? ==> NothingExpires(s.cache))
    case ForgetStored(_) => false
    case _ => true
  }

  ghost predicate Move(world: World, s: State, s': State) {
    exists e :: Careful(s, e) && Next(world, s, e, s')
  }

  /** A continuation: the states a careful scheduler goes through. */
  ghost predicate Path(world: World, p: seq<State>) {
    p != [] && forall i | 0 <= i < |p| - 1 :: Move(world, p[i], p[i + 1])
  }

  // ---- The guard of cleanup ----

  /** Cleanup loses track of a recorded instance if and only if its binding has finished and its node has a label. */
  lemma CleanupLoses(world: World, s: State, s': State, uid: UID)
    requires Inv(world, s) && Next(world, s, Observe(Cleanup), s')
    requires uid in s.cache.entries && Recorded(world, s.cache, uid, s.bound[uid])
    ensures uid in s'.bound && s'.bound[uid] == s.bound[uid]
    ensures !Recorded(world, s'.cache, uid, s'.bound[uid])
       <==> s.cache.entries[uid].phase.AssumedFinished? && world[s.bound[uid].nodeRef.value].labels != map[]
  {
    hide Safe;
    hide Covers;
    hide Alone;
  }

  // ---- All recorded: every continuation is safe ----

  ghost predicate Listable(s: State) {
    s.snapshot.Some? ==> forall i | 0 <= i < |s.snapshot.value| :: s.snapshot.value[i].node.name in s.cache.live
  }

  lemma RecordedVisible(world: World, s: State)
    requires InWorld(world, s.bound) && AllRecorded(world, s)
    ensures AllVisible(world, s)
  {
    hide Alone;
  }

  lemma ObserveKeepsRecorded(world: World, s: State, op: Op, s': State)
    requires Inv(world, s) && AllRecorded(world, s) && Careful(s, Observe(op)) && Next(world, s, Observe(op), s') && InWorld(world, s'.bound)
    ensures AllRecorded(world, s') && (Listable(s) ==> Listable(s'))
  {
    hide Safe;
    hide Covers;
    hide Alone;
    hide Allowed;
    hide LiveIn;
    ObserveEntries(s.cache, op, s.bound);
    hide Step;
    hide NothingExpires;
    assert forall uid | uid in s'.bound :: uid in s.bound && s'.bound[uid] == s.bound[uid];
  }

  /** A careful event keeps every entry that stays bound, and every live node. */
  lemma ObserveEntries(cache: Cache, op: Op, bound: map<UID, Instance>)
    requires !op.RemoveContainer? && (op.Cleanup? ==> NothingExpires(cache))
    ensures var c := Step(cache, op).0;
            && (forall uid | uid in cache.entries && uid in BoundAfter(bound, op, c) :: uid in c.entries)
            && (forall k | k in cache.live :: k in c.live)
  {
  }

  lemma AssumeKeepsRecorded(world: World, s: State, e: Event, s': State)
    requires Inv(world, s) && AllRecorded(world, s) && Listable(s) && e.AssumeOn? && Next(world, s, e, s') && InWorld(world, s'.bound)
    ensures AllRecorded(world, s') && Listable(s')
  {
    hide Safe;
    hide Covers;
    hide Alone;
    hide AntiAffinityPass;
  }

  lemma MoveKeeps(world: World, s: State, s': State)
    requires Inv(world, s) && AllRecorded(world, s) && Listable(s) && Move(world, s, s')
    ensures Inv(world, s') && AllRecorded(world, s') && Listable(s')
  {
    hide Inv;
    hide Next;
    hide AllRecorded;
    hide AllVisible;
    var e :| Careful(s, e) && Next(world, s, e, s');
    InvWorld(world, s);
    RecordedVisible(world, s);
    NextKeepsInv(world, s, e, s');
    InvWorld(world, s');
    match e {
      case TakeSnapshot(nodes) => SnapshotKeepsRecorded(world, s, nodes, s');
      case AssumeOn(_, _) => AssumeKeepsRecorded(world, s, e, s');
      case Observe(op) => ObserveKeepsRecorded(world, s, op, s');
    }
  }

  lemma InvWorld(world: World, s: State)
    requires Inv(world, s)
    ensures InWorld(world, s.bound) && Safe(world, s.bound)
  {
  }

  lemma SnapshotKeepsRecorded(world: World, s: State, nodes: seq<NodeInfo>, s': State)
    requires Inv(world, s) && AllRecorded(world, s) && Next(world, s, TakeSnapshot(nodes), s')
    ensures AllRecorded(world, s') && Listable(s')
  {
    hide Recorded;
    hide Lists;
    hide Safe;
    hide Placements;
    ListedInWorld(world, nodes, s.cache);
  }

  lemma {:induction false} PathSafe(world: World, p: seq<State>, i: nat)
    requires Path(world, p) && i < |p| && Inv(world, p[0]) && AllRecorded(world, p[0]) && p[0].snapshot.None?
    ensures Inv(world, p[i]) && AllRecorded(world, p[i]) && Listable(p[i])
  {
    hide Move;
    hide Inv;
    hide AllRecorded;
    if i > 0 {
      PathSafe(world, p, i - 1);
      MoveKeeps(world, p[i - 1], p[i]);
    }
  }

  // ---- Something unrecorded: some continuation breaks safety ----

  /** The selector that asks for all of these labels. */
  ghost function SelectorFor(labels: Labels): Selector {
    var accepts := iset l: Labels | Carries(l, labels);
    Selector(accepts, labels == map[])
  }

  ghost predicate Carries(l: Labels, labels: Labels) {
    forall k | k in labels :: k in l && l[k] == labels[k]
  }

  /** An instance whose term excludes instances with the labels of `x` from its domain of the key. */
  ghost function Excluding(uid: UID, x: Instance, key: Name): Instance {
    var term := AntiAffinityTerm(Some(SelectorFor(x.labels)), key);
    Instance(uid, uid, x.namespace, map[], false, 0, None, Some(Affinity(None, Some([term]))), None)
  }

  /** A node to schedule it on: the instance's own, or one that shares a domain with it while its own is not live. */
  lemma PickTarget(world: World, cache: Cache, uid: UID, x: Instance) returns (w: Name, key: Name)
    requires x.nodeRef.Some? && x.nodeRef.value in world && !Recorded(world, cache, uid, x)
    ensures w in world && SharedDomain(key, world[w], world[x.nodeRef.value])
    ensures uid in cache.entries ==> w != x.nodeRef.value && x.nodeRef.value !in cache.live
  {
    var v := x.nodeRef.value;
    if uid !in cache.entries {
      assert world[v].labels.Keys != {};
      key :| key in world[v].labels;
      w := v;
    } else {
      w :| w in world && w != v && !Separate(world[w], world[v]);
      key :| SharedDomain(key, world[w], world[v]);
    }
  }

  lemma PathMore(world: World, p: seq<State>, e: Event, s': State)
    requires Path(world, p) && Careful(p[|p| - 1], e) && Next(world, p[|p| - 1], e, s')
    ensures Path(world, p + [s'])
  {
    hide Next;
    hide Careful;
    var q := p + [s'];
    forall i | 0 <= i < |q| - 1 ensures Move(world, q[i], q[i + 1]) {
      if i < |p| - 1 {
        assert Move(world, p[i], p[i + 1]);
      }
    }
  }

  /** Only `uid` may be left in the cache, on a node that is not live; it is still bound. */
  ghost predicate Cleared(s: State, uid: UID, x: Instance) {
    && s.snapshot.None? && uid in s.bound && s.bound[uid] == x
    && (forall u | u in s.cache.entries :: u == uid)
    && (uid in s.cache.entries ==> x.nodeRef.Some? && x.nodeRef.value !in s.cache.live)
  }

  lemma RemoveOne(world: World, s: State, u: UID) returns (inst: Placed, s': State)
    requires Inv(world, s) && s.snapshot.None? && u in s.cache.entries
    ensures Next(world, s, Observe(Remove(inst)), s') && Careful(s, Observe(Remove(inst)))
    ensures Inv(world, s') && s'.snapshot.None? && s'.cache == Drop(s.cache, u) && s'.bound == s.bound - {u}
  {
    hide Safe;
    inst := s.cache.entries[u].instance.(uid := u);
    var cache := Step(s.cache, Remove(inst)).0;
    s' := State(cache, None, BoundAfter(s.bound, Remove(inst), cache));
    assert s'.cache == Drop(s.cache, u) && s'.bound == s.bound - {u};
    NextKeepsInv(world, s, Observe(Remove(inst)), s');
  }

  /** Every other cached instance can be removed. */
  lemma {:induction false} ClearOthers(world: World, p: seq<State>, s: State, uid: UID, x: Instance) returns (q: seq<State>, t: State)
    requires Path(world, p) && p[|p| - 1] == s && Inv(world, s) && s.snapshot.None? && uid in s.bound && s.bound[uid] == x
    requires uid in s.cache.entries ==> x.nodeRef.Some? && x.nodeRef.value !in s.cache.live
    ensures Path(world, q) && q[0] == p[0] && q[|q| - 1] == t && Inv(world, t) && Cleared(t, uid, x)
    ensures t.cache.live == s.cache.live
    decreases s.cache.entries.Keys
  {
    hide Inv;
    hide Next;
    hide Move;
    if forall u | u in s.cache.entries :: u == uid {
      q, t := p, s;
    } else {
      var u :| u in s.cache.entries && u != uid;
      var inst, s' := RemoveOne(world, s, u);
      PathMore(world, p, Observe(Remove(inst)), s');
      assert u !in s'.cache.entries.Keys;
      q, t := ClearOthers(world, p + [s'], s', uid, x);
    }
  }

  /** The live nodes can be listed. */
  lemma ListLive(cache: Cache, world: World) returns (nodes: seq<NodeInfo>)
    requires LiveIn(world, cache) && ByName(world)
    ensures Lists(nodes, Placements(cache))
  {
    var names := ListOf(cache.live.Keys);
    nodes := seq(|names|, i requires 0 <= i < |names| => NodeInfo(cache.live[names[i]], PlacedOn(cache, names[i])));
    forall i | 0 <= i < |nodes| ensures nodes[i].node.name == names[i] && names[i] in cache.live {
      assert names[i] in names;
    }
    forall k | k in Placements(cache) ensures exists i :: 0 <= i < |nodes| && nodes[i].node.name == k {
      assert k in names;
      var i :| 0 <= i < |names| && names[i] == k;
      assert nodes[i].node.name == k;
    }
  }

  /** On a cleared cache no node shows an instance, so an instance with no other rules fits everywhere. */
  lemma NothingShown(s: State, uid: UID, x: Instance, nodes: seq<NodeInfo>, w: Name) returns (i: nat)
    requires Cleared(s, uid, x) && Lists(nodes, Placements(s.cache)) && w in s.cache.live
    requires uid in s.cache.entries ==> s.cache.entries[uid].instance.nodeRef == x.nodeRef
    ensures i < |nodes| && nodes[i].node.name == w && nodes[i].node == s.cache.live[w]
    ensures forall j | 0 <= j < |nodes| :: nodes[j].instances == map[]
  {
    assert w in Placements(s.cache);
    i :| 0 <= i < |nodes| && nodes[i].node.name == w;
    forall j | 0 <= j < |nodes| ensures nodes[j].instances == map[] {
      assert nodes[j].node.name in Placements(s.cache);
      assert nodes[j].instances == PlacedOn(s.cache, nodes[j].node.name);
    }
  }

  lemma ExcludingFits(n: UID, x: Instance, key: Name, nodes: seq<NodeInfo>, i: nat)
    requires i < |nodes| && forall j | 0 <= j < |nodes| :: nodes[j].instances == map[]
    ensures Candidate(Excluding(n, x, key), nodes, i)
  {
  }

  lemma ExcludingForbids(n: UID, x: Instance, key: Name, placed: Instance, node: Node, xNode: Node)
    requires placed == Excluding(n, x, key).(nodeRef := placed.nodeRef) && SharedDomain(key, node, xNode)
    ensures !Compatible(placed, node, x, xNode)
  {
    var t := Terms(placed)[0];
    assert t in Terms(placed) && Matches(t.selector.value, x.labels);
    assert Forbids(placed, node, x, xNode);
  }

  /** Scheduling the excluding instance on a cleared cache. */
  lemma ScheduleExcluding(world: World, p: seq<State>, s: State, uid: UID, x: Instance, w: Name, key: Name) returns (q: seq<State>, t: State)
    requires Path(world, p) && p[|p| - 1] == s && Inv(world, s) && ByName(world) && Cleared(s, uid, x)
    requires x.nodeRef.Some? && x.nodeRef.value in world && w in world && w in s.cache.live && SharedDomain(key, world[w], world[x.nodeRef.value])
    ensures Path(world, q) && q[0] == p[0] && q[|q| - 1] == t && InWorld(world, t.bound) && !Safe(world, t.bound)
  {
    hide Safe;
    hide Lists;
    hide Compatible;
    hide Covers;
    hide Placements;
    hide Path;
    hide SharedDomain;
    hide Candidate;
    PathEnds(world, p);
    var nodes := ListLive(s.cache, world);
    var i := NothingShown(s, uid, x, nodes, w);
    var n := UpperBound(s.bound.Keys + s.cache.entries.Keys + {EMPTY});
    var inst := Excluding(n, x, key);
    ExcludingFits(n, x, key, nodes, i);
    var s1 := s.(snapshot := Some(nodes));
    PathMore(world, p, TakeSnapshot(nodes), s1);
    var placed: Placed := inst.(nodeRef := Some(w));
    t := State(Step(s.cache, Assume(placed)).0, None, s.bound[n := placed]);
    assert Next(world, s1, AssumeOn(inst, i), t);
    PathMore(world, p + [s1], AssumeOn(inst, i), t);
    q := p + [s1] + [t];
    PathStarts(p, s1, t);
    ExcludingForbids(n, x, key, placed, world[w], world[x.nodeRef.value]);
    NotSafe(world, t.bound, n, uid);
  }

  lemma PathStarts(p: seq<State>, s: State, t: State)
    requires p != []
    ensures (p + [s] + [t])[0] == p[0] && (p + [s] + [t])[|p + [s] + [t]| - 1] == t
  {
  }

  lemma NotSafe(world: World, bound: map<UID, Instance>, u: UID, v: UID)
    requires InWorld(world, bound) && u in bound && v in bound && u != v
    requires !Compatible(bound[u], NodeOf(world, bound[u]), bound[v], NodeOf(world, bound[v]))
    ensures !Safe(world, bound)
  {
  }

  lemma PathEnds(world: World, p: seq<State>)
    requires Path(world, p)
    ensures p != []
  {
  }

  /** If a bound instance is not recorded, a careful continuation ends with two bound instances that exclude each other. */
  lemma UnrecordedBreaks(world: World, s: State, uid: UID) returns (p: seq<State>)
    requires ByName(world) && Inv(world, s) && s.snapshot.None? && uid in s.bound && !Recorded(world, s.cache, uid, s.bound[uid])
    ensures Path(world, p) && p[0] == s && InWorld(world, p[|p| - 1].bound) && !Safe(world, p[|p| - 1].bound)
  {
    hide Safe;
    hide Recorded;
    hide Covers;
    hide SharedDomain;
    var x := s.bound[uid];
    var w, key := PickTarget(world, s.cache, uid, x);
    var e := Observe(SetContainer(world[w]));
    var s1 := s.(cache := Step(s.cache, SetContainer(world[w])).0);
    NextKeepsInv(world, s, e, s1);
    PathMore(world, [s], e, s1);
    var q, t := ClearOthers(world, [s, s1], s1, uid, x);
    var r, u := ScheduleExcluding(world, q, t, uid, x, w, key);
    p := r;
  }

  /**
   * Exactly when a scheduler is safe from here on: every careful continuation keeps the bound instances
   * compatible if and only if all of them are recorded now.
   */
  lemma SafeIffRecorded(world: World, s: State)
    requires ByName(world) && Inv(world, s) && s.snapshot.None?
    ensures AllRecorded(world, s) <==> forall p: seq<State> | Path(world, p) && p[0] == s :: InWorld(world, p[|p| - 1].bound) && Safe(world, p[|p| - 1].bound)
  {
    hide Inv;
    hide Move;
    hide Safe;
    hide Recorded;
    InvWorld(world, s);
    if AllRecorded(world, s) {
      forall p: seq<State> | Path(world, p) && p[0] == s ensures InWorld(world, p[|p| - 1].bound) && Safe(world, p[|p| - 1].bound) {
        PathEnds(world, p);
        PathSafe(world, p, |p| - 1);
        InvWorld(world, p[|p| - 1]);
      }
    } else {
      var uid :| uid in s.bound && !Recorded(world, s.cache, uid, s.bound[uid]);
      var p := UnrecordedBreaks(world, s, uid);
    }
  }

  /**
   * What cleanup may do: after it has dropped a bound instance whose binding finished, on a node with a
   * label, a careful continuation ends with two bound instances that exclude each other.
   */
  lemma CleanupBreaks(world: World, s: State, uid: UID) returns (p: seq<State>)
    requires ByName(world) && Inv(world, s) && s.snapshot.None? && uid in s.cache.entries
    requires s.cache.entries[uid].phase.AssumedFinished? && world[s.bound[uid].nodeRef.value].labels != map[]
    ensures Path(world, p) && Next(world, s, Observe(Cleanup), p[0])
    ensures InWorld(world, p[|p| - 1].bound) && !Safe(world, p[|p| - 1].bound)
  {
    hide Safe;
    hide Covers;
    hide Path;
    var s' := s.(cache := Step(s.cache, Cleanup).0);
    assert Next(world, s, Observe(Cleanup), s');
    NextKeepsInv(world, s, Observe(Cleanup), s');
    p := UnrecordedBreaks(world, s', uid);
  }
}
