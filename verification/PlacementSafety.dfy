/**
 * Anti-affinity over whole runs of the scheduler: internal/controllers/scheduler_controller.go on top of
 * internal/controllers/scheduler/cache.go. A reconcile takes a snapshot, decides on it, and assumes the
 * instance; events may reach the cache in between. What has to stay compatible are the bound instances:
 * those that were assumed and not forgotten or removed since, whether or not the cache still knows them.
 */
module PlacementSafety {
  import opened Core
  import opened Cluster
  import opened CacheModel
  import opened AntiAffinity
  import opened Scheduling

  /** The nodes of the cluster by name. Their labels never change. */
  type World = map<Name, Node>

  /** The cache, the snapshot of the reconcile in progress, and the bound instances. */
  datatype State = State(cache: Cache, snapshot: Option<seq<NodeInfo>>, bound: map<UID, Instance>)

  datatype Event =
    | TakeSnapshot(nodes: seq<NodeInfo>)
    | AssumeOn(inst: Instance, i: nat)
    | Observe(op: Op)
    | ForgetStored(placed: Placed) // binding reported an error although it was stored

  /** Nothing the placement rules look at differs. */
  ghost predicate SameRules(a: Instance, b: Instance) {
    a.namespace == b.namespace && a.labels == b.labels && a.affinity == b.affinity
  }

  ghost predicate Same(a: Instance, b: Instance) {
    a.nodeRef == b.nodeRef && SameRules(a, b)
  }

  /**
   * What events may bring: a node of the cluster comes or goes; a bound instance is added or updated, cached
   * or not, on its node and with its namespace, labels and affinity.
   */
  ghost predicate Allowed(world: World, bound: map<UID, Instance>, op: Op) {
    match op
    case Assume(_) => false
    case SetContainer(node) => node.name in world && world[node.name] == node
    case Add(inst) => inst.uid in bound && Same(bound[inst.uid], inst)
    case Update(before, after) => before.uid in bound ==> Same(bound[before.uid], after)
    case Remove(inst) => inst.uid in bound ==> bound[inst.uid].nodeRef == inst.nodeRef
    case Forget(inst) => inst.uid in bound ==> bound[inst.uid].nodeRef == inst.nodeRef
    case _ => true
  }

  /** An instance stops being bound when it is forgotten or removed. */
  ghost function BoundAfter(bound: map<UID, Instance>, op: Op, cache: Cache): map<UID, Instance> {
    match op
    case Remove(inst) => if inst.uid in cache.entries then bound else bound - {inst.uid}
    case Forget(inst) => if inst.uid in cache.entries then bound else bound - {inst.uid}
    case _ => bound
  }

  ghost predicate Next(world: World, s: State, e: Event, s': State) {
    match e
    case TakeSnapshot(nodes) => Lists(nodes, Placements(s.cache)) && s' == s.(snapshot := Some(nodes))
    case AssumeOn(inst, i) =>
      && s.snapshot.Some? && Candidate(inst, s.snapshot.value, i)
      && var placed: Placed := inst.(nodeRef := Some(s.snapshot.value[i].node.name));
         var (cache, outcome) := Step(s.cache, Assume(placed));
         s' == State(cache, None, if outcome.Done? then s.bound[inst.uid := placed] else s.bound)
    case Observe(op) =>
      && Allowed(world, s.bound, op)
      && s' == State(Step(s.cache, op).0, s.snapshot, BoundAfter(s.bound, op, Step(s.cache, op).0))
    case ForgetStored(inst) =>
      Allowed(world, s.bound, Forget(inst)) && s' == s.(cache := Step(s.cache, Forget(inst)).0)
  }

  // ---- What is to be kept ----

  ghost predicate InWorld(world: World, bound: map<UID, Instance>) {
    forall uid | uid in bound :: bound[uid].nodeRef.Some? && bound[uid].nodeRef.value in world
  }

  ghost function NodeOf(world: World, x: Instance): Node
    requires x.nodeRef.Some? && x.nodeRef.value in world
  {
    world[x.nodeRef.value]
  }

  /** No two bound instances share a domain that a required term of either one forbids. */
  ghost predicate Safe(world: World, bound: map<UID, Instance>)
    requires InWorld(world, bound)
  {
    forall u, v | u in bound && v in bound && u != v ::
      Compatible(bound[u], NodeOf(world, bound[u]), bound[v], NodeOf(world, bound[v]))
  }

  /** The cache knows bound instances only, as they are. */
  ghost predicate Known(bound: map<UID, Instance>, cache: Cache) {
    forall uid | uid in cache.entries :: uid != EMPTY && uid in bound && Same(bound[uid], cache.entries[uid].instance)
  }

  ghost predicate LiveIn(world: World, cache: Cache) {
    forall k | k in cache.live :: k in world && cache.live[k] == world[k]
  }

  ghost predicate Separate(a: Node, b: Node) {
    forall key :: !SharedDomain(key, a, b)
  }

  ghost predicate ShownOn(n: NodeInfo, uid: UID, x: Instance, labels: Labels) {
    n.node.labels == labels && uid in n.instances && SameRules(n.instances[uid], x)
  }

  /** The snapshot shows the instance, or no node of the snapshot has anything to do with it. */
  ghost predicate Covered(nodes: seq<NodeInfo>, uid: UID, x: Instance, node: Node) {
    || (exists j :: 0 <= j < |nodes| && ShownOn(nodes[j], uid, x, node.labels))
    || (forall j | 0 <= j < |nodes| :: Separate(nodes[j].node, node))
  }

  ghost predicate Covers(world: World, nodes: seq<NodeInfo>, bound: map<UID, Instance>)
    requires InWorld(world, bound)
  {
    && (forall i | 0 <= i < |nodes| :: nodes[i].node.name in world && world[nodes[i].node.name] == nodes[i].node)
    && (forall uid | uid in bound :: Covered(nodes, uid, bound[uid], NodeOf(world, bound[uid])))
  }

  ghost predicate Inv(world: World, s: State) {
    && InWorld(world, s.bound) && Safe(world, s.bound) && Known(s.bound, s.cache) && LiveIn(world, s.cache)
    && (s.snapshot.Some? ==> Covers(world, s.snapshot.value, s.bound))
  }

  ghost predicate ByName(world: World) {
    forall k | k in world :: world[k].name == k
  }

  // ---- When a snapshot is good enough ----

  /** No other node shares a domain with the node. */
  ghost predicate Alone(world: World, v: Name)
    requires v in world
  {
    forall w | w in world && w != v :: Separate(world[w], world[v])
  }

  /** A snapshot taken now would show the instance, or nothing it could conflict with. */
  ghost predicate Visible(world: World, cache: Cache, uid: UID, x: Instance)
    requires x.nodeRef.Some? && x.nodeRef.value in world
  {
    var v := x.nodeRef.value;
    world[v].labels == map[] || if v in cache.live then uid in cache.entries else Alone(world, v)
  }

  ghost predicate AllVisible(world: World, s: State)
    requires InWorld(world, s.bound)
  {
    forall uid | uid in s.bound :: Visible(world, s.cache, uid, s.bound[uid])
  }

  lemma NoLabelsSeparate(a: Node, b: Node)
    requires b.labels == map[]
    ensures Separate(a, b)
  {
  }

  lemma VisibleCovered(world: World, nodes: seq<NodeInfo>, s: State, uid: UID)
    requires InWorld(world, s.bound) && Known(s.bound, s.cache) && LiveIn(world, s.cache) && Lists(nodes, Placements(s.cache))
    requires uid in s.bound && Visible(world, s.cache, uid, s.bound[uid])
    ensures Covered(nodes, uid, s.bound[uid], NodeOf(world, s.bound[uid]))
  {
    hide Separate;
    var x := s.bound[uid];
    var v := x.nodeRef.value;
    if world[v].labels == map[] {
      forall j | 0 <= j < |nodes| ensures Separate(nodes[j].node, world[v]) {
        NoLabelsSeparate(nodes[j].node, world[v]);
      }
    } else if v in s.cache.live {
      assert v in Placements(s.cache);
      var j :| 0 <= j < |nodes| && nodes[j].node.name == v;
      assert uid in PlacedOn(s.cache, v);
      assert ShownOn(nodes[j], uid, x, world[v].labels);
    } else {
      forall j | 0 <= j < |nodes| ensures Separate(nodes[j].node, world[v]) {
        assert nodes[j].node.name in Placements(s.cache);
      }
    }
  }

  lemma ListedInWorld(world: World, nodes: seq<NodeInfo>, cache: Cache)
    requires LiveIn(world, cache) && Lists(nodes, Placements(cache))
    ensures forall i | 0 <= i < |nodes| :: nodes[i].node.name in cache.live && nodes[i].node.name in world && world[nodes[i].node.name] == nodes[i].node
  {
    forall i | 0 <= i < |nodes| ensures nodes[i].node.name in cache.live && world[nodes[i].node.name] == nodes[i].node {
      assert nodes[i].node.name in Placements(cache);
    }
  }

  lemma SnapshotKeepsInv(world: World, s: State, nodes: seq<NodeInfo>)
    requires Inv(world, s) && AllVisible(world, s) && Lists(nodes, Placements(s.cache))
    ensures Inv(world, s.(snapshot := Some(nodes)))
  {
    hide Lists;
    hide Covered;
    hide Visible;
    hide Safe;
    ListedInWorld(world, nodes, s.cache);
    forall uid | uid in s.bound ensures Covered(nodes, uid, s.bound[uid], NodeOf(world, s.bound[uid])) {
      VisibleCovered(world, nodes, s, uid);
    }
  }

  // ---- Assuming ----

  lemma ForbidsSame(a: Instance, an: Node, b: Instance, bn: Node, a': Instance, an': Node, b': Instance, bn': Node)
    requires SameRules(a, a') && SameRules(b, b') && an.labels == an'.labels && bn.labels == bn'.labels
    requires !Forbids(a, an, b, bn)
    ensures !Forbids(a', an', b', bn')
  {
  }

  lemma CompatibleSame(a: Instance, an: Node, b: Instance, bn: Node, a': Instance, an': Node, b': Instance, bn': Node)
    requires SameRules(a, a') && SameRules(b, b') && an.labels == an'.labels && bn.labels == bn'.labels
    requires Compatible(a, an, b, bn)
    ensures Compatible(a', an', b', bn') && Compatible(b', bn', a', an')
  {
    hide Forbids;
    ForbidsSame(a, an, b, bn, a', an', b', bn');
    ForbidsSame(b, bn, a, an, b', bn', a', an');
  }

  lemma SeparateCompatible(a: Instance, an: Node, b: Instance, bn: Node)
    requires Separate(an, bn)
    ensures Compatible(a, an, b, bn) && Compatible(b, bn, a, an)
  {
    forall key ensures !SharedDomain(key, an, bn) && !SharedDomain(key, bn, an) {
      assert !SharedDomain(key, an, bn);
    }
  }

  /** A node that passed on the snapshot is compatible with everything bound now. */
  lemma PassedIsCompatible(world: World, inst: Instance, nodes: seq<NodeInfo>, i: nat, bound: map<UID, Instance>, uid: UID)
    requires InWorld(world, bound) && Covers(world, nodes, bound) && i < |nodes| && AntiAffinityPass(inst, nodes, nodes[i].node) && uid in bound
    ensures var placed := inst.(nodeRef := Some(nodes[i].node.name));
            && Compatible(placed, nodes[i].node, bound[uid], NodeOf(world, bound[uid]))
            && Compatible(bound[uid], NodeOf(world, bound[uid]), placed, nodes[i].node)
  {
    hide Compatible;
    var x := bound[uid];
    var placed := inst.(nodeRef := Some(nodes[i].node.name));
    if j :| 0 <= j < |nodes| && ShownOn(nodes[j], uid, x, NodeOf(world, x).labels) {
      CompatibleSame(inst, nodes[i].node, nodes[j].instances[uid], nodes[j].node, placed, nodes[i].node, x, NodeOf(world, x));
    } else {
      SeparateCompatible(placed, nodes[i].node, x, NodeOf(world, x));
    }
  }

  lemma AssumeKeepsSafe(world: World, inst: Instance, nodes: seq<NodeInfo>, i: nat, bound: map<UID, Instance>)
    requires InWorld(world, bound) && Safe(world, bound) && Covers(world, nodes, bound) && i < |nodes| && AntiAffinityPass(inst, nodes, nodes[i].node)
    ensures var after := bound[inst.uid := inst.(nodeRef := Some(nodes[i].node.name))];
            InWorld(world, after) && Safe(world, after)
  {
    hide Compatible;
    hide AntiAffinityPass;
    hide Covered;
    var after := bound[inst.uid := inst.(nodeRef := Some(nodes[i].node.name))];
    assert world[nodes[i].node.name] == nodes[i].node;
    forall u, v | u in after && v in after && u != v
      ensures Compatible(after[u], NodeOf(world, after[u]), after[v], NodeOf(world, after[v]))
    {
      if u == inst.uid {
        PassedIsCompatible(world, inst, nodes, i, bound, v);
      } else if v == inst.uid {
        PassedIsCompatible(world, inst, nodes, i, bound, u);
      }
    }
  }

  // ---- Events ----

  /** Nothing appears among the bound instances, and nothing moves. */
  lemma ShrinkKeepsInv(world: World, s: State, s': State)
    requires Inv(world, s) && s'.snapshot == s.snapshot && Known(s'.bound, s'.cache) && LiveIn(world, s'.cache)
    requires forall uid | uid in s'.bound :: uid in s.bound && s'.bound[uid] == s.bound[uid]
    ensures Inv(world, s')
  {
    hide Compatible;
    hide Covered;
  }

  lemma ObserveKnown(world: World, s: State, op: Op)
    requires Known(s.bound, s.cache) && LiveIn(world, s.cache) && Allowed(world, s.bound, op)
    ensures var c := Step(s.cache, op).0;
            var bound := BoundAfter(s.bound, op, c);
            && Known(bound, c) && LiveIn(world, c)
            && forall uid | uid in bound :: uid in s.bound && bound[uid] == s.bound[uid]
  {
  }

  lemma AssumeKeepsInv(world: World, s: State, e: Event, s': State)
    requires Inv(world, s) && e.AssumeOn? && Next(world, s, e, s')
    ensures Inv(world, s')
  {
    hide Safe;
    hide Covers;
    hide AntiAffinityPass;
    AssumeKeepsSafe(world, e.inst, s.snapshot.value, e.i, s.bound);
  }

  lemma NextKeepsInv(world: World, s: State, e: Event, s': State)
    requires Inv(world, s) && Next(world, s, e, s') && (e.TakeSnapshot? ==> AllVisible(world, s))
    ensures Inv(world, s')
  {
    hide Safe;
    hide Known;
    hide LiveIn;
    hide InWorld;
    hide Covers;
    hide Step;
    hide Allowed;
    hide BoundAfter;
    hide Lists;
    hide AllVisible;
    hide AntiAffinityPass;
    match e {
      case TakeSnapshot(nodes) => SnapshotKeepsInv(world, s, nodes);
      case AssumeOn(inst, i) => AssumeKeepsInv(world, s, e, s');
      case Observe(op) =>
        ObserveKnown(world, s, op);
        ShrinkKeepsInv(world, s, s');
      case ForgetStored(inst) =>
        ForgetKnown(world, s, inst);
        ShrinkKeepsInv(world, s, s');
    }
  }

  lemma ForgetKnown(world: World, s: State, inst: Placed)
    requires Known(s.bound, s.cache) && LiveIn(world, s.cache)
    ensures var c := Step(s.cache, Forget(inst)).0; Known(s.bound, c) && LiveIn(world, c)
  {
  }

  // ---- Runs ----

  /** A scheduler that starts, with an empty cache, over instances bound before. */
  ghost predicate Initial(world: World, s: State) {
    s.cache == EMPTY_CACHE && s.snapshot.None? && InWorld(world, s.bound) && Safe(world, s.bound)
  }

  ghost predicate IsRun(world: World, states: seq<State>, events: seq<Event>) {
    && |states| == |events| + 1 && Initial(world, states[0])
    && forall i | 0 <= i < |events| :: Next(world, states[i], events[i], states[i + 1])
  }

  /**
   * Over every run in which every snapshot is taken with all bound instances visible, no two bound
   * instances, and so no two cached ones, violate a required anti-affinity term of either one.
   */
  lemma {:induction false} AlwaysSafe(world: World, states: seq<State>, events: seq<Event>, i: nat)
    requires IsRun(world, states, events) && i < |states|
    requires forall j | 0 <= j < |events| && events[j].TakeSnapshot? :: InWorld(world, states[j].bound) ==> AllVisible(world, states[j])
    ensures Inv(world, states[i]) && Safe(world, states[i].bound)
  {
    hide Next;
    hide Safe;
    hide AllVisible;
    if i > 0 {
      AlwaysSafe(world, states, events, i - 1);
      NextKeepsInv(world, states[i - 1], events[i - 1], states[i]);
    }
  }

  lemma CachedSafe(world: World, s: State, u: UID, v: UID)
    requires Inv(world, s) && u in s.cache.entries && v in s.cache.entries && u != v
    ensures Compatible(s.cache.entries[u].instance, NodeOf(world, s.cache.entries[u].instance),
                       s.cache.entries[v].instance, NodeOf(world, s.cache.entries[v].instance))
  {
    hide Compatible;
    CompatibleSame(s.bound[u], NodeOf(world, s.bound[u]), s.bound[v], NodeOf(world, s.bound[v]),
                   s.cache.entries[u].instance, NodeOf(world, s.bound[u]), s.cache.entries[v].instance, NodeOf(world, s.bound[v]));
  }

  // ---- Cached instances, with expiry ----

  /** No node goes, and what is added is a confirmation: the cache has the instance already. */
  ghost predicate Confirming(s: State, e: Event) {
    e.Observe? ==> !e.op.RemoveContainer? && (e.op.Add? ==> e.op.inst.uid in s.cache.entries)
  }

  /** The state with the cached ones as its only bound instances. */
  ghost function CachedOnly(s: State): State {
    s.(bound := map uid | uid in s.bound && uid in s.cache.entries :: s.bound[uid])
  }

  /** The nodes of cached instances, and those in the snapshot, are live. */
  ghost predicate NodesLive(s: State) {
    && (forall uid | uid in s.cache.entries ::
          s.cache.entries[uid].instance.nodeRef.Some? && s.cache.entries[uid].instance.nodeRef.value in s.cache.live)
    && (s.snapshot.Some? ==> forall i | 0 <= i < |s.snapshot.value| :: s.snapshot.value[i].node.name in s.cache.live)
  }

  ghost predicate CachedInv(world: World, s: State) {
    Inv(world, CachedOnly(s)) && NodesLive(s)
  }

  lemma CachedKnown(world: World, s: State)
    requires CachedInv(world, s)
    ensures Known(s.bound, s.cache) && LiveIn(world, s.cache)
  {
    hide Safe;
    hide Covers;
  }

  /** Cached instances on live nodes are visible. */
  lemma CachedVisible(world: World, s: State)
    requires CachedInv(world, s)
    ensures AllVisible(world, CachedOnly(s))
  {
    hide Safe;
    hide Covers;
    hide Alone;
  }

  lemma CachedSnapshot(world: World, s: State, nodes: seq<NodeInfo>, s': State)
    requires CachedInv(world, s) && Next(world, s, TakeSnapshot(nodes), s')
    ensures CachedInv(world, s')
  {
    CachedVisible(world, s);
    SnapshotKeepsInv(world, CachedOnly(s), nodes);
    assert CachedOnly(s') == CachedOnly(s).(snapshot := Some(nodes));
    ListedInWorld(world, nodes, s.cache);
    hide Inv;
    hide AllVisible;
    hide Lists;
  }

  /** What assuming does, seen from the cached instances alone. */
  lemma AssumedCached(world: World, s: State, e: Event, s': State)
    requires e.AssumeOn? && Next(world, s, e, s') && NodesLive(s)
    ensures s.snapshot.Some? && e.i < |s.snapshot.value| && AntiAffinityPass(e.inst, s.snapshot.value, s.snapshot.value[e.i].node)
    ensures s'.snapshot.None? && s'.cache.live == s.cache.live && NodesLive(s')
    ensures var placed := e.inst.(nodeRef := Some(s.snapshot.value[e.i].node.name));
            if e.inst.uid != EMPTY && e.inst.uid !in s.cache.entries
            then s'.cache == Put(s.cache, e.inst.uid, placed, Assumed) && CachedOnly(s').bound == CachedOnly(s).bound[e.inst.uid := placed]
            else s' == s.(snapshot := None)
  {
    hide AntiAffinityPass;
  }

  lemma CachedAssume(world: World, s: State, e: Event, s': State)
    requires CachedInv(world, s) && e.AssumeOn? && Next(world, s, e, s')
    ensures CachedInv(world, s')
  {
    hide Safe;
    hide Covers;
    hide AntiAffinityPass;
    hide Next;
    hide NodesLive;
    AssumedCached(world, s, e, s');
    AssumeKeepsSafe(world, e.inst, s.snapshot.value, e.i, CachedOnly(s).bound);
    if s' == s.(snapshot := None) {
      assert CachedOnly(s').bound == CachedOnly(s).bound;
    }
  }

  /** Events bring nothing new into the cache, and no node goes. */
  lemma ConfirmingShrinks(s: State, op: Op)
    requires Confirming(s, Observe(op)) && !op.Assume?
    ensures var c := Step(s.cache, op).0;
            && (forall uid | uid in c.entries :: uid in s.cache.entries)
            && (forall k | k in s.cache.live :: k in c.live)
  {
  }

  lemma StillLive(s: State, s': State)
    requires NodesLive(s) && s'.snapshot == s.snapshot && Known(s.bound, s.cache) && Known(s'.bound, s'.cache)
    requires forall uid | uid in s'.cache.entries :: uid in s.cache.entries
    requires forall k | k in s.cache.live :: k in s'.cache.live
    requires forall uid | uid in s'.bound :: uid in s.bound && s'.bound[uid] == s.bound[uid]
    ensures NodesLive(s')
  {
  }

  lemma CachedShrinks(world: World, s: State, s': State)
    requires CachedInv(world, s) && s'.snapshot == s.snapshot && Known(s.bound, s.cache) && Known(s'.bound, s'.cache) && LiveIn(world, s'.cache)
    requires forall uid | uid in s'.cache.entries :: uid in s.cache.entries
    requires forall k | k in s.cache.live :: k in s'.cache.live
    requires forall uid | uid in s'.bound :: uid in s.bound && s'.bound[uid] == s.bound[uid]
    ensures CachedInv(world, s')
  {
    StillLive(s, s');
    hide NodesLive;
    hide Inv;
    ShrinkKeepsInv(world, CachedOnly(s), CachedOnly(s'));
  }

  lemma CachedNext(world: World, s: State, e: Event, s': State)
    requires CachedInv(world, s) && Next(world, s, e, s') && Confirming(s, e)
    ensures CachedInv(world, s')
  {
    hide CachedInv;
    hide Step;
    hide BoundAfter;
    hide Known;
    hide LiveIn;
    hide Lists;
    CachedKnown(world, s);
    match e {
      case TakeSnapshot(nodes) => CachedSnapshot(world, s, nodes, s');
      case AssumeOn(_, _) => CachedAssume(world, s, e, s');
      case Observe(op) =>
        ObserveKnown(world, s, op);
        ConfirmingShrinks(s, op);
        CachedShrinks(world, s, s');
      case ForgetStored(inst) =>
        ForgetKnown(world, s, inst);
        ConfirmingShrinks(s, Forget(inst));
        CachedShrinks(world, s, s');
    }
  }

  lemma {:induction false} CachedRun(world: World, states: seq<State>, events: seq<Event>, i: nat)
    requires IsRun(world, states, events) && i < |states| && forall j | 0 <= j < |events| :: Confirming(states[j], events[j])
    ensures CachedInv(world, states[i])
  {
    hide Next;
    hide Confirming;
    if i > 0 {
      CachedRun(world, states, events, i - 1);
      hide CachedInv;
      CachedNext(world, states[i - 1], events[i - 1], states[i]);
    } else {
      assert CachedOnly(states[0]).bound == map[];
    }
  }

  /**
   * Over every run, expiry included, in which no node is removed and only cached instances are confirmed,
   * no two cached instances share a domain that a required term of either one forbids.
   */
  lemma CachedAlwaysSafe(world: World, states: seq<State>, events: seq<Event>, i: nat, u: UID, v: UID)
    requires IsRun(world, states, events) && i < |states| && forall j | 0 <= j < |events| :: Confirming(states[j], events[j])
    requires u in states[i].cache.entries && v in states[i].cache.entries && u != v
    ensures var c := states[i].cache;
            var a, b := c.entries[u].instance, c.entries[v].instance;
            && a.nodeRef.Some? && b.nodeRef.Some? && a.nodeRef.value in c.live && b.nodeRef.value in c.live
            && Compatible(a, c.live[a.nodeRef.value], b, c.live[b.nodeRef.value])
  {
    hide IsRun;
    hide Confirming;
    hide Compatible;
    CachedRun(world, states, events, i);
    CachedSafe(world, CachedOnly(states[i]), u, v);
  }
}
