/**
 * Topology spread over whole runs: instances that share one list of constraints, placed one after the
 * other by filterNodesByTopology of internal/controllers/scheduler_controller.go.
 */
module SpreadSafety {
  import opened Core
  import opened Cluster
  import opened CacheModel
  import opened AntiAffinity
  import opened TopologySpread
  import opened Scheduling

  ghost predicate DistinctKeys(cs: seq<Constraint>) {
    forall i, j | 0 <= i < j < |cs| :: cs[i].topologyKey != cs[j].topologyKey
  }

  ghost predicate NonEmptySelectors(cs: seq<Constraint>) {
    forall i | 0 <= i < |cs| :: !cs[i].selector.empty
  }

  // ---- A domain's count is the number of its matching instances ----

  /** The node counts for the domain `v` of the constraint. */
  ghost predicate CountsFor(n: Node, cs: seq<Constraint>, c: Constraint, v: Name) {
    HasKeys(n, cs) && c.topologyKey in n.labels && n.labels[c.topologyKey] == v
  }

  /** The matching instances the list shows in domain `v` of constraint `c`. */
  ghost function Shown(nodes: seq<NodeInfo>, cs: seq<Constraint>, c: Constraint, ns: Name, v: Name): set<UID> {
    set i, uid | 0 <= i < |nodes| && uid in nodes[i].instances && CountsFor(nodes[i].node, cs, c, v)
                 && Counted(nodes[i].instances[uid], c.selector, ns) :: uid
  }

  /** No instance is on two nodes. */
  ghost predicate OnePlace(nodes: seq<NodeInfo>) {
    forall i, j, uid | 0 <= i < j < |nodes| && uid in nodes[i].instances :: uid !in nodes[j].instances
  }

  lemma {:induction false} NoOtherKey(n: NodeInfo, cs: seq<Constraint>, ns: Name, key: Name)
    requires forall i | 0 <= i < |cs| :: cs[i].topologyKey != key
    ensures NodeCount(n, cs, ns, key) == 0
  {
    if cs != [] {
      NoOtherKey(n, cs[..|cs| - 1], ns, key);
    }
  }

  /** With distinct keys only one constraint counts towards a domain. */
  lemma {:induction false} NodeCountIs(n: NodeInfo, cs: seq<Constraint>, ns: Name, k: nat)
    requires DistinctKeys(cs) && k < |cs|
    ensures NodeCount(n, cs, ns, cs[k].topologyKey) == Count(n, cs[k], ns)
  {
    var m := |cs| - 1;
    if k == m {
      NoOtherKey(n, cs[..m], ns, cs[k].topologyKey);
    } else {
      NodeCountIs(n, cs[..m], ns, k);
      assert cs[..m][k] == cs[k];
    }
  }

  lemma ShownAppend(nodes: seq<NodeInfo>, n: NodeInfo, cs: seq<Constraint>, c: Constraint, ns: Name, v: Name)
    ensures Shown(nodes + [n], cs, c, ns, v)
         == Shown(nodes, cs, c, ns, v) + if CountsFor(n.node, cs, c, v) then CountedUids(n.instances, c.selector, ns) else {}
  {
    hide CountsFor;
    hide Counted;
    var all := nodes + [n];
    var last := if CountsFor(n.node, cs, c, v) then CountedUids(n.instances, c.selector, ns) else {};
    forall uid | uid in Shown(all, cs, c, ns, v) ensures uid in Shown(nodes, cs, c, ns, v) + last {
      var i :| 0 <= i < |all| && uid in all[i].instances && CountsFor(all[i].node, cs, c, v) && Counted(all[i].instances[uid], c.selector, ns);
      if i < |nodes| {
        assert nodes[i] == all[i];
      }
    }
    forall uid | uid in Shown(nodes, cs, c, ns, v) + last ensures uid in Shown(all, cs, c, ns, v) {
      if uid in last {
        assert all[|nodes|] == n;
      } else {
        var i :| 0 <= i < |nodes| && uid in nodes[i].instances && CountsFor(nodes[i].node, cs, c, v) && Counted(nodes[i].instances[uid], c.selector, ns);
        assert all[i] == nodes[i];
      }
    }
  }

  lemma ShareIs(n: NodeInfo, cs: seq<Constraint>, ns: Name, k: nat, v: Name)
    requires DistinctKeys(cs) && k < |cs| && !cs[k].selector.empty
    ensures Share(n, cs, cs, ns, TopologyPair(cs[k].topologyKey, v))
         == if CountsFor(n.node, cs, cs[k], v) then |CountedUids(n.instances, cs[k].selector, ns)| else 0
  {
    NodeCountIs(n, cs, ns, k);
    hide NodeCount;
  }

  /** The sum kept per domain is the number of matching instances in it. */
  lemma {:induction false} DomainCountIs(nodes: seq<NodeInfo>, cs: seq<Constraint>, ns: Name, k: nat, v: Name)
    requires DistinctKeys(cs) && k < |cs| && !cs[k].selector.empty && OnePlace(nodes)
    ensures DomainCount(nodes, cs, ns, TopologyPair(cs[k].topologyKey, v)) == |Shown(nodes, cs, cs[k], ns, v)|
  {
    hide Share;
    hide CountsFor;
    hide Counted;
    if nodes == [] {
      assert Shown(nodes, cs, cs[k], ns, v) == {};
    } else {
      var m := |nodes| - 1;
      var init, n := nodes[..m], nodes[m];
      assert nodes == init + [n];
      DomainCountIs(init, cs, ns, k, v);
      ShareIs(n, cs, ns, k, v);
      ShownAppend(init, n, cs, cs[k], ns, v);
      assert Shown(init, cs, cs[k], ns, v) !! CountedUids(n.instances, cs[k].selector, ns);
    }
  }

  // ---- The same, read off the cache ----

  ghost predicate IsMember(a: Cache, uid: UID, cs: seq<Constraint>, c: Constraint, ns: Name, v: Name) {
    && uid in a.entries && Counted(a.entries[uid].instance, c.selector, ns)
    && a.entries[uid].instance.nodeRef.Some? && a.entries[uid].instance.nodeRef.value in a.live
    && CountsFor(a.live[a.entries[uid].instance.nodeRef.value], cs, c, v)
  }

  /** The matching instances the cache places in domain `v` of constraint `c`. */
  ghost function Members(a: Cache, cs: seq<Constraint>, c: Constraint, ns: Name, v: Name): set<UID> {
    set uid | uid in a.entries && IsMember(a, uid, cs, c, ns, v)
  }

  lemma ShownIsMembers(nodes: seq<NodeInfo>, a: Cache, cs: seq<Constraint>, c: Constraint, ns: Name, v: Name)
    requires Lists(nodes, Placements(a))
    ensures Shown(nodes, cs, c, ns, v) == Members(a, cs, c, ns, v)
  {
    hide CountsFor;
    hide Counted;
    forall i | 0 <= i < |nodes| ensures nodes[i].instances == PlacedOn(a, nodes[i].node.name) && nodes[i].node.name in a.live
        && a.live[nodes[i].node.name] == nodes[i].node {
    }
    forall uid | uid in Members(a, cs, c, ns, v) ensures uid in Shown(nodes, cs, c, ns, v) {
      var k := a.entries[uid].instance.nodeRef.value;
      assert k in Placements(a);
      var i :| 0 <= i < |nodes| && nodes[i].node.name == k;
      assert uid in nodes[i].instances;
    }
  }

  lemma ListsOnePlace(nodes: seq<NodeInfo>, a: Cache)
    requires Lists(nodes, Placements(a))
    ensures OnePlace(nodes)
  {
    forall i | 0 <= i < |nodes| ensures nodes[i].instances == PlacedOn(a, nodes[i].node.name) {
      assert nodes[i].node.name in Placements(a);
    }
  }

  /**
   * For every constraint, the matching counts of any two domains differ by at most maxSkew. A negative
   * maxSkew admits no node at all.
   */
  ghost predicate Balanced(a: Cache, cs: seq<Constraint>, ns: Name) {
    forall k, m, n | 0 <= k < |cs| && m in a.live && n in a.live && HasKeys(a.live[m], cs) && HasKeys(a.live[n], cs) ::
      |Members(a, cs, cs[k], ns, a.live[m].labels[cs[k].topologyKey])| - |Members(a, cs, cs[k], ns, a.live[n].labels[cs[k].topologyKey])|
      <= Max(0, cs[k].maxSkew)
  }

  // ---- Runs ----

  /** The cache and the snapshot of the reconcile in progress. */
  datatype State = State(cache: Cache, snapshot: Option<seq<NodeInfo>>)

  datatype Event =
    | TakeSnapshot(nodes: seq<NodeInfo>)
    | Place(inst: Instance, i: nat)   // schedule one of the family on the snapshot
    | PlaceOther(other: Placed)       // schedule an instance no constraint counts
    | Finish(uid: UID)
    | Confirm(confirmed: Placed)

  ghost predicate InFamily(inst: Instance, cs: seq<Constraint>, ns: Name) {
    && inst.namespace == ns && !inst.deleting
    && inst.spread.Some? && Parses(inst.spread.value) && ParseAll(inst.spread.value) == cs
  }

  ghost predicate NeverCounted(inst: Instance, cs: seq<Constraint>, ns: Name) {
    forall i | 0 <= i < |cs| :: !Counted(inst, cs[i].selector, ns)
  }

  /** The confirmed object is the assumed one as far as counting goes. */
  ghost predicate Confirms(a: Cache, inst: Instance) {
    inst.uid in a.entries
    && var was := a.entries[inst.uid].instance;
       was.nodeRef == inst.nodeRef && was.namespace == inst.namespace && was.labels == inst.labels && was.deleting == inst.deleting
  }

  ghost predicate Next(s: State, e: Event, s': State, cs: seq<Constraint>, ns: Name) {
    match e
    case TakeSnapshot(nodes) => Lists(nodes, Placements(s.cache)) && s' == s.(snapshot := Some(nodes))
    case Place(inst, i) =>
      && InFamily(inst, cs, ns) && s.snapshot.Some? && Candidate(inst, s.snapshot.value, i)
      && s' == State(Step(s.cache, Assume(inst.(nodeRef := Some(s.snapshot.value[i].node.name)))).0, None)
    case PlaceOther(inst) => NeverCounted(inst, cs, ns) && s' == s.(cache := Step(s.cache, Assume(inst)).0)
    case Finish(uid) => s' == s.(cache := Step(s.cache, FinishBinding(uid)).0)
    case Confirm(inst) => Confirms(s.cache, inst) && s' == s.(cache := Step(s.cache, Op.Add(inst)).0)
  }

  /** The node set is fixed and starts without instances. */
  ghost predicate IsRun(states: seq<State>, events: seq<Event>, cs: seq<Constraint>, ns: Name) {
    && |states| == |events| + 1 && states[0].cache.entries == map[] && states[0].snapshot.None?
    && forall i | 0 <= i < |events| :: Next(states[i], events[i], states[i + 1], cs, ns)
  }

  /** The snapshot still shows the live nodes and, in every domain, the matching instances placed now. */
  ghost predicate Reflects(nodes: seq<NodeInfo>, a: Cache, cs: seq<Constraint>, ns: Name) {
    && OnePlace(nodes)
    && (forall i | 0 <= i < |nodes| :: nodes[i].node.name in a.live && a.live[nodes[i].node.name] == nodes[i].node)
    && (forall n | n in a.live :: exists j :: 0 <= j < |nodes| && nodes[j].node == a.live[n])
    && (forall k, v | 0 <= k < |cs| :: Shown(nodes, cs, cs[k], ns, v) == Members(a, cs, cs[k], ns, v))
  }

  ghost predicate Inv(s: State, cs: seq<Constraint>, ns: Name) {
    Balanced(s.cache, cs, ns) && (s.snapshot.Some? ==> Reflects(s.snapshot.value, s.cache, cs, ns))
  }

  lemma SnapshotReflects(nodes: seq<NodeInfo>, a: Cache, cs: seq<Constraint>, ns: Name)
    requires Lists(nodes, Placements(a))
    ensures Reflects(nodes, a, cs, ns)
  {
    hide Shown;
    hide Members;
    hide OnePlace;
    ShownIsMembersAll(nodes, a, cs, ns);
    forall i | 0 <= i < |nodes| ensures nodes[i].node.name in a.live && a.live[nodes[i].node.name] == nodes[i].node {
      assert nodes[i].node.name in Placements(a);
    }
    forall n | n in a.live ensures exists j :: 0 <= j < |nodes| && nodes[j].node == a.live[n] {
      assert n in Placements(a);
      var j :| 0 <= j < |nodes| && nodes[j].node.name == n;
      assert nodes[j].node == a.live[n];
    }
  }

  lemma ShownIsMembersAll(nodes: seq<NodeInfo>, a: Cache, cs: seq<Constraint>, ns: Name)
    requires Lists(nodes, Placements(a))
    ensures OnePlace(nodes) && forall k, v | 0 <= k < |cs| :: Shown(nodes, cs, cs[k], ns, v) == Members(a, cs, cs[k], ns, v)
  {
    hide Shown;
    hide Members;
    hide Lists;
    hide OnePlace;
    ListsOnePlace(nodes, a);
    forall k, v | 0 <= k < |cs| ensures Shown(nodes, cs, cs[k], ns, v) == Members(a, cs, cs[k], ns, v) {
      ShownIsMembers(nodes, a, cs, cs[k], ns, v);
    }
  }

  /** Recording an instance that was not there changes the members of its own domains only. */
  lemma MembersPut(a: Cache, inst: Placed, phase: Phase, cs: seq<Constraint>, c: Constraint, ns: Name, v: Name)
    requires inst.uid !in a.entries
    ensures Members(Put(a, inst.uid, inst, phase), cs, c, ns, v)
         == Members(a, cs, c, ns, v)
            + if Counted(inst, c.selector, ns) && inst.nodeRef.value in a.live && CountsFor(a.live[inst.nodeRef.value], cs, c, v)
              then {inst.uid} else {}
    ensures inst.uid !in Members(a, cs, c, ns, v)
  {
    hide CountsFor;
    hide Counted;
  }

  lemma MembersSame(a: Cache, b: Cache, cs: seq<Constraint>, c: Constraint, ns: Name, v: Name)
    requires a.live == b.live && a.entries.Keys == b.entries.Keys
    requires forall uid | uid in a.entries :: SameCount(a.entries[uid].instance, b.entries[uid].instance)
    ensures Members(a, cs, c, ns, v) == Members(b, cs, c, ns, v)
  {
  }

  ghost predicate SameCount(x: Instance, y: Instance) {
    x.nodeRef == y.nodeRef && x.namespace == y.namespace && x.labels == y.labels && x.deleting == y.deleting
  }

  /** The members of every domain are the same before and after. */
  ghost predicate SameMembers(a: Cache, b: Cache, cs: seq<Constraint>, ns: Name) {
    a.live == b.live && forall k, v | 0 <= k < |cs| :: Members(a, cs, cs[k], ns, v) == Members(b, cs, cs[k], ns, v)
  }

  lemma SameMembersKeep(s: State, s': State, cs: seq<Constraint>, ns: Name)
    requires Inv(s, cs, ns) && s'.snapshot == s.snapshot && SameMembers(s.cache, s'.cache, cs, ns)
    ensures Inv(s', cs, ns)
  {
    hide Members;
    hide Shown;
    hide OnePlace;
  }

  lemma SettledSame(a: Cache, b: Cache, cs: seq<Constraint>, ns: Name)
    requires a.live == b.live && a.entries.Keys == b.entries.Keys
    requires forall uid | uid in a.entries :: SameCount(a.entries[uid].instance, b.entries[uid].instance)
    ensures SameMembers(a, b, cs, ns)
  {
    hide Members;
    hide SameCount;
    forall k, v | 0 <= k < |cs| ensures Members(a, cs, cs[k], ns, v) == Members(b, cs, cs[k], ns, v) {
      MembersSame(a, b, cs, cs[k], ns, v);
    }
  }

  lemma OtherSame(a: Cache, inst: Placed, cs: seq<Constraint>, ns: Name)
    requires NeverCounted(inst, cs, ns) && inst.uid !in a.entries
    ensures SameMembers(a, Put(a, inst.uid, inst, Assumed), cs, ns)
  {
    hide Members;
    hide Counted;
    forall k, v | 0 <= k < |cs| ensures Members(a, cs, cs[k], ns, v) == Members(Put(a, inst.uid, inst, Assumed), cs, cs[k], ns, v) {
      MembersPut(a, inst, Assumed, cs, cs[k], ns, v);
    }
  }

  /** What passing the filter says about the members of the domains. */
  lemma PassBounds(inst: Instance, nodes: seq<NodeInfo>, i: nat, a: Cache, cs: seq<Constraint>, ns: Name, k: nat, n: Name)
    requires DistinctKeys(cs) && NonEmptySelectors(cs) && Reflects(nodes, a, cs, ns) && inst.namespace == ns
    requires i < |nodes| && TopologyPass(inst, nodes, cs, i) && k < |cs| && n in a.live && HasKeys(a.live[n], cs)
    ensures HasKeys(nodes[i].node, cs)
    ensures |Members(a, cs, cs[k], ns, nodes[i].node.labels[cs[k].topologyKey])| + Self(inst, cs[k])
         <= |Members(a, cs, cs[k], ns, a.live[n].labels[cs[k].topologyKey])| + cs[k].maxSkew
  {
    hide DomainCount;
    hide Members;
    hide Shown;
    hide DistinctKeys;
    hide OnePlace;
    var j :| 0 <= j < |nodes| && nodes[j].node == a.live[n];
    CountIsMembers(nodes, a, cs, ns, k, Domain(nodes[i], cs[k]).value);
    CountIsMembers(nodes, a, cs, ns, k, Domain(nodes[j], cs[k]).value);
    assert Eligible(nodes[i], cs) && Eligible(nodes[j], cs);
  }

  lemma CountIsMembers(nodes: seq<NodeInfo>, a: Cache, cs: seq<Constraint>, ns: Name, k: nat, v: Name)
    requires DistinctKeys(cs) && NonEmptySelectors(cs) && Reflects(nodes, a, cs, ns) && k < |cs|
    ensures DomainCount(nodes, cs, ns, TopologyPair(cs[k].topologyKey, v)) == |Members(a, cs, cs[k], ns, v)|
  {
    hide DomainCount;
    hide Members;
    hide Shown;
    hide DistinctKeys;
    hide OnePlace;
    DomainCountIs(nodes, cs, ns, k, v);
    assert Shown(nodes, cs, cs[k], ns, v) == Members(a, cs, cs[k], ns, v);
  }

  lemma FamilyCounted(inst: Instance, cs: seq<Constraint>, ns: Name, name: Name, k: nat)
    requires inst.namespace == ns && !inst.deleting && k < |cs|
    ensures Counted(inst.(nodeRef := Some(name)), cs[k].selector, ns) <==> Self(inst, cs[k]) == 1
  {
  }

  lemma PlaceKeepsBalanced(inst: Instance, nodes: seq<NodeInfo>, i: nat, a: Cache, cs: seq<Constraint>, ns: Name)
    requires DistinctKeys(cs) && NonEmptySelectors(cs) && Reflects(nodes, a, cs, ns)
    requires inst.namespace == ns && !inst.deleting && inst.uid !in a.entries
    requires i < |nodes| && TopologyPass(inst, nodes, cs, i) && Balanced(a, cs, ns)
    ensures Balanced(Put(a, inst.uid, inst.(nodeRef := Some(nodes[i].node.name)), Assumed), cs, ns)
  {
    hide Members;
    hide DistinctKeys;
    hide NonEmptySelectors;
    hide Reflects;
    hide TopologyPass;
    hide Counted;
    hide Self;
    var placed := inst.(nodeRef := Some(nodes[i].node.name));
    var b := Put(a, inst.uid, placed, Assumed);
    forall k, m, n | 0 <= k < |cs| && m in a.live && n in a.live && HasKeys(a.live[m], cs) && HasKeys(a.live[n], cs)
      ensures |Members(b, cs, cs[k], ns, a.live[m].labels[cs[k].topologyKey])| - |Members(b, cs, cs[k], ns, a.live[n].labels[cs[k].topologyKey])|
           <= Max(0, cs[k].maxSkew)
    {
      PlaceKeepsPair(inst, nodes, i, a, cs, ns, k, m, n);
    }
  }

  lemma PlaceKeepsPair(inst: Instance, nodes: seq<NodeInfo>, i: nat, a: Cache, cs: seq<Constraint>, ns: Name, k: nat, m: Name, n: Name)
    requires DistinctKeys(cs) && NonEmptySelectors(cs) && Reflects(nodes, a, cs, ns)
    requires inst.namespace == ns && !inst.deleting && inst.uid !in a.entries
    requires i < |nodes| && TopologyPass(inst, nodes, cs, i) && Balanced(a, cs, ns)
    requires k < |cs| && m in a.live && n in a.live && HasKeys(a.live[m], cs) && HasKeys(a.live[n], cs)
    ensures var b := Put(a, inst.uid, inst.(nodeRef := Some(nodes[i].node.name)), Assumed);
            |Members(b, cs, cs[k], ns, a.live[m].labels[cs[k].topologyKey])| - |Members(b, cs, cs[k], ns, a.live[n].labels[cs[k].topologyKey])|
            <= Max(0, cs[k].maxSkew)
  {
    hide Members;
    hide Shown;
    hide OnePlace;
    hide DistinctKeys;
    hide NonEmptySelectors;
    hide TopologyPass;
    hide Counted;
    var placed := inst.(nodeRef := Some(nodes[i].node.name));
    assert a.live[nodes[i].node.name] == nodes[i].node;
    var v, w := a.live[m].labels[cs[k].topologyKey], a.live[n].labels[cs[k].topologyKey];
    MembersPut(a, placed, Assumed, cs, cs[k], ns, v);
    MembersPut(a, placed, Assumed, cs, cs[k], ns, w);
    FamilyCounted(inst, cs, ns, nodes[i].node.name, k);
    PassBounds(inst, nodes, i, a, cs, ns, k, n);
    assert |Members(a, cs, cs[k], ns, v)| - |Members(a, cs, cs[k], ns, w)| <= Max(0, cs[k].maxSkew);
  }

  lemma NextKeepsInv(s: State, e: Event, s': State, cs: seq<Constraint>, ns: Name)
    requires DistinctKeys(cs) && NonEmptySelectors(cs) && Inv(s, cs, ns) && Next(s, e, s', cs, ns)
    ensures Inv(s', cs, ns)
  {
    hide Balanced;
    hide DistinctKeys;
    hide NonEmptySelectors;
    hide TopologyPass;
    hide Lists;
    hide Reflects;
    hide SameMembers;
    hide NeverCounted;
    hide AntiAffinityPass;
    match e {
      case TakeSnapshot(nodes) => SnapshotReflects(nodes, s.cache, cs, ns);
      case Place(inst, i) =>
        if inst.uid != EMPTY && inst.uid !in s.cache.entries {
          PlaceKeepsBalanced(inst, s.snapshot.value, i, s.cache, cs, ns);
        }
      case PlaceOther(inst) =>
        if inst.uid != EMPTY && inst.uid !in s.cache.entries {
          OtherSame(s.cache, inst, cs, ns);
          SameMembersKeep(s, s', cs, ns);
        }
      case Finish(uid) =>
        SettledSame(s.cache, s'.cache, cs, ns);
        SameMembersKeep(s, s', cs, ns);
      case Confirm(inst) =>
        SettledSame(s.cache, s'.cache, cs, ns);
        SameMembersKeep(s, s', cs, ns);
    }
  }

  /**
   * Over every run that only schedules, on a fixed set of nodes, no constraint's matching count in one
   * domain exceeds that in another by more than maxSkew, whatever is confirmed or finished meanwhile.
   */
  lemma {:induction false} AlwaysBalanced(states: seq<State>, events: seq<Event>, cs: seq<Constraint>, ns: Name, i: nat)
    requires DistinctKeys(cs) && NonEmptySelectors(cs) && IsRun(states, events, cs, ns) && i < |states|
    ensures Inv(states[i], cs, ns) && Balanced(states[i].cache, cs, ns)
  {
    hide Next;
    hide DistinctKeys;
    hide NonEmptySelectors;
    hide Reflects;
    if i > 0 {
      AlwaysBalanced(states, events, cs, ns, i - 1);
      NextKeepsInv(states[i - 1], events[i - 1], states[i], cs, ns);
    } else {
      forall k, v | 0 <= k < |cs| ensures Members(states[0].cache, cs, cs[k], ns, v) == {} {
      }
    }
  }
}
