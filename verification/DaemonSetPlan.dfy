/** What a DaemonSet creates and deletes, given a view of its instances: internal/controllers/daemonset_controller.go. */
module DaemonSetPlan {
  import opened Core
  import opened Cluster
  import opened NodeAffinity
  import opened Sorting

  datatype Template = Template(labels: Labels, nodeRef: Option<Name>, affinity: Option<Affinity>, spread: Option<seq<SpreadConstraint>>)
  datatype DaemonSet = DaemonSet(namespace: Name, template: Template)

  ghost predicate ShouldRun(node: Node, ds: DaemonSet) {
    (ds.template.nodeRef.Some? ==> ds.template.nodeRef.value == node.name) && Admits(ds.template.affinity, node)
  }

  /** nodeShouldRunDaemonInstance; a match error counts as no match. */
  method NodeShouldRun(node: Node, ds: DaemonSet) returns (r: bool)
    ensures r <==> ShouldRun(node, ds)
  {
    hide TermMatches;
    if ds.template.nodeRef.Some? && ds.template.nodeRef.value != node.name {
      return false;
    }
    var affinity := ds.template.affinity;
    if affinity.None? || affinity.value.nodeAffinity.None? || affinity.value.nodeAffinity.value.required.None? {
      return true;
    }
    var matched, _ := MatchSelector(affinity.value.nodeAffinity.value.required.value, node);
    return matched;
  }

  /** createInstance; the server chooses the UID and the creation time, and adds the revision-hash label. */
  function NewInstance(ds: DaemonSet, node: Name, name: Name, labels: Labels, uid: UID, created: int): Instance {
    Instance(uid, name, ds.namespace, labels, false, created, ds.template.nodeRef,
             Some(Pin(ds.template.affinity, node)), ds.template.spread)
  }

  ghost predicate Made(ds: DaemonSet, node: Name, x: Instance) {
    x == NewInstance(ds, node, x.name, x.labels, x.uid, x.created)
  }

  /** A live instance whose target is the node. */
  ghost predicate LiveOn(x: Instance, v: Name) {
    !x.deleting && TargetNodeName(x) == Some(v)
  }

  lemma MadeIsLive(ds: DaemonSet, node: Node, x: Instance)
    requires Made(ds, node.name, x) && ShouldRun(node, ds)
    ensures LiveOn(x, node.name)
  {
    PinnedTarget(x, ds.template.affinity, node.name);
  }

  // ---- Grouping by target ----

  ghost predicate Grouped(insts: seq<Instance>, m: map<Name, seq<Instance>>) {
    && (forall v | v in m :: NoDup(m[v]))
    && (forall v, x :: (v in m && x in m[v]) <==> (x in insts && TargetNodeName(x) == Some(v)))
    && (forall v | v in m :: m[v] != [])
  }

  /** getNodesToDaemonInstances: instances without a target are skipped. */
  method GroupByNode(insts: seq<Instance>) returns (m: map<Name, seq<Instance>>)
    requires NoDup(insts)
    ensures Grouped(insts, m)
  {
    hide TargetNodeName;
    m := map[];
    for i := 0 to |insts|
      invariant Grouped(insts[..i], m)
    {
      assert insts[..i + 1] == insts[..i] + [insts[i]];
      assert insts[i] !in insts[..i];
      var target := TargetNodeName(insts[i]);
      if target.None? {
        continue;
      }
      GroupMore(insts[..i], insts[i], target.value, m);
      m := m[target.value := (if target.value in m then m[target.value] else []) + [insts[i]]];
    }
    assert insts[..|insts|] == insts;
  }

  lemma GroupMore(insts: seq<Instance>, x: Instance, v: Name, m: map<Name, seq<Instance>>)
    requires Grouped(insts, m) && x !in insts && TargetNodeName(x) == Some(v)
    ensures Grouped(insts + [x], m[v := (if v in m then m[v] else []) + [x]])
  {
    hide TargetNodeName;
    var before := if v in m then m[v] else [];
    assert x !in before;
    assert NoDup(before + [x]);
    var m' := m[v := before + [x]];
    forall w, y ensures (w in m' && y in m'[w]) <==> (y in insts + [x] && TargetNodeName(y) == Some(w)) {
      if w != v {
        assert (w in m && y in m[w]) <==> (y in insts && TargetNodeName(y) == Some(w));
      } else {
        assert (v in m && y in m[v]) <==> (y in insts && TargetNodeName(y) == Some(v));
      }
    }
  }

  // ---- One node ----

  datatype NodePlan = NodePlan(need: bool, doomed: seq<Name>, keep: Option<Instance>)

  ghost predicate Spared(run: bool, keep: Option<Instance>, x: Instance) {
    run && (x.deleting || keep == Some(x))
  }

  /** What happens to the instances `on` of one node. */
  ghost predicate PlannedFor(run: bool, on: seq<Instance>, p: NodePlan) {
    && (p.need <==> run && forall x | x in on :: x.deleting)
    && (p.keep.Some? <==> run && exists x :: x in on && !x.deleting)
    && (p.keep.Some? ==> p.keep.value in on && !p.keep.value.deleting)
    && (p.keep.Some? ==> forall x | x in on && !x.deleting :: p.keep.value.created <= x.created)
    && (forall d :: d in p.doomed <==> exists x :: x in on && x.name == d && !Spared(run, p.keep, x))
  }

  method Names(insts: seq<Instance>) returns (r: seq<Name>)
    ensures forall d :: d in r <==> exists x :: x in insts && x.name == d
  {
    r := [];
    for i := 0 to |insts|
      invariant forall d :: d in r <==> exists x :: x in insts[..i] && x.name == d
    {
      assert insts[..i + 1] == insts[..i] + [insts[i]];
      assert insts[i] in insts[..i + 1];
      r := r + [insts[i].name];
    }
    assert insts[..|insts|] == insts;
  }

  method NotDeleting(insts: seq<Instance>) returns (r: seq<Instance>)
    requires NoDup(insts)
    ensures NoDup(r) && forall x :: x in r <==> x in insts && !x.deleting
  {
    r := [];
    for i := 0 to |insts|
      invariant NoDup(r) && forall x :: x in r <==> x in insts[..i] && !x.deleting
    {
      assert insts[..i + 1] == insts[..i] + [insts[i]];
      assert insts[i] !in insts[..i];
      if insts[i].deleting {
        continue;
      }
      r := r + [insts[i]];
    }
    assert insts[..|insts|] == insts;
  }

  predicate Older(a: Instance, b: Instance) {
    a.created < b.created
  }

  /** Oldest first; instances created at the same time come in either order. */
  method OldestFirst(insts: seq<Instance>) returns (r: seq<Instance>)
    requires NoDup(insts)
    ensures NoDup(r) && |r| == |insts|
    ensures forall x :: x in r <==> x in insts
    ensures forall i | 0 <= i < |r| :: r[0].created <= r[i].created
  {
    r := Sort(Older, insts);
    NoDupPermutation(insts, r);
    SameElements(insts, r);
    assert |multiset(r)| == |multiset(insts)|;
    assert forall i | 0 < i < |r| :: !Older(r[i], r[0]);
  }

  /** instancesShouldBeOnNode. */
  method InstancesShouldBeOnNode(node: Node, m: map<Name, seq<Instance>>, ds: DaemonSet) returns (p: NodePlan)
    requires forall v | v in m :: NoDup(m[v])
    ensures PlannedFor(ShouldRun(node, ds), if node.name in m then m[node.name] else [], p)
  {
    hide ShouldRun;
    var run := NodeShouldRun(node, ds);
    if node.name !in m {
      return NodePlan(run, [], None);
    }
    var on := m[node.name];
    if !run {
      var all := Names(on);
      return NodePlan(false, all, None);
    }
    var live := NotDeleting(on);
    if |live| == 0 {
      assert forall x | x in on && !x.deleting :: x in live;
      return NodePlan(true, [], None);
    }
    var sorted := OldestFirst(live);
    var extra := Names(sorted[1..]);
    p := NodePlan(false, extra, Some(sorted[0]));
    KeptOldest(on, live, sorted, p);
  }

  lemma KeptOldest(on: seq<Instance>, live: seq<Instance>, sorted: seq<Instance>, p: NodePlan)
    requires NoDup(sorted) && |sorted| > 0
    requires forall x :: x in live <==> x in on && !x.deleting
    requires forall x :: x in sorted <==> x in live
    requires forall i | 0 <= i < |sorted| :: sorted[0].created <= sorted[i].created
    requires !p.need && p.keep == Some(sorted[0]) && forall d :: d in p.doomed <==> exists x :: x in sorted[1..] && x.name == d
    ensures PlannedFor(true, on, p)
  {
    assert sorted[0] in sorted;
    forall x | x in on && !x.deleting ensures sorted[0].created <= x.created {
      assert x in sorted;
    }
    forall x ensures x in sorted[1..] <==> x in on && !Spared(true, p.keep, x) {
      assert x in sorted <==> x == sorted[0] || x in sorted[1..];
    }
  }

  // ---- All nodes ----

  ghost predicate Known(nodes: seq<Node>, v: Name) {
    exists i :: 0 <= i < |nodes| && nodes[i].name == v
  }

  ghost predicate Runs(nodes: seq<Node>, ds: DaemonSet, v: Name) {
    exists i :: 0 <= i < |nodes| && nodes[i].name == v && ShouldRun(nodes[i], ds)
  }

  ghost predicate DistinctNodes(nodes: seq<Node>) {
    forall i, j | 0 <= i < j < |nodes| :: nodes[i].name != nodes[j].name
  }

  /** The instance has to go, if `keep` names the survivors of the nodes. */
  ghost predicate Doomed(nodes: seq<Node>, ds: DaemonSet, keep: map<Name, Instance>, x: Instance) {
    var t := TargetNodeName(x);
    && t.Some?
    && if Runs(nodes, ds, t.value) then !x.deleting && !(t.value in keep && keep[t.value] == x)
       else Known(nodes, t.value) || x.nodeRef.None?
  }

  /**
   * The plan: one instance for every node that should run one and has none alive; of several the oldest
   * survives; everything on nodes that should not run one goes, and everything unbound whose node is unknown.
   */
  ghost predicate Planned(nodes: seq<Node>, insts: set<Instance>, ds: DaemonSet, needs: seq<Name>, deletes: seq<Name>, keep: map<Name, Instance>) {
    && NoDup(needs)
    && (forall v :: v in needs <==> Runs(nodes, ds, v) && forall x | x in insts :: !LiveOn(x, v))
    && (forall v :: v in keep <==> Runs(nodes, ds, v) && exists x :: x in insts && LiveOn(x, v))
    && (forall v | v in keep :: keep[v] in insts && LiveOn(keep[v], v))
    && (forall v, x | v in keep && x in insts && LiveOn(x, v) :: keep[v].created <= x.created)
    && (forall d :: d in deletes <==> exists x :: x in insts && x.name == d && Doomed(nodes, ds, keep, x))
  }

  /** getUnscheduledInstancesWithoutNode; the groups come in any order. */
  method UnscheduledWithoutNode(nodes: seq<Node>, m: map<Name, seq<Instance>>) returns (r: seq<Name>)
    ensures forall d :: d in r <==> exists v, x :: v in m && !Known(nodes, v) && x in m[v] && x.nodeRef.None? && x.name == d
  {
    var names := set n | n in nodes :: n.name;
    forall v ensures v in names <==> Known(nodes, v) {
    }
    r := [];
    var rest := m.Keys;
    while rest != {}
      invariant rest <= m.Keys
      invariant forall d :: d in r <==> exists v, x :: v in m && v !in rest && !Known(nodes, v) && x in m[v] && x.nodeRef.None? && x.name == d
    {
      var v :| v in rest;
      rest := rest - {v};
      if v in names {
        continue;
      }
      var more := Unbound(m[v]);
      r := r + more;
    }
  }

  method Unbound(insts: seq<Instance>) returns (r: seq<Name>)
    ensures forall d :: d in r <==> exists x :: x in insts && x.nodeRef.None? && x.name == d
  {
    r := [];
    for i := 0 to |insts|
      invariant forall d :: d in r <==> exists x :: x in insts[..i] && x.nodeRef.None? && x.name == d
    {
      assert insts[..i + 1] == insts[..i] + [insts[i]];
      assert insts[i] in insts[..i + 1];
      if insts[i].nodeRef.None? {
        r := r + [insts[i].name];
      }
    }
    assert insts[..|insts|] == insts;
  }

  function On(m: map<Name, seq<Instance>>, v: Name): seq<Instance> {
    if v in m then m[v] else []
  }

  /** The plans of the single nodes, and what was collected from them. */
  ghost predicate Collected(nodes: seq<Node>, m: map<Name, seq<Instance>>, ds: DaemonSet, plans: seq<NodePlan>, needs: seq<Name>, doomed: seq<Name>) {
    && |plans| <= |nodes| && NoDup(needs)
    && (forall j | 0 <= j < |plans| :: PlannedFor(ShouldRun(nodes[j], ds), On(m, nodes[j].name), plans[j]))
    && (forall v :: v in needs <==> exists j :: 0 <= j < |plans| && nodes[j].name == v && plans[j].need)
    && (forall d :: d in doomed <==> exists j :: 0 <= j < |plans| && d in plans[j].doomed)
  }

  lemma CollectMore(nodes: seq<Node>, m: map<Name, seq<Instance>>, ds: DaemonSet, plans: seq<NodePlan>, needs: seq<Name>, doomed: seq<Name>, p: NodePlan)
    requires DistinctNodes(nodes) && Collected(nodes, m, ds, plans, needs, doomed) && |plans| < |nodes|
    requires PlannedFor(ShouldRun(nodes[|plans|], ds), On(m, nodes[|plans|].name), p)
    ensures Collected(nodes, m, ds, plans + [p], if p.need then needs + [nodes[|plans|].name] else needs, doomed + p.doomed)
  {
    hide PlannedFor;
    var i := |plans|;
    var more := plans + [p];
    assert forall j | 0 <= j < i :: more[j] == plans[j];
    assert more[i] == p;
    assert nodes[i].name !in needs;
    var needs' := if p.need then needs + [nodes[i].name] else needs;
    forall v ensures v in needs' <==> exists j :: 0 <= j < |more| && nodes[j].name == v && more[j].need {
      if v in needs {
        var j :| 0 <= j < |plans| && nodes[j].name == v && plans[j].need;
        assert more[j].need;
      }
    }
    forall d ensures d in doomed + p.doomed <==> exists j :: 0 <= j < |more| && d in more[j].doomed {
      if d in doomed {
        var j :| 0 <= j < |plans| && d in plans[j].doomed;
        assert d in more[j].doomed;
      }
    }
  }

  /** manage: the plan for a view of the instances. */
  method Manage(nodes: seq<Node>, insts: seq<Instance>, ds: DaemonSet) returns (needs: seq<Name>, deletes: seq<Name>)
    requires DistinctNodes(nodes) && NoDup(insts)
    ensures exists keep :: Planned(nodes, Elements(insts), ds, needs, deletes, keep)
  {
    hide Planned;
    hide Collected;
    hide PlannedFor;
    hide ShouldRun;
    hide Survivors;
    hide DistinctNodes;
    hide Known;
    var m := GroupByNode(insts);
    needs, deletes := [], [];
    ghost var plans: seq<NodePlan> := [];
    NothingCollected(nodes, m, ds);
    for i := 0 to |nodes|
      invariant |plans| == i && Collected(nodes, m, ds, plans, needs, deletes)
    {
      var p := InstancesShouldBeOnNode(nodes[i], m, ds);
      CollectMore(nodes, m, ds, plans, needs, deletes, p);
      plans := plans + [p];
      needs := if p.need then needs + [nodes[i].name] else needs;
      deletes := deletes + p.doomed;
    }
    var rest := UnscheduledWithoutNode(nodes, m);
    AddsUp(nodes, insts, m, ds, plans, needs, deletes, rest);
    deletes := deletes + rest;
  }

  ghost function Elements(insts: seq<Instance>): set<Instance> {
    set x | x in insts
  }

  lemma NothingCollected(nodes: seq<Node>, m: map<Name, seq<Instance>>, ds: DaemonSet)
    ensures Collected(nodes, m, ds, [], [], [])
  {
  }

  ghost function Survivors(nodes: seq<Node>, plans: seq<NodePlan>): map<Name, Instance>
    requires |plans| <= |nodes|
  {
    if plans == [] then map[]
    else
      var n := |plans| - 1;
      var init := Survivors(nodes, plans[..n]);
      if plans[n].keep.Some? then init[nodes[n].name := plans[n].keep.value] else init
  }

  lemma {:induction false} SurvivorsAre(nodes: seq<Node>, plans: seq<NodePlan>, v: Name)
    requires DistinctNodes(nodes) && |plans| <= |nodes|
    ensures v in Survivors(nodes, plans) <==> exists j :: 0 <= j < |plans| && nodes[j].name == v && plans[j].keep.Some?
    ensures forall j | 0 <= j < |plans| && nodes[j].name == v && plans[j].keep.Some? ::
      v in Survivors(nodes, plans) && Survivors(nodes, plans)[v] == plans[j].keep.value
  {
    if plans != [] {
      var n := |plans| - 1;
      SurvivorsAre(nodes, plans[..n], v);
      assert forall j | 0 <= j < n :: plans[..n][j] == plans[j];
      if v in Survivors(nodes, plans[..n]) {
        var j :| 0 <= j < n && nodes[j].name == v && plans[..n][j].keep.Some?;
        assert plans[j].keep.Some?;
      }
    }
  }

  lemma OnIs(insts: seq<Instance>, m: map<Name, seq<Instance>>, v: Name, x: Instance)
    requires Grouped(insts, m)
    ensures x in On(m, v) <==> x in Elements(insts) && TargetNodeName(x) == Some(v)
  {
    hide TargetNodeName;
    assert (v in m && x in m[v]) <==> (x in insts && TargetNodeName(x) == Some(v));
  }

  /** The plan of the node at `j`, said of the view instead of the group. */
  lemma PlanAt(nodes: seq<Node>, insts: seq<Instance>, m: map<Name, seq<Instance>>, ds: DaemonSet, j: nat, p: NodePlan)
    requires Grouped(insts, m) && j < |nodes| && PlannedFor(ShouldRun(nodes[j], ds), On(m, nodes[j].name), p)
    ensures var v, all := nodes[j].name, Elements(insts);
            && (p.need <==> ShouldRun(nodes[j], ds) && forall x | x in all :: !LiveOn(x, v))
            && (p.keep.Some? <==> ShouldRun(nodes[j], ds) && exists x :: x in all && LiveOn(x, v))
            && (p.keep.Some? ==> p.keep.value in all && LiveOn(p.keep.value, v) && forall x | x in all && LiveOn(x, v) :: p.keep.value.created <= x.created)
            && (forall d :: d in p.doomed <==> exists x :: x in all && TargetNodeName(x) == Some(v) && x.name == d && !Spared(ShouldRun(nodes[j], ds), p.keep, x))
  {
    hide Grouped;
    hide TargetNodeName;
    hide ShouldRun;
    hide Elements;
    hide On;
    var v, all := nodes[j].name, Elements(insts);
    forall x ensures x in On(m, v) <==> x in all && TargetNodeName(x) == Some(v) {
      OnIs(insts, m, v, x);
    }
  }

  lemma RunsAt(nodes: seq<Node>, ds: DaemonSet, j: nat)
    requires DistinctNodes(nodes) && j < |nodes|
    ensures Runs(nodes, ds, nodes[j].name) <==> ShouldRun(nodes[j], ds)
    ensures Known(nodes, nodes[j].name)
  {
  }

  lemma AddsUp(nodes: seq<Node>, insts: seq<Instance>, m: map<Name, seq<Instance>>, ds: DaemonSet, plans: seq<NodePlan>,
               needs: seq<Name>, doomed: seq<Name>, rest: seq<Name>)
    requires DistinctNodes(nodes) && Grouped(insts, m) && |plans| == |nodes| && Collected(nodes, m, ds, plans, needs, doomed)
    requires forall d :: d in rest <==> exists v, x :: v in m && !Known(nodes, v) && x in m[v] && x.nodeRef.None? && x.name == d
    ensures Planned(nodes, Elements(insts), ds, needs, doomed + rest, Survivors(nodes, plans))
  {
    hide Grouped;
    hide Known;
    hide Runs;
    hide Survivors;
    hide PlannedFor;
    hide Elements;
    hide LiveOn;
    hide Doomed;
    forall v ensures v in needs <==> Runs(nodes, ds, v) && forall x | x in Elements(insts) :: !LiveOn(x, v) {
      NeedsAddUp(nodes, insts, m, ds, plans, needs, doomed, v);
    }
    forall v
      ensures v in Survivors(nodes, plans) <==> Runs(nodes, ds, v) && exists x :: x in Elements(insts) && LiveOn(x, v)
      ensures v in Survivors(nodes, plans) ==> IsSurvivor(Elements(insts), v, Survivors(nodes, plans)[v])
    {
      KeepAddsUp(nodes, insts, m, ds, plans, needs, doomed, v);
    }
    forall d ensures d in doomed + rest <==> exists x :: x in Elements(insts) && x.name == d && Doomed(nodes, ds, Survivors(nodes, plans), x) {
      DeletesAddUp(nodes, insts, m, ds, plans, needs, doomed, rest, d);
    }
  }

  ghost predicate IsSurvivor(insts: set<Instance>, v: Name, x: Instance) {
    x in insts && LiveOn(x, v) && forall y | y in insts && LiveOn(y, v) :: x.created <= y.created
  }

  lemma NeedsAddUp(nodes: seq<Node>, insts: seq<Instance>, m: map<Name, seq<Instance>>, ds: DaemonSet, plans: seq<NodePlan>,
                   needs: seq<Name>, doomed: seq<Name>, v: Name)
    requires DistinctNodes(nodes) && Grouped(insts, m) && |plans| == |nodes| && Collected(nodes, m, ds, plans, needs, doomed)
    ensures v in needs <==> Runs(nodes, ds, v) && forall x | x in Elements(insts) :: !LiveOn(x, v)
  {
    hide Grouped;
    hide PlannedFor;
    hide Elements;
    hide LiveOn;
    hide ShouldRun;
    forall j | 0 <= j < |nodes| && nodes[j].name == v
      ensures plans[j].need <==> Runs(nodes, ds, v) && forall x | x in Elements(insts) :: !LiveOn(x, v)
    {
      PlanAt(nodes, insts, m, ds, j, plans[j]);
      RunsAt(nodes, ds, j);
    }
  }

  lemma KeepAddsUp(nodes: seq<Node>, insts: seq<Instance>, m: map<Name, seq<Instance>>, ds: DaemonSet, plans: seq<NodePlan>,
                   needs: seq<Name>, doomed: seq<Name>, v: Name)
    requires DistinctNodes(nodes) && Grouped(insts, m) && |plans| == |nodes| && Collected(nodes, m, ds, plans, needs, doomed)
    ensures v in Survivors(nodes, plans) <==> Runs(nodes, ds, v) && exists x :: x in Elements(insts) && LiveOn(x, v)
    ensures v in Survivors(nodes, plans) ==> IsSurvivor(Elements(insts), v, Survivors(nodes, plans)[v])
  {
    hide Grouped;
    hide PlannedFor;
    hide Elements;
    hide LiveOn;
    hide ShouldRun;
    hide Survivors;
    SurvivorsAre(nodes, plans, v);
    forall j | 0 <= j < |nodes| && nodes[j].name == v
      ensures plans[j].keep.Some? <==> Runs(nodes, ds, v) && exists x :: x in Elements(insts) && LiveOn(x, v)
      ensures plans[j].keep.Some? ==> IsSurvivor(Elements(insts), v, plans[j].keep.value)
    {
      PlanAt(nodes, insts, m, ds, j, plans[j]);
      RunsAt(nodes, ds, j);
    }
  }

  /** An instance of a known node is deleted by the plan of that node. */
  lemma DoomedAt(nodes: seq<Node>, ds: DaemonSet, plans: seq<NodePlan>, j: nat, x: Instance)
    requires DistinctNodes(nodes) && |plans| == |nodes| && j < |nodes| && TargetNodeName(x) == Some(nodes[j].name)
    requires plans[j].keep.Some? ==> ShouldRun(nodes[j], ds)
    ensures Doomed(nodes, ds, Survivors(nodes, plans), x) <==> !Spared(ShouldRun(nodes[j], ds), plans[j].keep, x)
  {
    hide TargetNodeName;
    hide ShouldRun;
    hide Survivors;
    RunsAt(nodes, ds, j);
    SurvivorsAre(nodes, plans, nodes[j].name);
  }

  lemma DeletesAddUp(nodes: seq<Node>, insts: seq<Instance>, m: map<Name, seq<Instance>>, ds: DaemonSet, plans: seq<NodePlan>,
                     needs: seq<Name>, doomed: seq<Name>, rest: seq<Name>, d: Name)
    requires DistinctNodes(nodes) && Grouped(insts, m) && |plans| == |nodes| && Collected(nodes, m, ds, plans, needs, doomed)
    requires forall e :: e in rest <==> exists v, x :: v in m && !Known(nodes, v) && x in m[v] && x.nodeRef.None? && x.name == e
    ensures d in doomed + rest <==> exists x :: x in Elements(insts) && x.name == d && Doomed(nodes, ds, Survivors(nodes, plans), x)
  {
    hide TargetNodeName;
    hide ShouldRun;
    hide Survivors;
    hide PlannedFor;
    hide Spared;
    hide LiveOn;
    hide Grouped;
    hide Doomed;
    hide Runs;
    var keep := Survivors(nodes, plans);
    if d in doomed {
      var j :| 0 <= j < |plans| && d in plans[j].doomed;
      PlanAt(nodes, insts, m, ds, j, plans[j]);
      var x :| x in Elements(insts) && TargetNodeName(x) == Some(nodes[j].name) && x.name == d && !Spared(ShouldRun(nodes[j], ds), plans[j].keep, x);
      DoomedAt(nodes, ds, plans, j, x);
    }
    if d in rest {
      var v, x :| v in m && !Known(nodes, v) && x in m[v] && x.nodeRef.None? && x.name == d;
      OnIs(insts, m, v, x);
      DoomedUnknown(nodes, ds, keep, x, v);
    }
    if x :| x in Elements(insts) && x.name == d && Doomed(nodes, ds, keep, x) {
      DoomedHasTarget(nodes, ds, keep, x);
      var v := TargetNodeName(x).value;
      OnIs(insts, m, v, x);
      if Known(nodes, v) {
        var j :| 0 <= j < |nodes| && nodes[j].name == v;
        PlanAt(nodes, insts, m, ds, j, plans[j]);
        DoomedAt(nodes, ds, plans, j, x);
        assert d in plans[j].doomed;
      } else {
        DoomedUnknown(nodes, ds, keep, x, v);
        assert d in rest;
      }
    }
  }

  lemma DoomedUnknown(nodes: seq<Node>, ds: DaemonSet, keep: map<Name, Instance>, x: Instance, v: Name)
    requires TargetNodeName(x) == Some(v) && !Known(nodes, v)
    ensures Doomed(nodes, ds, keep, x) <==> x.nodeRef.None?
  {
  }

  lemma DoomedHasTarget(nodes: seq<Node>, ds: DaemonSet, keep: map<Name, Instance>, x: Instance)
    ensures Doomed(nodes, ds, keep, x) ==> TargetNodeName(x).Some?
  {
  }
}
