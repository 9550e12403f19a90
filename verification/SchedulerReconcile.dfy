/** One scheduling pass over the live cache: reconcileExists and assume of internal/controllers/scheduler_controller.go. */
module SchedulerReconcile {
  import opened Core
  import opened Cluster
  import opened CacheModel
  import SC = SchedulerCache
  import opened Scheduling
  import PS = PlacementSafety

  /** A pass without interruption: the steps of PlacementSafety it amounts to. */
  ghost predicate IsPass(world: PS.World, s: PS.State, nodes: seq<NodeInfo>, inst: Instance, d: Decision, s': PS.State) {
    && PS.Next(world, s, PS.TakeSnapshot(nodes), s.(snapshot := Some(nodes)))
    && if d.Chosen? then PS.Next(world, s.(snapshot := Some(nodes)), PS.AssumeOn(inst, d.i), s') else s' == s
  }

  /**
   * Snapshot, decide, assume. What the pass does to the live cache is a snapshot step followed, if some
   * node is a candidate, by assuming the instance on a candidate with the fewest instances.
   */
  method ReconcileExists(cache: SC.SchedulerCache, snapshot: SC.Snapshot, inst: Instance, ghost world: PS.World, ghost bound: map<UID, Instance>)
    returns (d: Decision, ghost nodes: seq<NodeInfo>, ghost bound': map<UID, Instance>)
    requires cache.Valid()
    modifies cache, cache.nodes.Values, snapshot
    ensures cache.Valid()
    ensures IsPass(world, PS.State(old(Abs(cache.Content())), None, bound), nodes, inst, d, PS.State(Abs(cache.Content()), None, bound'))
    ensures d.Failed? <==> Fails(inst, nodes)
    ensures d.NoNode? ==> forall i: nat :: !Candidate(inst, nodes, i)
    ensures d.Chosen? ==> forall j: nat | Candidate(inst, nodes, j) :: |nodes[d.i].instances| <= |nodes[j].instances|
  {
    hide Candidate;
    hide Fails;
    hide Lists;
    hide Placements;
    hide Abs;
    hide Agree;
    hide Step;
    hide Named;
    hide SC.Views;
    hide SC.Indexed;
    hide SC.Distinct;
    snapshot.Update(cache);
    var list := snapshot.ListNodes();
    nodes, bound' := list, bound;
    d := Schedule(inst, list);
    if d.Chosen? {
      CandidateListed(inst, list, d.i);
      var placed := inst.(nodeRef := Some(list[d.i].node.name));
      var outcome := cache.AssumeInstance(placed);
      bound' := if outcome.Done? then bound[inst.uid := placed] else bound;
    }
  }

  lemma CandidateListed(inst: Instance, nodes: seq<NodeInfo>, i: nat)
    requires Candidate(inst, nodes, i)
    ensures i < |nodes|
  {
  }
}
