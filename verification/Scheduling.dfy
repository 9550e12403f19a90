/** Choosing a node: getNodesForInstance and reconcileExists of internal/controllers/scheduler_controller.go. */
module Scheduling {
  import opened Core
  import opened Cluster
  import opened NodeAffinity
  import opened AntiAffinity
  import opened TopologySpread

  /** filterNodesByAffinity: a node whose match fails is skipped. */
  method FilterByAffinity(inst: Instance, nodes: seq<NodeInfo>) returns (kept: seq<nat>)
    ensures forall i: nat :: i in kept <==> i < |nodes| && Admits(inst.affinity, nodes[i].node)
  {
    hide TermMatches;
    if inst.affinity.None? || inst.affinity.value.nodeAffinity.None? || inst.affinity.value.nodeAffinity.value.required.None? {
      return Positions(|nodes|);
    }
    var terms := inst.affinity.value.nodeAffinity.value.required.value;
    kept := [];
    for i := 0 to |nodes|
      invariant forall k: nat :: k in kept <==> k < i && Admits(inst.affinity, nodes[k].node)
    {
      var matched, failed := MatchSelector(terms, nodes[i].node);
      if failed {
        continue;
      }
      if !matched {
        continue;
      }
      kept := kept + [i];
    }
  }

  ghost predicate Candidate(inst: Instance, nodes: seq<NodeInfo>, i: nat) {
    && i < |nodes|
    && Admits(inst.affinity, nodes[i].node)
    && AntiAffinityPass(inst, nodes, nodes[i].node)
    && SpreadPass(inst, nodes, i)
  }

  ghost predicate Admitted(inst: Instance, nodes: seq<NodeInfo>) {
    exists i :: 0 <= i < |nodes| && Admits(inst.affinity, nodes[i].node)
  }

  ghost predicate Separable(inst: Instance, nodes: seq<NodeInfo>) {
    exists i :: 0 <= i < |nodes| && Admits(inst.affinity, nodes[i].node) && AntiAffinityPass(inst, nodes, nodes[i].node)
  }

  /** A selector that does not parse is an error only if the filters before it leave a node over. */
  ghost predicate Fails(inst: Instance, nodes: seq<NodeInfo>) {
    || (Admitted(inst, nodes) && Malformed(inst, nodes))
    || (Separable(inst, nodes) && inst.spread.Some? && !Parses(inst.spread.value))
  }

  /** getNodesForInstance: the intersection of the three filters, stopping once nothing is left. */
  method GetNodesForInstance(inst: Instance, nodes: seq<NodeInfo>) returns (r: Option<set<nat>>)
    ensures r.None? <==> Fails(inst, nodes)
    ensures r.Some? ==> forall i: nat :: i in r.value <==> Candidate(inst, nodes, i)
  {
    hide Admits;
    hide AntiAffinityPass;
    hide SpreadPass;
    hide Malformed;
    hide Parses;
    var byAffinity := FilterByAffinity(inst, nodes);
    var matching := set i | i in byAffinity;
    if matching == {} {
      forall i: nat | i < |nodes| ensures !Admits(inst.affinity, nodes[i].node) {
        assert i !in matching;
      }
      return Some({});
    }
    var one :| one in matching;
    assert Admits(inst.affinity, nodes[one].node);
    var byAntiAffinity := FilterByAntiAffinity(inst, nodes);
    if byAntiAffinity.None? {
      return None;
    }
    matching := matching * set i | i in byAntiAffinity.value;
    if matching == {} {
      forall i: nat | i < |nodes| ensures !(Admits(inst.affinity, nodes[i].node) && AntiAffinityPass(inst, nodes, nodes[i].node)) {
        assert i !in matching;
      }
      return Some({});
    }
    one :| one in matching;
    assert Admits(inst.affinity, nodes[one].node) && AntiAffinityPass(inst, nodes, nodes[one].node);
    var byTopology := FilterByTopology(inst, nodes);
    if byTopology.None? {
      return None;
    }
    return Some(matching * set i | i in byTopology.value);
  }

  datatype Decision = Chosen(i: nat) | NoNode | Failed

  /** The decision of reconcileExists: among the candidates, in any order, one with the fewest instances. */
  method Schedule(inst: Instance, nodes: seq<NodeInfo>) returns (d: Decision)
    ensures d.Failed? <==> Fails(inst, nodes)
    ensures d.NoNode? ==> forall i: nat :: !Candidate(inst, nodes, i)
    ensures d.Chosen? ==> Candidate(inst, nodes, d.i)
    ensures d.Chosen? ==> forall j: nat | Candidate(inst, nodes, j) :: |nodes[d.i].instances| <= |nodes[j].instances|
  {
    hide Admits;
    hide AntiAffinityPass;
    hide SpreadPass;
    hide Fails;
    var candidates := GetNodesForInstance(inst, nodes);
    if candidates.None? {
      return Failed;
    }
    var rest := candidates.value;
    if rest == {} {
      return NoNode;
    }
    var best :| best in rest;
    rest := rest - {best};
    while rest != {}
      invariant rest <= candidates.value && best in candidates.value
      invariant forall j | j in candidates.value && j !in rest :: |nodes[best].instances| <= |nodes[j].instances|
    {
      var i :| i in rest;
      rest := rest - {i};
      if |nodes[i].instances| < |nodes[best].instances| {
        best := i;
      }
    }
    return Chosen(best);
  }

  /**
   * An instance created for a node can only be scheduled there: whatever affinity its template had, every
   * candidate is the node it is pinned to, and binding it there leaves its target unchanged.
   */
  lemma PinnedScheduling(inst: Instance, template: Option<Affinity>, name: Name, nodes: seq<NodeInfo>, i: nat)
    requires inst.affinity == Some(Pin(template, name)) && inst.nodeRef.None?
    requires Candidate(inst, nodes, i) && nodes[i].node.name != EMPTY
    ensures nodes[i].node.name == name
    ensures TargetNodeName(inst) == Some(name)
    ensures TargetNodeName(inst.(nodeRef := Some(nodes[i].node.name))) == Some(name)
  {
    PinnedAdmits(template, name, nodes[i].node);
    PinnedTarget(inst, template, name);
  }
}
