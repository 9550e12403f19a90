/** A DaemonSet's plan read off the template and the instances: internal/controllers/daemonset_controller.go. */
module DaemonSetRules {
  import opened Core
  import opened Cluster
  import opened NodeAffinity
  import opened PlacementRules
  import opened Sorting
  import opened DaemonSetPlan
  import opened DaemonSetConvergence

  /** The template names this node or none, and one of the terms of its required node affinity holds, if it has any. */
  ghost predicate TemplateAdmits(ds: DaemonSet, node: Node) {
    && (ds.template.nodeRef.None? || ds.template.nodeRef == Some(node.name))
    && forall terms: seq<NodeTerm> | Requires(ds.template.affinity, terms) :: exists i :: 0 <= i < |terms| && TermHolds(terms[i], node)
  }

  ghost predicate AdmittedName(nodes: seq<Node>, ds: DaemonSet, v: Name) {
    exists i :: 0 <= i < |nodes| && nodes[i].name == v && TemplateAdmits(ds, nodes[i])
  }

  /** An instance that is not being deleted and has this target. */
  ghost predicate Alive(x: Instance, v: Name) {
    !x.deleting && TargetNodeName(x) == Some(v)
  }

  lemma ShouldRunIff(node: Node, ds: DaemonSet)
    ensures ShouldRun(node, ds) <==> TemplateAdmits(ds, node)
  {
    AdmitsIff(ds.template.affinity, node);
    hide Admits;
    hide Requires;
  }

  lemma RunsIff(nodes: seq<Node>, ds: DaemonSet, v: Name)
    ensures Runs(nodes, ds, v) <==> AdmittedName(nodes, ds, v)
  {
    hide ShouldRun;
    hide TemplateAdmits;
    forall i | 0 <= i < |nodes| ensures ShouldRun(nodes[i], ds) <==> TemplateAdmits(ds, nodes[i]) {
      ShouldRunIff(nodes[i], ds);
    }
  }

  /** A node gets an instance if and only if the template admits it and nothing alive has it as its target; each once. */
  lemma NeedsIff(nodes: seq<Node>, insts: set<Instance>, ds: DaemonSet, needs: seq<Name>, deletes: seq<Name>, keep: map<Name, Instance>)
    requires Planned(nodes, insts, ds, needs, deletes, keep)
    ensures forall v :: v in needs <==> AdmittedName(nodes, ds, v) && forall x | x in insts :: !Alive(x, v)
    ensures forall i, j | 0 <= i < j < |needs| :: needs[i] != needs[j]
  {
    hide Runs;
    hide AdmittedName;
    hide TargetNodeName;
    forall v ensures v in needs <==> AdmittedName(nodes, ds, v) && forall x | x in insts :: !Alive(x, v) {
      RunsIff(nodes, ds, v);
      assert forall x :: LiveOn(x, v) <==> Alive(x, v);
    }
  }

  /** On a node the template admits, of the instances alive one that is no younger than any is spared, and all others are deleted. */
  ghost predicate OldestSpared(insts: set<Instance>, deletes: seq<Name>, v: Name) {
    exists x :: x in insts && Alive(x, v) && x.name !in deletes
                && forall y | y in insts && Alive(y, v) :: x.created <= y.created && (y != x ==> y.name in deletes)
  }

  lemma SparesOldest(nodes: seq<Node>, insts: set<Instance>, ds: DaemonSet, needs: seq<Name>, deletes: seq<Name>, keep: map<Name, Instance>, v: Name)
    requires UniqueNames(insts) && Planned(nodes, insts, ds, needs, deletes, keep)
    requires AdmittedName(nodes, ds, v) && exists x :: x in insts && Alive(x, v)
    ensures OldestSpared(insts, deletes, v)
  {
    hide AdmittedName;
    hide TargetNodeName;
    hide UniqueNames;
    RunsIff(nodes, ds, v);
    hide Runs;
    hide Known;
    assert exists x :: x in insts && LiveOn(x, v);
    var kept := keep[v];
    LeftOver(nodes, insts, ds, needs, deletes, keep, kept);
    forall y | y in insts && Alive(y, v) ensures kept.created <= y.created && (y != kept ==> y.name in deletes) {
      assert LiveOn(y, v);
      LeftOver(nodes, insts, ds, needs, deletes, keep, y);
    }
  }

  /** Elsewhere: everything with a known node as its target is deleted; with an unknown one, exactly what is not bound. */
  lemma ClearsOthers(nodes: seq<Node>, insts: set<Instance>, ds: DaemonSet, needs: seq<Name>, deletes: seq<Name>, keep: map<Name, Instance>, x: Instance, v: Name)
    requires UniqueNames(insts) && Planned(nodes, insts, ds, needs, deletes, keep)
    requires x in insts && TargetNodeName(x) == Some(v) && !AdmittedName(nodes, ds, v)
    ensures (exists i :: 0 <= i < |nodes| && nodes[i].name == v) ==> x.name in deletes
    ensures (forall i | 0 <= i < |nodes| :: nodes[i].name != v) ==> (x.name in deletes <==> x.nodeRef.None?)
  {
    hide AdmittedName;
    hide TargetNodeName;
    hide UniqueNames;
    hide LiveOn;
    RunsIff(nodes, ds, v);
    hide Runs;
    LeftOver(nodes, insts, ds, needs, deletes, keep, x);
  }

  /** Nothing without a target and nothing already being deleted on an admitted node is deleted, and only instances are. */
  lemma DeletesOnly(nodes: seq<Node>, insts: set<Instance>, ds: DaemonSet, needs: seq<Name>, deletes: seq<Name>, keep: map<Name, Instance>, d: Name)
    requires UniqueNames(insts) && Planned(nodes, insts, ds, needs, deletes, keep) && d in deletes
    ensures exists x :: x in insts && x.name == d && TargetNodeName(x).Some? && (x.deleting ==> !AdmittedName(nodes, ds, TargetNodeName(x).value))
  {
    hide AdmittedName;
    hide TargetNodeName;
    hide LiveOn;
    hide Known;
    var x :| x in insts && x.name == d && Doomed(nodes, ds, keep, x);
    RunsIff(nodes, ds, TargetNodeName(x).value);
    hide Runs;
  }

  /** What is created: an instance of the DaemonSet's namespace and template that only the node admits. */
  lemma MadeIs(ds: DaemonSet, v: Name, x: Instance, node: Node)
    requires Made(ds, v, x) && node.name != 0
    ensures x.namespace == ds.namespace && x.nodeRef == ds.template.nodeRef && x.spread == ds.template.spread && !x.deleting
    ensures Admits(x.affinity, node) <==> node.name == v
    ensures x.affinity.Some? && x.affinity.value.antiAffinity == if ds.template.affinity.Some? then ds.template.affinity.value.antiAffinity else None
  {
    PinnedAdmits(ds.template.affinity, v, node);
  }
}
