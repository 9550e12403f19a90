/** Applying a DaemonSet's plan to the state it was made for: internal/controllers/daemonset_controller.go. */
module DaemonSetConvergence {
  import opened Core
  import opened Cluster
  import opened NodeAffinity
  import opened DaemonSetPlan

  ghost predicate UniqueNames(insts: set<Instance>) {
    forall x, y | x in insts && y in insts && x.name == y.name :: x == y
  }

  /** All creates succeeded, one per needed node, and all deletes have completed. */
  ghost predicate Applied(insts: set<Instance>, ds: DaemonSet, needs: seq<Name>, deletes: seq<Name>, made: map<Name, Instance>, after: set<Instance>) {
    && (forall v :: v in made <==> v in needs)
    && (forall v | v in made :: Made(ds, v, made[v]))
    && (forall x :: x in after <==> (x in insts && x.name !in deletes) || x in made.Values)
  }

  /** Exactly one live instance; an instance that was there before is kept, and then an oldest one. */
  ghost predicate RunsOldest(before: set<Instance>, after: set<Instance>, v: Name) {
    exists x :: x in after && LiveOn(x, v) && (forall y | y in after && LiveOn(y, v) :: y == x)
                && (x in before || forall y | y in before :: !LiveOn(y, v))
                && (forall y | y in before && LiveOn(y, v) :: x.created <= y.created)
  }

  lemma MadeOn(nodes: seq<Node>, insts: set<Instance>, ds: DaemonSet, needs: seq<Name>, deletes: seq<Name>, keep: map<Name, Instance>,
               made: map<Name, Instance>, after: set<Instance>, x: Instance)
    requires Planned(nodes, insts, ds, needs, deletes, keep) && Applied(insts, ds, needs, deletes, made, after)
    requires x in made.Values
    ensures TargetNodeName(x).Some? && TargetNodeName(x).value in made && made[TargetNodeName(x).value] == x && !x.deleting
    ensures Runs(nodes, ds, TargetNodeName(x).value)
  {
    hide TargetNodeName;
    hide ShouldRun;
    hide Made;
    var v :| v in made && made[v] == x;
    var j :| 0 <= j < |nodes| && nodes[j].name == v && ShouldRun(nodes[j], ds);
    MadeIsLive(ds, nodes[j], x);
  }

  /** What is left of the instances that were there before. */
  lemma LeftOver(nodes: seq<Node>, insts: set<Instance>, ds: DaemonSet, needs: seq<Name>, deletes: seq<Name>, keep: map<Name, Instance>, x: Instance)
    requires Planned(nodes, insts, ds, needs, deletes, keep) && UniqueNames(insts) && x in insts
    ensures x.name in deletes <==> Doomed(nodes, ds, keep, x)
  {
    hide Doomed;
    hide LiveOn;
    hide Runs;
  }

  lemma RunningNode(nodes: seq<Node>, insts: set<Instance>, ds: DaemonSet, needs: seq<Name>, deletes: seq<Name>, keep: map<Name, Instance>,
                    made: map<Name, Instance>, after: set<Instance>, v: Name)
    requires UniqueNames(insts) && Planned(nodes, insts, ds, needs, deletes, keep) && Applied(insts, ds, needs, deletes, made, after)
    requires Runs(nodes, ds, v)
    ensures RunsOldest(insts, after, v)
  {
    hide Runs;
    hide TargetNodeName;
    hide UniqueNames;
    hide Made;
    var one := if v in keep then keep[v] else made[v];
    if v in keep {
      LeftOver(nodes, insts, ds, needs, deletes, keep, one);
      assert !Doomed(nodes, ds, keep, one);
    } else {
      MadeTargets(nodes, insts, ds, needs, deletes, keep, made, after, v);
    }
    assert one in after && LiveOn(one, v);
    forall y | y in after && LiveOn(y, v) ensures y == one {
      if y in insts && y.name !in deletes {
        LeftOver(nodes, insts, ds, needs, deletes, keep, y);
      } else {
        MadeOn(nodes, insts, ds, needs, deletes, keep, made, after, y);
      }
    }
  }

  lemma MadeTargets(nodes: seq<Node>, insts: set<Instance>, ds: DaemonSet, needs: seq<Name>, deletes: seq<Name>, keep: map<Name, Instance>,
                    made: map<Name, Instance>, after: set<Instance>, v: Name)
    requires Planned(nodes, insts, ds, needs, deletes, keep) && Applied(insts, ds, needs, deletes, made, after)
    requires v in made
    ensures LiveOn(made[v], v) && made[v] in after
  {
    hide TargetNodeName;
    hide ShouldRun;
    hide Made;
    assert made[v] in made.Values;
    var j :| 0 <= j < |nodes| && nodes[j].name == v && ShouldRun(nodes[j], ds);
    MadeIsLive(ds, nodes[j], made[v]);
  }

  /** On other nodes nothing is left but bound instances of nodes nobody knows. */
  lemma OtherNode(nodes: seq<Node>, insts: set<Instance>, ds: DaemonSet, needs: seq<Name>, deletes: seq<Name>, keep: map<Name, Instance>,
                  made: map<Name, Instance>, after: set<Instance>, x: Instance)
    requires UniqueNames(insts) && Planned(nodes, insts, ds, needs, deletes, keep) && Applied(insts, ds, needs, deletes, made, after)
    requires x in after && TargetNodeName(x).Some? && !Runs(nodes, ds, TargetNodeName(x).value)
    ensures !Known(nodes, TargetNodeName(x).value) && x.nodeRef.Some?
  {
    hide Runs;
    hide TargetNodeName;
    hide UniqueNames;
    hide Made;
    hide Known;
    hide LiveOn;
    if x in made.Values {
      MadeOn(nodes, insts, ds, needs, deletes, keep, made, after, x);
      assert false;
    }
    LeftOver(nodes, insts, ds, needs, deletes, keep, x);
  }

  /** Planning again, on the state reached, finds nothing to do. */
  lemma Replan(nodes: seq<Node>, insts: set<Instance>, ds: DaemonSet, needs: seq<Name>, deletes: seq<Name>, keep: map<Name, Instance>,
               made: map<Name, Instance>, after: set<Instance>, needs': seq<Name>, deletes': seq<Name>, keep': map<Name, Instance>)
    requires UniqueNames(insts) && Planned(nodes, insts, ds, needs, deletes, keep) && Applied(insts, ds, needs, deletes, made, after)
    requires Planned(nodes, after, ds, needs', deletes', keep')
    ensures needs' == [] && deletes' == []
  {
    hide Runs;
    hide TargetNodeName;
    hide UniqueNames;
    hide Known;
    hide Applied;
    if needs' != [] {
      var v := needs'[0];
      assert v in needs';
      RunningNode(nodes, insts, ds, needs, deletes, keep, made, after, v);
      assert false;
    }
    if deletes' != [] {
      assert deletes'[0] in deletes';
      var x :| x in after && Doomed(nodes, ds, keep', x);
      NotDoomed(nodes, insts, ds, needs, deletes, keep, made, after, needs', deletes', keep', x);
      assert false;
    }
  }

  lemma NotDoomed(nodes: seq<Node>, insts: set<Instance>, ds: DaemonSet, needs: seq<Name>, deletes: seq<Name>, keep: map<Name, Instance>,
                  made: map<Name, Instance>, after: set<Instance>, needs': seq<Name>, deletes': seq<Name>, keep': map<Name, Instance>, x: Instance)
    requires UniqueNames(insts) && Planned(nodes, insts, ds, needs, deletes, keep) && Applied(insts, ds, needs, deletes, made, after)
    requires Planned(nodes, after, ds, needs', deletes', keep') && x in after
    ensures !Doomed(nodes, ds, keep', x)
  {
    hide Runs;
    hide TargetNodeName;
    hide UniqueNames;
    hide Known;
    hide Applied;
    var t := TargetNodeName(x);
    if t.Some? && Runs(nodes, ds, t.value) {
      RunningNode(nodes, insts, ds, needs, deletes, keep, made, after, t.value);
      if !x.deleting {
        assert LiveOn(x, t.value);
        assert t.value in keep' && LiveOn(keep'[t.value], t.value);
      }
    } else if t.Some? {
      OtherNode(nodes, insts, ds, needs, deletes, keep, made, after, x);
    }
  }

  /**
   * The plan converges in one application: every node that should run the daemon has exactly one live
   * instance, an oldest one if there was any; other known nodes have none; unbound instances of unknown
   * nodes are gone; and planning again yields nothing.
   */
  lemma Converges(nodes: seq<Node>, insts: set<Instance>, ds: DaemonSet, needs: seq<Name>, deletes: seq<Name>, keep: map<Name, Instance>,
                  made: map<Name, Instance>, after: set<Instance>)
    requires DistinctNodes(nodes) && UniqueNames(insts)
    requires Planned(nodes, insts, ds, needs, deletes, keep) && Applied(insts, ds, needs, deletes, made, after)
    ensures forall j | 0 <= j < |nodes| && ShouldRun(nodes[j], ds) :: RunsOldest(insts, after, nodes[j].name)
    ensures forall j, x | 0 <= j < |nodes| && !ShouldRun(nodes[j], ds) && x in after :: TargetNodeName(x) != Some(nodes[j].name)
    ensures forall x | x in after && TargetNodeName(x).Some? && !Known(nodes, TargetNodeName(x).value) :: x.nodeRef.Some?
    ensures forall needs', deletes', keep' | Planned(nodes, after, ds, needs', deletes', keep') :: needs' == [] && deletes' == []
  {
    hide TargetNodeName;
    hide Planned;
    hide Applied;
    hide UniqueNames;
    hide RunsOldest;
    hide ShouldRun;
    hide Runs;
    hide Known;
    hide DistinctNodes;
    forall j | 0 <= j < |nodes| && ShouldRun(nodes[j], ds) ensures RunsOldest(insts, after, nodes[j].name) {
      RunsAt(nodes, ds, j);
      RunningNode(nodes, insts, ds, needs, deletes, keep, made, after, nodes[j].name);
    }
    forall j, x | 0 <= j < |nodes| && !ShouldRun(nodes[j], ds) && x in after ensures TargetNodeName(x) != Some(nodes[j].name) {
      RunsAt(nodes, ds, j);
      if TargetNodeName(x) == Some(nodes[j].name) {
        OtherNode(nodes, insts, ds, needs, deletes, keep, made, after, x);
        assert false;
      }
    }
    forall x | x in after && TargetNodeName(x).Some? && !Known(nodes, TargetNodeName(x).value) ensures x.nodeRef.Some? {
      RunsKnown(nodes, ds, TargetNodeName(x).value);
      OtherNode(nodes, insts, ds, needs, deletes, keep, made, after, x);
    }
    forall needs', deletes', keep' | Planned(nodes, after, ds, needs', deletes', keep') ensures needs' == [] && deletes' == [] {
      Replan(nodes, insts, ds, needs, deletes, keep, made, after, needs', deletes', keep');
    }
  }

  lemma RunsKnown(nodes: seq<Node>, ds: DaemonSet, v: Name)
    ensures Runs(nodes, ds, v) ==> Known(nodes, v)
  {
  }
}
