/** The scheduler cache as mutable objects: internal/controllers/scheduler/cache.go. */
module SchedulerCache {
  import opened Core
  import opened Cluster
  import opened CacheModel

  /** A node with the instances placed on it. Its maps are changed in place. */
  class ContainerInfo {
    var node: Option<Node>
    var instances: map<UID, Instance>

    constructor (node: Option<Node>, instances: map<UID, Instance>)
      ensures this.node == node && this.instances == instances
    {
      this.node := node;
      this.instances := instances;
    }

    ghost function View(): Container
      reads this
    {
      Container(node, instances)
    }

    /** A new container with its own copy of the instance map. */
    method ShallowCopy() returns (c: ContainerInfo)
      ensures fresh(c) && c.View() == View()
    {
      c := new ContainerInfo(node, instances);
    }
  }

  ghost predicate Distinct(nodes: map<Name, ContainerInfo>) {
    forall j, k | j in nodes && k in nodes && j != k :: nodes[j] != nodes[k]
  }

  ghost function Views(nodes: map<Name, ContainerInfo>): map<Name, Container>
    reads nodes.Values
  {
    map k | k in nodes :: nodes[k].View()
  }

  lemma ViewsAdd(nodes: map<Name, ContainerInfo>, k: Name, n: ContainerInfo)
    ensures Views(nodes[k := n]) == Views(nodes)[k := n.View()]
  {
  }

  lemma ViewAt(nodes: map<Name, ContainerInfo>, k: Name)
    ensures k in Views(nodes) <==> k in nodes
    ensures k in nodes ==> Views(nodes)[k] == nodes[k].View()
  {
  }

  lemma ChangedThenRemoved(v: map<Name, Container>, k: Name, key: UID, c: Container)
    requires k in v && c == v[k].(instances := v[k].instances - {key})
    ensures RemoveFrom(v, k, key) == if |c.instances| == 0 && c.node.None? then v[k := c] - {k} else v[k := c]
  {
    assert v[k := c] - {k} == v - {k};
  }

  lemma NotThere(v: map<Name, Container>, k: Name, key: UID)
    ensures k !in v ==> RemoveFrom(v, k, key) == v
  {
  }

  lemma ViewsRemove(nodes: map<Name, ContainerInfo>, k: Name)
    ensures Views(nodes - {k}) == Views(nodes) - {k}
    ensures (nodes - {k}).Values <= nodes.Values && (Distinct(nodes) ==> Distinct(nodes - {k}))
  {
  }

  /** Changing one container in place changes that one only. */
  method Change(nodes: map<Name, ContainerInfo>, k: Name, c: Container)
    requires Distinct(nodes) && k in nodes
    modifies nodes[k]
    ensures Views(nodes) == old(Views(nodes))[k := c]
  {
    nodes[k].node := c.node;
    nodes[k].instances := c.instances;
    assert nodes[k].View() == c;
    assert forall j | j in nodes && j != k :: nodes[j].View() == old(nodes[j].View());
  }

  lemma RecordedPlaced(x: Indexes, uid: UID)
    requires Agree(x) && uid in x.states
    ensures x.states[uid].instance.nodeRef.Some?
  {
  }

  lemma NothingDropped(x: Indexes)
    requires Agree(x)
    ensures DropAll(x, {}) == x
  {
    DropNone(x);
  }

  /** An assumed instance not dropped yet has a state, so the panic branch of cleanup is dead. */
  lemma StillRecorded(x: Indexes, gone: set<UID>, key: UID)
    requires Agree(x) && key in x.assumed && key !in gone
    ensures var y := DropAll(x, gone);
            && key in y.states && y.states[key] == x.states[key] && x.states[key].instance.nodeRef.Some?
            && (key in Expired(x) <==> x.states[key].bindingFinished)
  {
  }

  class SchedulerCache {
    var assumed: set<UID>
    var states: map<UID, InstanceState>
    var nodes: map<Name, ContainerInfo>

    ghost predicate Valid()
      reads this, nodes.Values
    {
      Distinct(nodes) && Agree(Content())
    }

    /** The three indexes as one value. */
    ghost function Content(): Indexes
      reads this, nodes.Values
    {
      Indexes(assumed, states, Views(nodes))
    }

    constructor ()
      ensures Valid() && nodes == map[] && Abs(Content()) == EMPTY_CACHE
    {
      assumed, states, nodes := {}, map[], map[];
      new;
      assert Content() == NO_INDEXES;
      RunRefines([], Cleanup);
    }

    /** The container for a name, created empty if there is none. */
    method GetOrCreate(k: Name)
      requires Distinct(nodes)
      modifies this`nodes
      ensures Distinct(nodes) && k in nodes && fresh(nodes.Values - old(nodes.Values))
      ensures Views(nodes) == old(Views(nodes))[k := nodes[k].View()]
      ensures nodes[k].View() == if k in old(Views(nodes)) then old(Views(nodes))[k] else NO_CONTAINER
    {
      if k !in nodes {
        var n := new ContainerInfo(None, map[]);
        ViewsAdd(nodes, k, n);
        nodes := nodes[k := n];
      }
    }

    method AddEntry(key: UID, inst: Placed, tentative: bool)
      requires Distinct(nodes)
      modifies this, nodes.Values
      ensures Distinct(nodes) && fresh(nodes.Values - old(nodes.Values))
      ensures Content() == CacheModel.AddEntry(old(Content()), key, inst, tentative)
    {
      hide Views;
      hide Distinct;
      var k := ContainerKey(inst);
      ghost var v := Views(nodes);
      GetOrCreate(k);
      ghost var v' := Views(nodes);
      var c := Container(nodes[k].node, nodes[k].instances[key := inst]);
      Change(nodes, k, c);
      assert v'[k := c] == v[k := c];
      states := states[key := InstanceState(inst, false)];
      if tentative {
        assumed := assumed + {key};
      }
    }

    /** Takes an instance out of a container, which goes with its last instance if it has no node. */
    method TakeOut(k: Name, key: UID)
      requires Distinct(nodes)
      modifies this`nodes, nodes.Values
      ensures Distinct(nodes) && nodes.Values <= old(nodes.Values)
      ensures Views(nodes) == RemoveFrom(old(Views(nodes)), k, key)
    {
      hide Views;
      hide Distinct;
      hide RemoveFrom;
      ViewAt(nodes, k);
      NotThere(Views(nodes), k, key);
      if k in nodes {
        var c := Container(nodes[k].node, nodes[k].instances - {key});
        ChangedThenRemoved(Views(nodes), k, key, c);
        Change(nodes, k, c);
        if |c.instances| == 0 && c.node.None? {
          ViewsRemove(nodes, k);
          nodes := nodes - {k};
        }
      }
    }

    method RemoveEntry(key: UID, inst: Placed)
      requires Distinct(nodes)
      modifies this, nodes.Values
      ensures Distinct(nodes) && nodes.Values <= old(nodes.Values)
      ensures Content() == CacheModel.RemoveEntry(old(Content()), key, inst)
    {
      hide Views;
      hide Distinct;
      hide RemoveFrom;
      TakeOut(ContainerKey(inst), key);
      assumed := assumed - {key};
      states := states - {key};
    }

    method IsAssumedInstance(inst: Instance) returns (r: Option<bool>)
      requires Valid()
      ensures r.None? <==> inst.uid == EMPTY
      ensures r.Some? ==> (r.value <==> inst.uid in Abs(Content()).entries && Abs(Content()).entries[inst.uid].phase != Added)
    {
      if inst.uid == EMPTY {
        return None;
      }
      return Some(inst.uid in assumed);
    }

    method AssumeInstance(inst: Placed) returns (r: Outcome)
      requires Valid()
      modifies this, nodes.Values
      ensures Valid() && fresh(nodes.Values - old(nodes.Values))
      ensures (Abs(Content()), r) == Step(old(Abs(Content())), Assume(inst))
    {
      hide Agree;
      hide Abs;
      hide Step;
      hide Views;
      hide Distinct;
      hide CacheModel.AddEntry;
      hide CacheModel.RemoveEntry;
      StepRefines(Content(), Assume(inst));
      if inst.uid == EMPTY {
        return Error;
      }
      if inst.uid in states {
        return Error;
      }
      AddEntry(inst.uid, inst, true);
      return Done;
    }

    method ForgetInstance(inst: Placed) returns (r: Outcome)
      requires Valid()
      modifies this, nodes.Values
      ensures Valid() && fresh(nodes.Values - old(nodes.Values))
      ensures (Abs(Content()), r) == Step(old(Abs(Content())), Forget(inst))
    {
      hide Agree;
      hide Abs;
      hide Step;
      hide Views;
      hide Distinct;
      hide CacheModel.AddEntry;
      hide CacheModel.RemoveEntry;
      StepRefines(Content(), Forget(inst));
      if inst.uid == EMPTY {
        return Error;
      }
      if inst.uid in states && states[inst.uid].instance.nodeRef != inst.nodeRef {
        return Error;
      }
      if inst.uid in states && inst.uid in assumed {
        RemoveEntry(inst.uid, inst);
      }
      return Error;
    }

    method FinishBinding(uid: UID) returns (r: Outcome)
      requires Valid()
      modifies this, nodes.Values
      ensures Valid() && fresh(nodes.Values - old(nodes.Values))
      ensures (Abs(Content()), r) == Step(old(Abs(Content())), CacheModel.FinishBinding(uid))
    {
      hide Agree;
      hide Abs;
      hide Step;
      hide Views;
      hide Distinct;
      hide CacheModel.AddEntry;
      hide CacheModel.RemoveEntry;
      StepRefines(Content(), CacheModel.FinishBinding(uid));
      if uid == EMPTY {
        return Error;
      }
      if uid in states && uid in assumed {
        states := states[uid := states[uid].(bindingFinished := true)];
      }
      return Done;
    }

    /** AddContainer and UpdateContainer. */
    method SetContainer(node: Node) returns (r: Outcome)
      requires Valid()
      modifies this, nodes.Values
      ensures Valid() && fresh(nodes.Values - old(nodes.Values))
      ensures (Abs(Content()), r) == Step(old(Abs(Content())), CacheModel.SetContainer(node))
    {
      hide Agree;
      hide Abs;
      hide Step;
      hide Views;
      hide Distinct;
      hide CacheModel.AddEntry;
      hide CacheModel.RemoveEntry;
      StepRefines(Content(), CacheModel.SetContainer(node));
      ghost var v := Views(nodes);
      GetOrCreate(node.name);
      ghost var v' := Views(nodes);
      var c := Container(Some(node), nodes[node.name].instances);
      Change(nodes, node.name, c);
      assert v'[node.name := c] == v[node.name := c];
      return Done;
    }

    method RemoveContainer(name: Name) returns (r: Outcome)
      requires Valid()
      modifies this, nodes.Values
      ensures Valid() && fresh(nodes.Values - old(nodes.Values))
      ensures (Abs(Content()), r) == Step(old(Abs(Content())), CacheModel.RemoveContainer(name))
    {
      hide Agree;
      hide Abs;
      hide Step;
      hide Views;
      hide Distinct;
      hide CacheModel.AddEntry;
      hide CacheModel.RemoveEntry;
      StepRefines(Content(), CacheModel.RemoveContainer(name));
      ViewAt(nodes, name);
      if name !in nodes {
        return Error;
      }
      ghost var v := Views(nodes);
      var c := Container(None, nodes[name].instances);
      Change(nodes, name, c);
      assert v[name := c] - {name} == v - {name};
      if |c.instances| == 0 {
        ViewsRemove(nodes, name);
        nodes := nodes - {name};
      }
      return Done;
    }

    method AddInstance(inst: Placed) returns (r: Outcome)
      requires Valid()
      modifies this, nodes.Values
      ensures Valid() && fresh(nodes.Values - old(nodes.Values))
      ensures (Abs(Content()), r) == Step(old(Abs(Content())), Add(inst))
    {
      hide Agree;
      hide Abs;
      hide Step;
      hide Views;
      hide Distinct;
      hide CacheModel.AddEntry;
      hide CacheModel.RemoveEntry;
      StepRefines(Content(), Add(inst));
      if inst.uid == EMPTY {
        return Error;
      }
      if inst.uid in states && inst.uid in assumed {
        RecordedPlaced(Content(), inst.uid);
        RemoveEntry(inst.uid, states[inst.uid].instance);
        AddEntry(inst.uid, inst, false);
        return Done;
      }
      if inst.uid !in states {
        AddEntry(inst.uid, inst, false);
        return Done;
      }
      return Error;
    }

    method UpdateInstance(before: Placed, after: Placed) returns (r: Outcome)
      requires Valid()
      modifies this, nodes.Values
      ensures Valid() && fresh(nodes.Values - old(nodes.Values))
      ensures (Abs(Content()), r) == Step(old(Abs(Content())), Update(before, after))
    {
      hide Agree;
      hide Abs;
      hide Step;
      hide Views;
      hide Distinct;
      hide CacheModel.AddEntry;
      hide CacheModel.RemoveEntry;
      StepRefines(Content(), Update(before, after));
      if before.uid == EMPTY {
        return Error;
      }
      if before.uid !in states {
        return Error;
      }
      if before.uid in assumed {
        return Error;
      }
      if states[before.uid].instance.nodeRef != after.nodeRef {
        return Panic;
      }
      RemoveEntry(before.uid, before);
      AddEntry(before.uid, after, false);
      return Done;
    }

    method RemoveInstance(inst: Placed) returns (r: Outcome)
      requires Valid()
      modifies this, nodes.Values
      ensures Valid() && fresh(nodes.Values - old(nodes.Values))
      ensures (Abs(Content()), r) == Step(old(Abs(Content())), Remove(inst))
    {
      hide Agree;
      hide Abs;
      hide Step;
      hide Views;
      hide Distinct;
      hide CacheModel.AddEntry;
      hide CacheModel.RemoveEntry;
      StepRefines(Content(), Remove(inst));
      if inst.uid == EMPTY {
        return Error;
      }
      if inst.uid !in states {
        return Error;
      }
      if states[inst.uid].instance.nodeRef != inst.nodeRef {
        return Panic;
      }
      RemoveEntry(inst.uid, inst);
      return Done;
    }

    /** Go ranges over the assumed set in an unspecified order while entries are removed from it. */
    method CleanupAssumedInstances() returns (r: Outcome)
      requires Valid()
      modifies this, nodes.Values
      ensures Valid() && fresh(nodes.Values - old(nodes.Values))
      ensures (Abs(Content()), r) == Step(old(Abs(Content())), Cleanup)
      ensures r == Done
    {
      hide Agree;
      hide Abs;
      hide Step;
      hide Views;
      hide Distinct;
      hide CacheModel.RemoveEntry;
      hide DropAll;
      ghost var x := Content();
      ghost var gone: set<UID> := {};
      StepRefines(x, Cleanup);
      CleanupSucceeds(Abs(x));
      NothingDropped(x);
      var rest := assumed;
      while rest != {}
        invariant Distinct(nodes) && nodes.Values <= old(nodes.Values)
        invariant Content() == DropAll(x, gone)
        invariant gone <= Expired(x) && rest <= x.assumed && rest !! gone
        invariant forall uid | uid in x.assumed && uid !in rest :: uid in gone <==> uid in Expired(x)
      {
        var key :| key in rest;
        rest := rest - {key};
        StillRecorded(x, gone, key);
        if key !in states {
          return Panic;
        }
        if !states[key].bindingFinished {
          continue;
        }
        DropOneMore(x, gone, key, states[key].instance);
        RemoveEntry(key, states[key].instance);
        gone := gone + {key};
      }
      assert gone == Expired(x);
      return Done;
    }

    /** Any one operation. */
    method Do(op: Op) returns (r: Outcome)
      requires Valid()
      modifies this, nodes.Values
      ensures Valid() && fresh(nodes.Values - old(nodes.Values))
      ensures (Abs(Content()), r) == Step(old(Abs(Content())), op)
    {
      hide *;
      match op {
        case Assume(inst) => r := AssumeInstance(inst);
        case Forget(inst) => r := ForgetInstance(inst);
        case FinishBinding(uid) => r := FinishBinding(uid);
        case SetContainer(node) => r := SetContainer(node);
        case RemoveContainer(name) => r := RemoveContainer(name);
        case Add(inst) => r := AddInstance(inst);
        case Update(before, after) => r := UpdateInstance(before, after);
        case Remove(inst) => r := RemoveInstance(inst);
        case Cleanup => r := CleanupAssumedInstances();
      }
    }
  }

  // ---- Snapshots ----

  /** The name index and the list hold the same containers, each once. */
  ghost predicate Indexed(nodes: map<Name, ContainerInfo>, list: seq<ContainerInfo>) {
    && (forall n | n in list :: n in nodes.Values)
    && (forall k | k in nodes :: nodes[k] in list)
    && (forall i, j | 0 <= i < j < |list| :: list[i] != list[j])
    && Distinct(nodes)
  }

  lemma IndexedAdd(nodes: map<Name, ContainerInfo>, list: seq<ContainerInfo>, k: Name, n: ContainerInfo)
    requires Indexed(nodes, list) && k !in nodes && n !in nodes.Values
    ensures Indexed(nodes[k := n], list + [n]) && nodes[k := n].Values == nodes.Values + {n}
  {
    var more := nodes[k := n];
    assert more[k] == n;
    forall m | m in nodes.Values ensures m in more.Values {
      var j :| j in nodes && nodes[j] == m;
      assert more[j] == m;
    }
  }

  lemma CopiesShow(copies: map<Name, ContainerInfo>, cache: SchedulerCache)
    requires forall k :: k in copies <==> k in cache.nodes && cache.nodes[k].node.Some?
    requires forall k | k in copies :: copies[k].View() == cache.nodes[k].View()
    ensures Views(copies) == LiveContainers(cache.Content()) && |Views(copies)| == |copies|
  {
    assert Views(copies).Keys == copies.Keys;
  }

  method CopyLive(cache: SchedulerCache) returns (copies: map<Name, ContainerInfo>, list: seq<ContainerInfo>)
    requires cache.Valid()
    ensures fresh(copies.Values) && Indexed(copies, list) && |list| == |Views(copies)|
    ensures Views(copies) == LiveContainers(cache.Content())
  {
    hide Agree;
    hide Distinct;
    hide Indexed;
    hide Views;
    hide LiveContainers;
    hide ContainerInfo.View;
    hide SchedulerCache.Content;
    EmptyIndexed();
    copies, list := map[], [];
    var rest := cache.nodes.Keys;
    while rest != {}
      invariant rest <= cache.nodes.Keys
      invariant fresh(copies.Values) && Indexed(copies, list) && |list| == |copies|
      invariant forall k :: k in copies <==> k in cache.nodes && k !in rest && cache.nodes[k].node.Some?
      invariant forall k | k in copies :: copies[k].View() == cache.nodes[k].View()
    {
      var k :| k in rest;
      rest := rest - {k};
      if cache.nodes[k].node.None? {
        continue;
      }
      var n := cache.nodes[k].ShallowCopy();
      IndexedAdd(copies, list, k, n);
      copies, list := copies[k := n], list + [n];
    }
    CopiesShow(copies, cache);
  }

  class Snapshot {
    var nodes: map<Name, ContainerInfo>
    var nodesList: seq<ContainerInfo>

    ghost predicate Valid()
      reads this
    {
      Indexed(nodes, nodesList)
    }

    /** What the snapshot shows. */
    ghost function Shown(): map<Name, Container>
      reads this, nodes.Values
    {
      Views(nodes)
    }

    constructor ()
      ensures Valid() && nodes == map[]
    {
      nodes, nodesList := map[], [];
    }

    /** Copies the containers of live nodes as they are now. */
    method Update(cache: SchedulerCache)
      requires cache.Valid()
      modifies this
      ensures Valid() && fresh(nodes.Values)
      ensures Shown() == Placements(Abs(cache.Content())) && Named(Shown())
      ensures |nodesList| == |Shown()|
    {
      hide Agree;
      hide Abs;
      hide Placements;
      hide Named;
      hide Views;
      hide Indexed;
      hide LiveContainers;
      LiveContainersShow(cache.Content());
      nodes, nodesList := CopyLive(cache);
    }

    /** The containers as the filters read them. */
    method ListNodes() returns (r: seq<NodeInfo>)
      requires Valid() && Named(Shown())
      ensures Lists(r, Shown()) && |r| == |nodesList|
    {
      r := [];
      for i := 0 to |nodesList|
        invariant |r| == i && forall j | 0 <= j < i :: nodesList[j].node.Some? && r[j] == NodeInfo(nodesList[j].node.value, nodesList[j].instances)
      {
        ListedNode(this, i);
        r := r + [NodeInfo(nodesList[i].node.value, nodesList[i].instances)];
      }
      ListedOnce(this, r);
    }

    method GetNode(name: Name) returns (r: Option<ContainerInfo>)
      ensures r.Some? <==> name in Shown()
      ensures r.Some? ==> r.value.View() == Shown()[name]
    {
      r := if name in nodes then Some(nodes[name]) else None;
    }
  }

  lemma ListedNode(s: Snapshot, i: nat)
    requires s.Valid() && Named(s.Shown()) && i < |s.nodesList|
    ensures var c := s.nodesList[i].View();
            c.node.Some? && c.node.value.name in s.nodes && s.nodes[c.node.value.name] == s.nodesList[i]
            && s.Shown()[c.node.value.name] == c
  {
    assert s.nodesList[i] in s.nodes.Values;
    var k :| k in s.nodes && s.nodes[k] == s.nodesList[i];
    assert s.Shown()[k] == s.nodes[k].View();
  }

  lemma ListedOnce(s: Snapshot, r: seq<NodeInfo>)
    requires s.Valid() && Named(s.Shown()) && |r| == |s.nodesList|
    requires forall j | 0 <= j < |r| :: s.nodesList[j].node.Some? && r[j] == NodeInfo(s.nodesList[j].node.value, s.nodesList[j].instances)
    ensures Lists(r, s.Shown())
  {
    forall i | 0 <= i < |r| ensures r[i].node.name in s.nodes && s.nodes[r[i].node.name] == s.nodesList[i]
      && s.Shown()[r[i].node.name] == Container(Some(r[i].node), r[i].instances)
    {
      ListedNode(s, i);
    }
    forall k | k in s.Shown() ensures exists i :: 0 <= i < |r| && r[i].node.name == k {
      var i :| 0 <= i < |s.nodesList| && s.nodesList[i] == s.nodes[k];
      assert s.Shown()[k] == s.nodes[k].View();
    }
  }

  lemma EmptyIndexed()
    ensures Indexed(map[], [])
  {
  }

  /**
   * Isolation: a snapshot taken now shows exactly the live nodes with the instances the cache places
   * there, and after any later sequence of cache operations it still shows just that.
   */
  method SnapshotIsolation(cache: SchedulerCache, ops: seq<Op>) returns (s: Snapshot)
    requires cache.Valid()
    modifies cache, cache.nodes.Values
    ensures fresh(s) && s.Valid() && cache.Valid()
    ensures Abs(cache.Content()) == RunFrom(old(Abs(cache.Content())), ops)
    ensures s.Shown() == Placements(old(Abs(cache.Content()))) && Named(s.Shown())
  {
    hide *;
    s := new Snapshot();
    s.Update(cache);
    ghost var shown := s.nodes.Values;
    ghost var before := Abs(cache.Content());
    NothingRun(before, ops);
    for i := 0 to |ops|
      invariant cache.Valid() && fresh(cache.nodes.Values - old(cache.nodes.Values))
      invariant Abs(cache.Content()) == RunFrom(before, ops[..i])
      invariant shown !! cache.nodes.Values && shown == s.nodes.Values && fresh(shown) && fresh(s)
      invariant s.Valid() && s.Shown() == Placements(before) && Named(s.Shown())
    {
      RunFromStep(before, ops, i);
      var _ := cache.Do(ops[i]);
    }
    assert ops[..|ops|] == ops;
  }

  lemma NothingRun(a: Cache, ops: seq<Op>)
    ensures RunFrom(a, ops[..0]) == a
  {
  }
}
