/**
 * The scheduler cache as values: what each operation of internal/controllers/scheduler/cache.go does to
 * the three indexes, the plain map they stand for, and the proof that the first refines the second.
 */
module CacheModel {
  import opened Core
  import opened Cluster

  // ---- The cache's own indexes ----

  datatype InstanceState = InstanceState(instance: Instance, bindingFinished: bool)
  datatype Container = Container(node: Option<Node>, instances: map<UID, Instance>)
  datatype Indexes = Indexes(assumed: set<UID>, states: map<UID, InstanceState>, containers: map<Name, Container>)

  datatype Outcome = Done | Error | Panic

  /** An instance that reaches the cache has a node; Go would dereference a nil pointer otherwise. */
  type Placed = i: Instance | i.nodeRef.Some?
    witness Instance(0, 0, 0, map[], false, 0, Some(0), None, None)

  function ContainerKey(i: Placed): Name {
    i.nodeRef.value
  }

  datatype Op =
    | Assume(inst: Placed)
    | Forget(inst: Placed)
    | FinishBinding(uid: UID)
    | SetContainer(node: Node)
    | RemoveContainer(name: Name)
    | Add(inst: Placed)
    | Update(before: Placed, after: Placed)
    | Remove(inst: Placed)
    | Cleanup

  const NO_CONTAINER := Container(None, map[])

  function AddEntry(x: Indexes, key: UID, inst: Placed, tentative: bool): Indexes {
    var k := ContainerKey(inst);
    var c := if k in x.containers then x.containers[k] else NO_CONTAINER;
    Indexes(if tentative then x.assumed + {key} else x.assumed,
            x.states[key := InstanceState(inst, false)],
            x.containers[k := c.(instances := c.instances[key := inst])])
  }

  /** A container without node goes with its last instance. */
  function RemoveFrom(containers: map<Name, Container>, k: Name, key: UID): map<Name, Container> {
    if k !in containers then containers
    else
      var c := containers[k].(instances := containers[k].instances - {key});
      if |c.instances| == 0 && c.node.None? then containers - {k} else containers[k := c]
  }

  /** The container is looked up through the instance handed in, not through the recorded one. */
  function RemoveEntry(x: Indexes, key: UID, inst: Placed): Indexes {
    Indexes(x.assumed - {key}, x.states - {key}, RemoveFrom(x.containers, ContainerKey(inst), key))
  }

  lemma RemoveFromIs(containers: map<Name, Container>, k: Name, key: UID)
    ensures var after := RemoveFrom(containers, k, key);
            && after.Keys <= containers.Keys
            && (forall j | j in containers && j != k :: j in after && after[j] == containers[j])
            && (k in after ==> after[k].node == containers[k].node && after[k].instances == containers[k].instances - {key}
                               && (after[k].node.Some? || |after[k].instances| > 0))
            && (k in containers && k !in after ==> containers[k].node.None? && containers[k].instances.Keys <= {key})
  {
    if k in containers {
      var left := containers[k].instances - {key};
      if |left| == 0 {
        assert left.Keys == {} && left.Keys == containers[k].instances.Keys - {key};
      }
    }
  }

  /** Assumed instances whose binding has finished. */
  function Expired(x: Indexes): set<UID> {
    set uid | uid in x.assumed && uid in x.states && x.states[uid].bindingFinished
  }

  function Thinned(c: Container, gone: set<UID>): Container {
    c.(instances := c.instances - gone)
  }

  predicate Stays(c: Container, gone: set<UID>) {
    c.node.Some? || !(c.instances.Keys <= gone)
  }

  function DropFromAll(containers: map<Name, Container>, gone: set<UID>): map<Name, Container> {
    map k | k in containers && Stays(containers[k], gone) :: Thinned(containers[k], gone)
  }

  /** The indexes without the instances in `gone`; a container without node goes with its last instance. */
  function DropAll(x: Indexes, gone: set<UID>): Indexes {
    Indexes(x.assumed - gone, x.states - gone, DropFromAll(x.containers, gone))
  }

  function StepIndexes(x: Indexes, op: Op): (Indexes, Outcome) {
    match op
    case Assume(inst) =>
      if inst.uid == EMPTY || inst.uid in x.states then (x, Error)
      else (AddEntry(x, inst.uid, inst, true), Done)
    case Forget(inst) =>
      // The call reports an error even when it removed the instance.
      if inst.uid == EMPTY || inst.uid !in x.states || inst.uid !in x.assumed then (x, Error)
      else if x.states[inst.uid].instance.nodeRef != inst.nodeRef then (x, Error)
      else (RemoveEntry(x, inst.uid, inst), Error)
    case FinishBinding(uid) =>
      if uid == EMPTY then (x, Error)
      else if uid in x.states && uid in x.assumed then
        (x.(states := x.states[uid := x.states[uid].(bindingFinished := true)]), Done)
      else (x, Done)
    case SetContainer(node) =>
      var c := if node.name in x.containers then x.containers[node.name] else NO_CONTAINER;
      (x.(containers := x.containers[node.name := c.(node := Some(node))]), Done)
    case RemoveContainer(name) =>
      if name !in x.containers then (x, Error)
      else if |x.containers[name].instances| == 0 then (x.(containers := x.containers - {name}), Done)
      else (x.(containers := x.containers[name := x.containers[name].(node := None)]), Done)
    case Add(inst) =>
      if inst.uid == EMPTY then (x, Error)
      else if inst.uid in x.states && inst.uid in x.assumed then
        if x.states[inst.uid].instance.nodeRef.None? then (x, Panic)
        else (AddEntry(RemoveEntry(x, inst.uid, x.states[inst.uid].instance), inst.uid, inst, false), Done)
      else if inst.uid !in x.states then (AddEntry(x, inst.uid, inst, false), Done)
      else (x, Error)
    case Update(before, after) =>
      if before.uid == EMPTY || before.uid !in x.states || before.uid in x.assumed then (x, Error)
      else if x.states[before.uid].instance.nodeRef != after.nodeRef then (x, Panic)
      else (AddEntry(RemoveEntry(x, before.uid, before), before.uid, after, false), Done)
    case Remove(inst) =>
      if inst.uid == EMPTY || inst.uid !in x.states then (x, Error)
      else if x.states[inst.uid].instance.nodeRef != inst.nodeRef then (x, Panic)
      else (RemoveEntry(x, inst.uid, inst), Done)
    case Cleanup =>
      if !(x.assumed <= x.states.Keys) then (x, Panic)
      else (DropAll(x, Expired(x)), Done)
  }

  const NO_INDEXES := Indexes({}, map[], map[])

  /** Every instance with a state sits in the container it names; only assumed ones can be finished. */
  ghost predicate StatesHeld(x: Indexes) {
    forall uid | uid in x.states ::
      && x.states[uid].instance.nodeRef.Some?
      && (uid in x.assumed || !x.states[uid].bindingFinished)
      && Holds(x, x.states[uid].instance.nodeRef.value, uid, x.states[uid].instance)
  }

  ghost predicate Holds(x: Indexes, k: Name, uid: UID, inst: Instance) {
    k in x.containers && uid in x.containers[k].instances && x.containers[k].instances[uid] == inst
  }

  /** No container holds anything else. */
  ghost predicate NothingElseHeld(x: Indexes) {
    forall k, uid | k in x.containers && uid in x.containers[k].instances ::
      uid in x.states && x.states[uid].instance.nodeRef == Some(k)
  }

  /** A container exists only while its node is live or it holds an instance. */
  ghost predicate ContainersNeeded(x: Indexes) {
    forall k | k in x.containers ::
      && (x.containers[k].node.Some? || |x.containers[k].instances| > 0)
      && (x.containers[k].node.Some? ==> x.containers[k].node.value.name == k)
  }

  /**
   * The indexes agree: assumed instances have a state, each instance sits in exactly the container it
   * names, and a container exists exactly when its node is live or it holds an instance.
   */
  ghost predicate Agree(x: Indexes) {
    x.assumed <= x.states.Keys && StatesHeld(x) && NothingElseHeld(x) && ContainersNeeded(x)
  }

  // ---- The plain map ----

  datatype Phase = Assumed | AssumedFinished | Added
  datatype Entry = Entry(instance: Instance, phase: Phase)
  datatype Cache = Cache(entries: map<UID, Entry>, live: map<Name, Node>)

  const EMPTY_CACHE := Cache(map[], map[])

  function Put(a: Cache, uid: UID, inst: Instance, phase: Phase): Cache {
    a.(entries := a.entries[uid := Entry(inst, phase)])
  }

  function Drop(a: Cache, uid: UID): Cache {
    a.(entries := a.entries - {uid})
  }

  /** The node is live, or some instance names it. */
  predicate InUse(a: Cache, name: Name) {
    name in a.live || exists uid :: uid in a.entries && a.entries[uid].instance.nodeRef == Some(name)
  }

  function Step(a: Cache, op: Op): (Cache, Outcome) {
    match op
    case Assume(inst) =>
      if inst.uid == EMPTY || inst.uid in a.entries then (a, Error) else (Put(a, inst.uid, inst, Assumed), Done)
    case Forget(inst) =>
      if inst.uid != EMPTY && inst.uid in a.entries && !a.entries[inst.uid].phase.Added?
         && a.entries[inst.uid].instance.nodeRef == inst.nodeRef
      then (Drop(a, inst.uid), Error) else (a, Error)
    case FinishBinding(uid) =>
      if uid == EMPTY then (a, Error)
      else if uid in a.entries && !a.entries[uid].phase.Added? then (Put(a, uid, a.entries[uid].instance, AssumedFinished), Done)
      else (a, Done)
    case SetContainer(node) => (a.(live := a.live[node.name := node]), Done)
    case RemoveContainer(name) =>
      (a.(live := a.live - {name}),
       if InUse(a, name) then Done else Error)
    case Add(inst) =>
      if inst.uid == EMPTY || (inst.uid in a.entries && a.entries[inst.uid].phase.Added?) then (a, Error)
      else (Put(a, inst.uid, inst, Added), Done)
    case Update(before, after) =>
      if before.uid == EMPTY || before.uid !in a.entries || !a.entries[before.uid].phase.Added? then (a, Error)
      else if a.entries[before.uid].instance.nodeRef != after.nodeRef then (a, Panic)
      else (Put(a, before.uid, after, Added), Done)
    case Remove(inst) =>
      if inst.uid == EMPTY || inst.uid !in a.entries then (a, Error)
      else if a.entries[inst.uid].instance.nodeRef != inst.nodeRef then (a, Panic)
      else (Drop(a, inst.uid), Done)
    case Cleanup =>
      (a.(entries := map uid | uid in a.entries && !a.entries[uid].phase.AssumedFinished? :: a.entries[uid]), Done)
  }

  /** The instances the cache places on a node. */
  ghost function PlacedOn(a: Cache, name: Name): map<UID, Instance> {
    map uid | uid in a.entries && a.entries[uid].instance.nodeRef == Some(name) :: a.entries[uid].instance
  }

  /** The live nodes, each with the instances placed on it. */
  ghost function Placements(a: Cache): map<Name, Container> {
    map k | k in a.live :: Container(Some(a.live[k]), PlacedOn(a, k))
  }

  /** Every container belongs to the node of its name. */
  ghost predicate Named(shown: map<Name, Container>) {
    forall k | k in shown :: shown[k].node.Some? && shown[k].node.value.name == k
  }

  /** The list shows exactly the live nodes, each once, with exactly the instances placed there. */
  ghost predicate Lists(nodes: seq<NodeInfo>, shown: map<Name, Container>) {
    && (forall i | 0 <= i < |nodes| :: nodes[i].node.name in shown && shown[nodes[i].node.name] == Container(Some(nodes[i].node), nodes[i].instances))
    && (forall i, j | 0 <= i < j < |nodes| :: nodes[i].node.name != nodes[j].node.name)
    && (forall k | k in shown :: exists i :: 0 <= i < |nodes| && nodes[i].node.name == k)
  }

  // ---- Refinement ----

  ghost function EntryOf(assumed: set<UID>, uid: UID, state: InstanceState): Entry {
    Entry(state.instance, if uid !in assumed then Added else if state.bindingFinished then AssumedFinished else Assumed)
  }

  ghost function Entries(assumed: set<UID>, states: map<UID, InstanceState>): map<UID, Entry> {
    map uid | uid in states :: EntryOf(assumed, uid, states[uid])
  }

  ghost function Live(containers: map<Name, Container>): map<Name, Node> {
    map k | k in containers && containers[k].node.Some? :: containers[k].node.value
  }

  /** The plain map the indexes stand for. */
  ghost function Abs(x: Indexes): Cache {
    Cache(Entries(x.assumed, x.states), Live(x.containers))
  }

  /** The containers of live nodes. */
  ghost function LiveContainers(x: Indexes): map<Name, Container> {
    map k | k in x.containers && x.containers[k].node.Some? :: x.containers[k]
  }

  /** The containers of live nodes hold exactly the instances the plain map places there. */
  lemma LiveContainersShow(x: Indexes)
    requires Agree(x)
    ensures LiveContainers(x) == Placements(Abs(x))
    ensures Named(LiveContainers(x))
  {
    hide StatesHeld;
    hide NothingElseHeld;
    hide PlacedOn;
    forall k | k in LiveContainers(x) ensures x.containers[k].instances == PlacedOn(Abs(x), k) {
      ContainerShows(x, k);
    }
  }

  lemma ContainerShows(x: Indexes, k: Name)
    requires StatesHeld(x) && NothingElseHeld(x) && k in x.containers
    ensures x.containers[k].instances == PlacedOn(Abs(x), k)
  {
    hide Live;
    forall uid ensures uid in x.containers[k].instances <==> uid in PlacedOn(Abs(x), k) {
      if uid in x.states {
        assert Holds(x, x.states[uid].instance.nodeRef.value, uid, x.states[uid].instance);
      }
    }
    forall uid | uid in x.containers[k].instances ensures x.containers[k].instances[uid] == PlacedOn(Abs(x), k)[uid] {
      assert Holds(x, x.states[uid].instance.nodeRef.value, uid, x.states[uid].instance);
    }
  }

  lemma AddEntryHeld(x: Indexes, key: UID, inst: Placed, tentative: bool)
    requires StatesHeld(x) && key !in x.states
    ensures StatesHeld(AddEntry(x, key, inst, tentative))
  {
    var y := AddEntry(x, key, inst, tentative);
    forall uid | uid in y.states ensures Holds(y, y.states[uid].instance.nodeRef.value, uid, y.states[uid].instance) {
      if uid != key {
        assert Holds(x, x.states[uid].instance.nodeRef.value, uid, x.states[uid].instance);
      }
    }
  }

  lemma AddEntryContainers(x: Indexes, key: UID, inst: Placed, tentative: bool)
    requires NothingElseHeld(x) && ContainersNeeded(x) && key !in x.states
    ensures NothingElseHeld(AddEntry(x, key, inst, tentative))
    ensures ContainersNeeded(AddEntry(x, key, inst, tentative))
  {
  }

  lemma AddEntryAbs(x: Indexes, key: UID, inst: Placed, tentative: bool)
    requires key !in x.states && key !in x.assumed
    ensures Abs(AddEntry(x, key, inst, tentative)) == Put(Abs(x), key, inst, if tentative then Assumed else Added)
  {
    var y := AddEntry(x, key, inst, tentative);
    assert Live(y.containers) == Live(x.containers);
    assert Entries(y.assumed, y.states) == Put(Abs(x), key, inst, if tentative then Assumed else Added).entries;
  }

  lemma AddEntryRefines(x: Indexes, key: UID, inst: Placed, tentative: bool)
    requires Agree(x) && key !in x.states
    ensures Agree(AddEntry(x, key, inst, tentative))
    ensures Abs(AddEntry(x, key, inst, tentative)) == Put(Abs(x), key, inst, if tentative then Assumed else Added)
  {
    hide StatesHeld;
    hide NothingElseHeld;
    hide ContainersNeeded;
    AddEntryHeld(x, key, inst, tentative);
    AddEntryContainers(x, key, inst, tentative);
    AddEntryAbs(x, key, inst, tentative);
  }

  lemma RemoveEntryHeld(x: Indexes, key: UID, inst: Placed)
    requires StatesHeld(x) && key in x.states && x.states[key].instance.nodeRef == inst.nodeRef
    ensures StatesHeld(RemoveEntry(x, key, inst))
  {
    hide RemoveFrom;
    RemoveFromIs(x.containers, ContainerKey(inst), key);
    var y := RemoveEntry(x, key, inst);
    forall uid | uid in y.states ensures Holds(y, y.states[uid].instance.nodeRef.value, uid, y.states[uid].instance) {
      assert Holds(x, x.states[uid].instance.nodeRef.value, uid, x.states[uid].instance);
    }
  }

  lemma RemoveEntryNothingElse(x: Indexes, key: UID, inst: Placed)
    requires NothingElseHeld(x) && key in x.states && x.states[key].instance.nodeRef == inst.nodeRef
    ensures NothingElseHeld(RemoveEntry(x, key, inst))
  {
    hide RemoveFrom;
    RemoveFromIs(x.containers, ContainerKey(inst), key);
    var y := RemoveEntry(x, key, inst);
    forall k, uid | k in y.containers && uid in y.containers[k].instances
      ensures uid in y.states && y.states[uid].instance.nodeRef == Some(k)
    {
      assert uid in x.containers[k].instances;
    }
  }

  lemma RemoveEntryNeeded(x: Indexes, key: UID, inst: Placed)
    requires ContainersNeeded(x)
    ensures ContainersNeeded(RemoveEntry(x, key, inst))
  {
    hide RemoveFrom;
    RemoveFromIs(x.containers, ContainerKey(inst), key);
  }

  lemma RemoveEntryAbs(x: Indexes, key: UID, inst: Placed)
    ensures Abs(RemoveEntry(x, key, inst)) == Drop(Abs(x), key)
  {
    hide RemoveFrom;
    RemoveFromIs(x.containers, ContainerKey(inst), key);
    var y := RemoveEntry(x, key, inst);
    assert Live(y.containers) == Live(x.containers);
    assert Entries(y.assumed, y.states) == Entries(x.assumed, x.states) - {key};
  }

  lemma RemoveEntryRefines(x: Indexes, key: UID, inst: Placed)
    requires Agree(x) && key in x.states && x.states[key].instance.nodeRef == inst.nodeRef
    ensures Agree(RemoveEntry(x, key, inst))
    ensures Abs(RemoveEntry(x, key, inst)) == Drop(Abs(x), key)
  {
    hide StatesHeld;
    hide NothingElseHeld;
    hide ContainersNeeded;
    RemoveEntryHeld(x, key, inst);
    RemoveEntryNothingElse(x, key, inst);
    RemoveEntryNeeded(x, key, inst);
    RemoveEntryAbs(x, key, inst);
  }

  /** Looking the old entry up in a container that does not hold it changes no container. */
  lemma RemoveFromElsewhere(containers: map<Name, Container>, k: Name, key: UID)
    requires k in containers ==> key !in containers[k].instances
    requires k in containers ==> containers[k].node.Some? || |containers[k].instances| > 0
    ensures RemoveFrom(containers, k, key) == containers
  {
    if k in containers {
      assert containers[k].instances - {key} == containers[k].instances;
    }
  }

  /**
   * Replacing an entry in its own container comes out the same whichever container the removal went
   * through: UpdateInstance uses the caller's old instance, not the recorded one.
   */
  lemma ReplaceThroughAny(x: Indexes, key: UID, via: Placed, recorded: Placed, inst: Placed)
    requires Agree(x) && key in x.states && x.states[key].instance == recorded && recorded.nodeRef == inst.nodeRef
    ensures AddEntry(RemoveEntry(x, key, via), key, inst, false) == AddEntry(RemoveEntry(x, key, recorded), key, inst, false)
  {
    var k := ContainerKey(inst);
    if via.nodeRef != recorded.nodeRef {
      assert ContainerKey(via) in x.containers ==> key !in x.containers[ContainerKey(via)].instances;
      RemoveFromElsewhere(x.containers, ContainerKey(via), key);
      assert Holds(x, k, key, recorded);
      AddBack(x.containers, k, key, inst);
    }
  }

  lemma AddBack(containers: map<Name, Container>, k: Name, key: UID, inst: Placed)
    requires k in containers && ContainerKey(inst) == k
    ensures var after := RemoveFrom(containers, k, key);
            var c := if k in after then after[k] else NO_CONTAINER;
            containers[k := containers[k].(instances := containers[k].instances[key := inst])]
            == after[k := c.(instances := c.instances[key := inst])]
  {
    var after := RemoveFrom(containers, k, key);
    RemoveFromIs(containers, k, key);
    hide RemoveFrom;
    var c := if k in after then after[k] else NO_CONTAINER;
    assert c.node == containers[k].node;
    SameWithKey(containers[k].instances, c.instances, key, inst);
    assert forall j | j in containers && j != k :: after[j] == containers[j];
  }

  lemma SameWithKey(a: map<UID, Instance>, b: map<UID, Instance>, key: UID, inst: Instance)
    requires b == a - {key} || (b == map[] && a.Keys <= {key})
    ensures a[key := inst] == b[key := inst]
  {
  }

  lemma PutAfterDrop(a: Cache, key: UID, inst: Instance, phase: Phase)
    ensures Put(Drop(a, key), key, inst, phase) == Put(a, key, inst, phase)
  {
    assert Put(Drop(a, key), key, inst, phase).entries == Put(a, key, inst, phase).entries;
  }

  lemma ReplaceRefines(x: Indexes, key: UID, via: Placed, inst: Placed)
    requires Agree(x) && key in x.states
    requires x.states[key].instance.nodeRef == via.nodeRef || x.states[key].instance.nodeRef == inst.nodeRef
    ensures Agree(AddEntry(RemoveEntry(x, key, via), key, inst, false))
    ensures Abs(AddEntry(RemoveEntry(x, key, via), key, inst, false)) == Put(Abs(x), key, inst, Added)
  {
    assert Holds(x, x.states[key].instance.nodeRef.value, key, x.states[key].instance);
    var recorded := x.states[key].instance;
    hide StatesHeld;
    hide NothingElseHeld;
    hide ContainersNeeded;
    hide RemoveFrom;
    var through := if recorded.nodeRef == via.nodeRef then via else recorded;
    if recorded.nodeRef != via.nodeRef {
      ReplaceThroughAny(x, key, via, recorded, inst);
    }
    RemoveEntryRefines(x, key, through);
    AddEntryRefines(RemoveEntry(x, key, through), key, inst, false);
    PutAfterDrop(Abs(x), key, inst, Added);
  }

  /** The same instances in the same containers, and the same states but for finished bindings of assumed ones. */
  ghost predicate SameInstances(x: Indexes, y: Indexes) {
    && x.states.Keys == y.states.Keys && x.assumed == y.assumed
    && (forall uid | uid in x.states :: x.states[uid].instance == y.states[uid].instance)
    && (forall uid | uid in x.states :: uid in x.assumed || x.states[uid] == y.states[uid])
    && (forall k, uid, inst :: Holds(y, k, uid, inst) <==> Holds(x, k, uid, inst))
  }

  lemma SameInstancesHeld(x: Indexes, y: Indexes)
    requires StatesHeld(x) && NothingElseHeld(x) && SameInstances(x, y)
    ensures StatesHeld(y) && NothingElseHeld(y)
  {
    forall k, uid | k in y.containers && uid in y.containers[k].instances
      ensures uid in y.states && y.states[uid].instance.nodeRef == Some(k)
    {
      assert Holds(y, k, uid, y.containers[k].instances[uid]);
      assert Holds(x, k, uid, y.containers[k].instances[uid]);
    }
    hide Holds;
    assert StatesHeld(y);
  }

  lemma FinishRefines(x: Indexes, uid: UID)
    requires Agree(x) && uid in x.states && uid in x.assumed
    ensures var y := x.(states := x.states[uid := x.states[uid].(bindingFinished := true)]);
            Agree(y) && Abs(y) == Put(Abs(x), uid, Abs(x).entries[uid].instance, AssumedFinished)
  {
    hide StatesHeld;
    hide NothingElseHeld;
    var y := x.(states := x.states[uid := x.states[uid].(bindingFinished := true)]);
    SameInstancesHeld(x, y);
    assert Entries(y.assumed, y.states) == Put(Abs(x), uid, x.states[uid].instance, AssumedFinished).entries;
  }

  lemma SetContainerAgrees(x: Indexes, node: Node)
    requires Agree(x)
    ensures Agree(StepIndexes(x, SetContainer(node)).0)
  {
    hide StatesHeld;
    hide NothingElseHeld;
    SameInstancesHeld(x, StepIndexes(x, SetContainer(node)).0);
  }

  lemma SetContainerAbs(x: Indexes, node: Node)
    ensures Abs(StepIndexes(x, SetContainer(node)).0) == Step(Abs(x), SetContainer(node)).0
  {
    hide Entries;
    assert Live(StepIndexes(x, SetContainer(node)).0.containers) == Live(x.containers)[node.name := node];
  }

  lemma RemoveContainerAgrees(x: Indexes, name: Name)
    requires Agree(x)
    ensures Agree(StepIndexes(x, RemoveContainer(name)).0)
  {
    hide StatesHeld;
    hide NothingElseHeld;
    var y := StepIndexes(x, RemoveContainer(name)).0;
    if name in x.containers {
      NoInstances(x.containers[name].instances);
    }
    forall k, uid, inst ensures Holds(y, k, uid, inst) <==> Holds(x, k, uid, inst) {
    }
    SameInstancesHeld(x, y);
  }

  lemma NoInstances(m: map<UID, Instance>)
    ensures |m| == 0 <==> forall uid :: uid !in m
  {
    if |m| == 0 {
      assert m.Keys == {};
    }
  }

  lemma RemoveContainerAbs(x: Indexes, name: Name)
    requires Agree(x)
    ensures var (y, r) := StepIndexes(x, RemoveContainer(name));
            (Abs(y), r) == Step(Abs(x), RemoveContainer(name))
  {
    ContainerInUse(x, name);
    RemoveContainerLive(x, name);
    hide Agree;
    hide InUse;
    hide Abs;
  }

  lemma RemoveContainerLive(x: Indexes, name: Name)
    ensures Abs(StepIndexes(x, RemoveContainer(name)).0) == Cache(Abs(x).entries, Abs(x).live - {name})
  {
    hide Entries;
    hide Live;
    LiveWithout(x.containers, name);
  }

  lemma LiveWithout(containers: map<Name, Container>, name: Name)
    ensures Live(containers - {name}) == Live(containers) - {name}
    ensures name !in containers ==> Live(containers) - {name} == Live(containers)
    ensures name in containers ==> Live(containers[name := containers[name].(node := None)]) == Live(containers) - {name}
  {
  }

  /** A container exists exactly when its node is live or some instance names it. */
  lemma ContainerInUse(x: Indexes, name: Name)
    requires Agree(x)
    ensures name in x.containers <==> InUse(Abs(x), name)
  {
    if name in x.containers && name !in Abs(x).live {
      var u :| u in x.containers[name].instances;
      assert u in Abs(x).entries && Abs(x).entries[u].instance.nodeRef == Some(name);
    }
    if uid :| uid in Abs(x).entries && Abs(x).entries[uid].instance.nodeRef == Some(name) {
      assert Holds(x, name, uid, x.states[uid].instance);
    }
  }

  lemma CleanupHeld(x: Indexes, gone: set<UID>)
    requires StatesHeld(x)
    ensures StatesHeld(DropAll(x, gone))
  {
    var y := DropAll(x, gone);
    forall uid | uid in y.states ensures Holds(y, y.states[uid].instance.nodeRef.value, uid, y.states[uid].instance) {
      var k := x.states[uid].instance.nodeRef.value;
      assert Holds(x, k, uid, x.states[uid].instance);
      assert uid in x.containers[k].instances.Keys && uid !in gone;
    }
  }

  lemma CleanupNothingElse(x: Indexes, gone: set<UID>)
    requires NothingElseHeld(x)
    ensures NothingElseHeld(DropAll(x, gone))
  {
  }

  lemma CleanupNeeded(x: Indexes, gone: set<UID>)
    requires ContainersNeeded(x)
    ensures ContainersNeeded(DropAll(x, gone))
  {
    var y := DropAll(x, gone);
    forall k | k in y.containers && y.containers[k].node.None? ensures |y.containers[k].instances| > 0 {
      var uid :| uid in x.containers[k].instances.Keys && uid !in gone;
      assert uid in y.containers[k].instances;
    }
  }

  lemma DropNone(x: Indexes)
    requires ContainersNeeded(x)
    ensures DropAll(x, {}) == x
  {
    forall k | k in x.containers ensures Stays(x.containers[k], {}) && Thinned(x.containers[k], {}) == x.containers[k] {
      NoInstances(x.containers[k].instances);
      assert x.containers[k].instances - {} == x.containers[k].instances;
    }
    hide Stays;
    hide Thinned;
    assert DropFromAll(x.containers, {}) == x.containers;
    assert x.states - {} == x.states;
  }

  /** A container that does not hold `key` is thinned the same with or without it. */
  lemma ThinnedWithout(c: Container, gone: set<UID>, key: UID)
    requires key !in c.instances
    ensures Thinned(c, gone + {key}) == Thinned(c, gone) && Stays(c, gone + {key}) == Stays(c, gone)
  {
    assert c.instances - (gone + {key}) == c.instances - gone;
    assert c.instances.Keys <= gone + {key} <==> c.instances.Keys <= gone;
  }

  lemma ThinnedOnce(c: Container, gone: set<UID>, key: UID)
    requires key in c.instances && key !in gone
    ensures Stays(c, gone)
    ensures Thinned(c, gone + {key}) == Thinned(c, gone).(instances := Thinned(c, gone).instances - {key})
    ensures Stays(c, gone + {key}) <==> c.node.Some? || |Thinned(c, gone).instances - {key}| > 0
  {
    assert key in c.instances.Keys;
    var left := c.instances - (gone + {key});
    assert left == (c.instances - gone) - {key};
    NoInstances(left);
    assert left.Keys == c.instances.Keys - (gone + {key});
  }

  lemma HeldOnce(x: Indexes, key: UID, k: Name)
    requires NothingElseHeld(x) && k in x.containers && key in x.containers[k].instances
    ensures forall j | j in x.containers && j != k :: key !in x.containers[j].instances
  {
    assert x.states[key].instance.nodeRef == Some(k);
  }

  lemma DropOneMoreContainers(x: Indexes, gone: set<UID>, key: UID, k: Name)
    requires NothingElseHeld(x) && k in x.containers && key in x.containers[k].instances && key !in gone
    ensures RemoveFrom(DropFromAll(x.containers, gone), k, key) == DropFromAll(x.containers, gone + {key})
  {
    HeldOnce(x, key, k);
    hide NothingElseHeld;
    ThinnedOnce(x.containers[k], gone, key);
    forall j | j in x.containers && j != k
      ensures Thinned(x.containers[j], gone + {key}) == Thinned(x.containers[j], gone)
      ensures Stays(x.containers[j], gone + {key}) == Stays(x.containers[j], gone)
    {
      ThinnedWithout(x.containers[j], gone, key);
    }
    RemovedFromDropped(x.containers, gone, key, k);
  }

  lemma RemovedFromDropped(containers: map<Name, Container>, gone: set<UID>, key: UID, k: Name)
    requires k in containers && key in containers[k].instances && key !in gone
    requires forall j | j in containers && j != k ::
      && Thinned(containers[j], gone + {key}) == Thinned(containers[j], gone)
      && Stays(containers[j], gone + {key}) == Stays(containers[j], gone)
    ensures RemoveFrom(DropFromAll(containers, gone), k, key) == DropFromAll(containers, gone + {key})
  {
    ThinnedOnce(containers[k], gone, key);
    ThinnedNode(containers[k], gone + {key});
    DroppedDiffers(containers, gone, gone + {key}, k);
    hide Thinned;
    hide Stays;
    hide DropFromAll;
  }

  /** Two drops that treat every container but one alike. */
  lemma DroppedDiffers(containers: map<Name, Container>, gone: set<UID>, gone': set<UID>, k: Name)
    requires k in containers && Stays(containers[k], gone)
    requires forall j | j in containers && j != k ::
      && Thinned(containers[j], gone') == Thinned(containers[j], gone)
      && Stays(containers[j], gone') == Stays(containers[j], gone)
    ensures var d := DropFromAll(containers, gone);
            && k in d && d[k] == Thinned(containers[k], gone)
            && DropFromAll(containers, gone') == if Stays(containers[k], gone') then d[k := Thinned(containers[k], gone')] else d - {k}
  {
    hide Thinned;
    hide Stays;
    var d := DropFromAll(containers, gone);
    if Stays(containers[k], gone') {
      assert DropFromAll(containers, gone') == d[k := Thinned(containers[k], gone')];
    } else {
      assert DropFromAll(containers, gone').Keys == d.Keys - {k};
      assert DropFromAll(containers, gone') == d - {k};
    }
  }

  lemma ThinnedNode(c: Container, gone: set<UID>)
    ensures Thinned(c, gone).node == c.node
  {
  }

  /** Dropping one more instance through its own container. */
  lemma DropOneMore(x: Indexes, gone: set<UID>, key: UID, inst: Placed)
    requires Agree(x) && key in x.states && key !in gone && x.states[key].instance == inst
    ensures RemoveEntry(DropAll(x, gone), key, inst) == DropAll(x, gone + {key})
  {
    assert Holds(x, ContainerKey(inst), key, inst);
    DropOneMoreContainers(x, gone, key, ContainerKey(inst));
    hide DropFromAll;
    hide RemoveFrom;
    hide Agree;
    assert (x.states - gone) - {key} == x.states - (gone + {key});
    assert (x.assumed - gone) - {key} == x.assumed - (gone + {key});
  }

  /** Cleanup removes exactly the assumed instances whose binding finished, and never panics. */
  lemma CleanupRefines(x: Indexes)
    requires Agree(x)
    ensures var y := DropAll(x, Expired(x));
            Agree(y) && Abs(y) == Step(Abs(x), Cleanup).0
  {
    CleanupHeld(x, Expired(x));
    CleanupNothingElse(x, Expired(x));
    CleanupNeeded(x, Expired(x));
    CleanupAbs(x);
    hide StatesHeld;
    hide NothingElseHeld;
    hide ContainersNeeded;
  }

  lemma CleanupAbs(x: Indexes)
    requires x.assumed <= x.states.Keys
    ensures Abs(DropAll(x, Expired(x))) == Step(Abs(x), Cleanup).0
  {
    var y := DropAll(x, Expired(x));
    assert Live(y.containers) == Live(x.containers);
    assert Entries(y.assumed, y.states) == Step(Abs(x), Cleanup).0.entries;
  }

  /** Every operation keeps the indexes in agreement, does to the plain map what it should, and reports the same. */
  lemma StepRefines(x: Indexes, op: Op)
    requires Agree(x)
    ensures var (y, r) := StepIndexes(x, op);
            Agree(y) && (Abs(y), r) == Step(Abs(x), op)
  {
    hide RemoveFrom;
    hide DropAll;
    hide NothingElseHeld;
    hide ContainersNeeded;
    hide Holds;
    match op {
      case Assume(inst) =>
        if inst.uid !in x.states {
          AddEntryRefines(x, inst.uid, inst, true);
        }
      case Forget(inst) =>
        if inst.uid in x.states && x.states[inst.uid].instance.nodeRef == inst.nodeRef {
          RemoveEntryRefines(x, inst.uid, inst);
        }
      case FinishBinding(uid) =>
        if uid in x.states && uid in x.assumed {
          FinishRefines(x, uid);
        }
      case SetContainer(node) =>
        SetContainerAgrees(x, node);
        SetContainerAbs(x, node);
      case RemoveContainer(name) =>
        RemoveContainerAgrees(x, name);
        RemoveContainerAbs(x, name);
      case Add(inst) =>
        if inst.uid in x.states && inst.uid in x.assumed {
          ReplaceRefines(x, inst.uid, x.states[inst.uid].instance, inst);
        } else if inst.uid !in x.states {
          AddEntryRefines(x, inst.uid, inst, false);
        }
      case Update(before, after) =>
        if before.uid in x.states && x.states[before.uid].instance.nodeRef == after.nodeRef {
          ReplaceRefines(x, before.uid, before, after);
        }
      case Remove(inst) =>
        if inst.uid in x.states && x.states[inst.uid].instance.nodeRef == inst.nodeRef {
          RemoveEntryRefines(x, inst.uid, inst);
        }
      case Cleanup => CleanupRefines(x);
    }
  }

  // ---- Runs ----

  function RunIndexes(ops: seq<Op>): Indexes {
    if ops == [] then NO_INDEXES else StepIndexes(RunIndexes(ops[..|ops| - 1]), ops[|ops| - 1]).0
  }

  function RunFrom(a: Cache, ops: seq<Op>): Cache {
    if ops == [] then a else Step(RunFrom(a, ops[..|ops| - 1]), ops[|ops| - 1]).0
  }

  function Run(ops: seq<Op>): Cache {
    RunFrom(EMPTY_CACHE, ops)
  }

  lemma RunFromStep(a: Cache, ops: seq<Op>, i: nat)
    requires i < |ops|
    ensures RunFrom(a, ops[..i + 1]) == Step(RunFrom(a, ops[..i]), ops[i]).0
  {
    hide Step;
    assert ops[..i + 1][..i] == ops[..i];
  }

  /**
   * After any sequence of operations the indexes agree, they stand for the plain map, and the next
   * operation, whichever it is, reports what the plain map says; in particular cleanup never panics.
   */
  lemma {:induction false} RunRefines(ops: seq<Op>, next: Op)
    ensures Agree(RunIndexes(ops)) && Abs(RunIndexes(ops)) == Run(ops)
    ensures StepIndexes(RunIndexes(ops), next).1 == Step(Run(ops), next).1
    ensures StepIndexes(RunIndexes(ops), Cleanup).1 != Panic
  {
    hide StepIndexes;
    hide Step;
    hide Agree;
    hide Abs;
    if ops == [] {
      NoIndexesAgree();
    } else {
      RunRefines(ops[..|ops| - 1], ops[|ops| - 1]);
      StepRefines(RunIndexes(ops[..|ops| - 1]), ops[|ops| - 1]);
    }
    StepRefines(RunIndexes(ops), next);
    StepRefines(RunIndexes(ops), Cleanup);
    CleanupSucceeds(Run(ops));
  }

  lemma NoIndexesAgree()
    ensures Agree(NO_INDEXES) && Abs(NO_INDEXES) == EMPTY_CACHE
  {
    assert Entries({}, map[]) == map[] && Live(map[]) == map[];
  }

  lemma CleanupSucceeds(a: Cache)
    ensures Step(a, Cleanup).1 == Done
  {
  }

  /** An added instance stays added until it is removed. */
  lemma AddedStep(a: Cache, op: Op, uid: UID)
    requires uid in a.entries && a.entries[uid].phase == Added
    ensures var b := Step(a, op).0; uid in b.entries ==> b.entries[uid].phase == Added
  {
  }

  /** Between being added and being assumed again, an instance is out of the cache at some point of the run. */
  lemma {:induction false} AddedNeverAssumed(ops: seq<Op>, i: nat, j: nat, uid: UID)
    requires i <= j <= |ops|
    requires uid in Run(ops[..i]).entries && Run(ops[..i]).entries[uid].phase == Added
    requires uid in Run(ops[..j]).entries && Run(ops[..j]).entries[uid].phase != Added
    ensures exists k :: i < k < j && uid !in Run(ops[..k]).entries
  {
    hide Step;
    var m := j - 1;
    assert ops[..j][..m] == ops[..m];
    var a := Run(ops[..m]);
    if uid !in a.entries {
      assert i < m;
    } else if a.entries[uid].phase == Added {
      AddedStep(a, ops[m], uid);
      assert false;
    } else {
      AddedNeverAssumed(ops, i, m, uid);
    }
  }
}
