/**
 * A DaemonSet controller over a lagging view: syncNodes and reconcile of
 * internal/controllers/daemonset_controller.go with utils/expectations and utils/handler/expectations.go.
 *
 * The API server is a log of changes. The controller reads the state after a prefix of it, and the handlers
 * that discharge expectations are told about changes some time after the view has moved past them.
 */
module DaemonSetRuns {
  import opened Core
  import opened Cluster
  import opened NodeAffinity
  import opened Sorting
  import opened DaemonSetPlan
  import X = Expectations

  // ---- The server ----

  type Objects = map<Name, Instance>

  datatype Record =
    | Stored(name: Name, inst: Instance)
    | Bound(name: Name, node: Name)
    | Marked(name: Name)  // deletion timestamp set
    | Removed(name: Name)

  function Apply(objs: Objects, r: Record): Objects {
    match r
    case Stored(n, inst) => objs[n := inst]
    case Bound(n, v) => if n in objs then objs[n := objs[n].(nodeRef := Some(v))] else objs
    case Marked(n) => if n in objs then objs[n := objs[n].(deleting := true)] else objs
    case Removed(n) => objs - {n}
  }

  function After(log: seq<Record>): Objects {
    if log == [] then map[] else Apply(After(log[..|log| - 1]), log[|log| - 1])
  }

  /** The instance was created for a node, and is bound nowhere else. */
  ghost predicate Pinned(inst: Instance) {
    exists v, affinity :: inst.affinity == Some(Pin(affinity, v)) && (inst.nodeRef.Some? ==> inst.nodeRef.value == v)
  }

  /** A name is stored once at a time; an instance is bound once, to a named node its affinity admits. */
  ghost predicate Legal(objs: Objects, r: Record) {
    match r
    case Stored(n, inst) => n !in objs && inst.name == n && !inst.deleting && Pinned(inst)
    case Bound(n, v) => n in objs && objs[n].nodeRef.None? && v != EMPTY && exists labels :: Admits(objs[n].affinity, Node(v, labels))
    case Marked(n) => n in objs
    case Removed(n) => n in objs
  }

  ghost predicate Lawful(log: seq<Record>) {
    forall i | 0 <= i < |log| :: Legal(After(log[..i]), log[i])
  }

  ghost predicate AllPinned(objs: Objects) {
    forall n | n in objs :: Pinned(objs[n]) && objs[n].name == n
  }

  /** No two live instances have the same target. */
  ghost predicate AtMostOne(objs: Objects) {
    forall m, n, v | m in objs && n in objs && LiveOn(objs[m], v) && LiveOn(objs[n], v) :: m == n
  }

  ghost predicate NoneOn(objs: Objects, v: Name) {
    forall n | n in objs :: !LiveOn(objs[n], v)
  }

  // ---- The controller ----

  /** What the handlers are told; updates are ignored by them and left out. */
  datatype Note = Added(name: Name, deleting: bool) | Gone(name: Name)

  datatype Phase = Idle | Checked | Syncing

  /**
   * `exp` is what the controller waits for. `pending` maps the names still to be created to their nodes,
   * `doomed` lists the names to be deleted after that.
   */
  datatype State = State(
    log: seq<Record>, seen: nat, notes: seq<Note>, exp: X.Expectation,
    phase: Phase, ds: DaemonSet, pending: map<Name, Name>, doomed: seq<Name>)

  datatype Event =
    | Check
    | PlanFails
    | StartSync(nodes: seq<Node>, ds: DaemonSet, needs: seq<Name>, deletes: seq<Name>, keep: map<Name, Instance>, names: seq<Name>)
    | CreateOk(name: Name, inst: Instance)
    | CreateFail(name: Name)
    | CreateLost(name: Name, inst: Instance, expected: bool)
    | DeleteOk(removed: bool)
    | DeleteFail
    | EndSync
    | Outside(record: Record)
    | Advance(to: nat, notes: seq<Note>)
    | Handle

  /** A create that is stored but reported as failed, with its name no longer expected, as the code does. */
  ghost predicate Loses(e: Event) {
    e.CreateLost? && !e.expected
  }

  /** What a watch, or a new list after a broken watch, reports: objects that appeared, once each, and objects that went. */
  ghost predicate Reports(notes: seq<Note>, before: Objects, now: Objects) {
    && (forall i | 0 <= i < |notes| && notes[i].Added? ::
          notes[i].name !in before && notes[i].name in now && notes[i].deleting == now[notes[i].name].deleting)
    && (forall i, j | 0 <= i < j < |notes| && notes[i].Added? && notes[j].Added? :: notes[i].name != notes[j].name)
    && (forall i | 0 <= i < |notes| && notes[i].Gone? :: notes[i].name in before && notes[i].name !in now)
  }

  ghost predicate Paired(pending: map<Name, Name>, names: seq<Name>, needs: seq<Name>) {
    && |names| == |needs| && NoDup(names)
    && (forall n :: n in pending <==> n in names)
    && (forall i | 0 <= i < |names| :: pending[names[i]] == needs[i])
  }

  function Discharge(exp: X.Expectation, note: Note): X.Expectation {
    if note.Added? && !note.deleting then X.CreateSeen(exp, note.name) else X.DeleteSeen(exp, note.name)
  }

  ghost predicate Next(s: State, e: Event, s': State) {
    match e
    case Check =>
      // Satisfied, without a timeout.
      s.phase.Idle? && s.exp == X.NOTHING && s' == s.(phase := Checked)
    case PlanFails => s.phase.Checked? && s' == s.(phase := Idle)
    case StartSync(nodes, ds, needs, deletes, keep, names) =>
      // The DaemonSet's template may have changed, its namespace cannot.
      && s.phase.Checked? && s.seen <= |s.log| && DistinctNodes(nodes) && ds.namespace == s.ds.namespace
      && Planned(nodes, After(s.log[..s.seen]).Values, ds, needs, deletes, keep)
      && Paired(s'.pending, names, needs)
      && s' == s.(phase := Syncing, ds := ds, pending := s'.pending, doomed := deletes,
                  exp := X.Expectation(s'.pending.Keys, set d | d in deletes))
    case CreateOk(n, inst) =>
      && s.phase.Syncing? && n in s.pending && n !in After(s.log) && inst.name == n && Made(s.ds, s.pending[n], inst)
      && s' == s.(log := s.log + [Stored(n, inst)], pending := s.pending - {n})
    case CreateFail(n) =>
      // Nothing was stored.
      s.phase.Syncing? && n in s.pending && s' == s.(pending := s.pending - {n}, exp := X.CreateSeen(s.exp, n))
    case CreateLost(n, inst, expected) =>
      && s.phase.Syncing? && n in s.pending && n !in After(s.log) && inst.name == n && Made(s.ds, s.pending[n], inst)
      && s' == s.(log := s.log + [Stored(n, inst)], pending := s.pending - {n}, exp := if expected then s.exp else X.CreateSeen(s.exp, n))
    case DeleteOk(removed) =>
      && s.phase.Syncing? && s.pending == map[] && s.doomed != [] && s.doomed[0] in After(s.log)
      && s' == s.(log := s.log + [if removed then Removed(s.doomed[0]) else Marked(s.doomed[0])], doomed := s.doomed[1..])
    case DeleteFail =>
      && s.phase.Syncing? && s.pending == map[] && s.doomed != []
      && s' == s.(doomed := s.doomed[1..], exp := X.DeleteSeen(s.exp, s.doomed[0]))
    case EndSync => s.phase.Syncing? && s.pending == map[] && s.doomed == [] && s' == s.(phase := Idle)
    case Outside(r) => !r.Stored? && Legal(After(s.log), r) && s' == s.(log := s.log + [r])
    case Advance(to, notes) =>
      && s.seen <= to <= |s.log| && Reports(notes, After(s.log[..s.seen]), After(s.log[..to]))
      && s' == s.(seen := to, notes := s.notes + notes)
    case Handle => s.notes != [] && s' == s.(notes := s.notes[1..], exp := Discharge(s.exp, s.notes[0]))
  }

  /** A controller that starts over what is there, having listed it all. */
  ghost predicate Initial(s: State) {
    && Lawful(s.log) && AtMostOne(After(s.log)) && s.seen == |s.log|
    && s.notes == [] && s.exp == X.NOTHING && s.phase.Idle? && s.pending == map[] && s.doomed == []
  }

  ghost predicate IsRun(states: seq<State>, events: seq<Event>) {
    && |states| == |events| + 1 && Initial(states[0])
    && forall i | 0 <= i < |events| :: Next(states[i], events[i], states[i + 1])
  }

  // ---- The invariant ----

  ghost predicate StoredAt(log: seq<Record>, i: int, n: Name) {
    0 <= i < |log| && log[i].Stored? && log[i].name == n
  }

  /** The name was created at or after `seen`. */
  ghost predicate Unseen(log: seq<Record>, seen: nat, n: Name) {
    exists i :: seen <= i && StoredAt(log, i, n)
  }

  /** Whatever was created and not seen is expected, and was created once. */
  ghost predicate UnseenExpected(s: State) {
    && (forall n | Unseen(s.log, s.seen, n) :: n in s.exp.create)
    && (forall i, j, n | s.seen <= i && s.seen <= j && StoredAt(s.log, i, n) && StoredAt(s.log, j, n) :: i == j)
  }

  /** The DaemonSet should run on a node of this name. */
  ghost predicate Runnable(ds: DaemonSet, v: Name) {
    exists labels :: ShouldRun(Node(v, labels), ds)
  }

  /** Names are to be created for different nodes that should run the DaemonSet and have no live instance. */
  ghost predicate PendingNodes(s: State) {
    && (forall n | n in s.pending :: NoneOn(After(s.log), s.pending[n]))
    && (forall n | n in s.pending :: Runnable(s.ds, s.pending[n]))
    && (forall m, n | m in s.pending && n in s.pending && s.pending[m] == s.pending[n] :: m == n)
  }

  /** Names to be created are expected, and were not created lately. */
  ghost predicate PendingNames(s: State) {
    forall n | n in s.pending :: n in s.exp.create && !Unseen(s.log, s.seen, n)
  }

  ghost predicate Fresh(note: Note) {
    note.Added? && !note.deleting
  }

  /** A name whose creation is about to be handled is still expected, and only once. */
  ghost predicate NotesPending(s: State) {
    && (forall i | 0 <= i < |s.notes| && Fresh(s.notes[i]) ::
          s.notes[i].name in s.exp.create && s.notes[i].name !in s.pending && !Unseen(s.log, s.seen, s.notes[i].name))
    && (forall i, j | 0 <= i < j < |s.notes| && Fresh(s.notes[i]) && Fresh(s.notes[j]) :: s.notes[i].name != s.notes[j].name)
  }

  ghost predicate PhaseOk(s: State) {
    && (!s.phase.Syncing? ==> s.pending == map[])
    && (s.phase.Checked? ==> s.exp.create == {})
    && (s.pending != map[] ==> forall d | d in s.exp.delete :: d in s.doomed)
  }

  ghost predicate Inv(s: State) {
    && s.seen <= |s.log| && Lawful(s.log) && AtMostOne(After(s.log))
    && UnseenExpected(s) && PendingNodes(s) && PendingNames(s) && NotesPending(s) && PhaseOk(s)
  }

  // ---- Targets never change ----

  lemma BindingKeepsTarget(x: Instance, v: Name, labels: Labels)
    requires Pinned(x) && x.nodeRef.None? && v != EMPTY && Admits(x.affinity, Node(v, labels))
    ensures Pinned(x.(nodeRef := Some(v))) && TargetNodeName(x) == Some(v) && TargetNodeName(x.(nodeRef := Some(v))) == Some(v)
  {
    hide Admits;
    hide TargetNodeName;
    var w, affinity :| x.affinity == Some(Pin(affinity, w));
    PinnedAdmits(affinity, w, Node(v, labels));
    PinnedTarget(x, affinity, w);
    assert x.(nodeRef := Some(v)).affinity == Some(Pin(affinity, v));
  }

  lemma StepPinned(objs: Objects, r: Record)
    requires AllPinned(objs) && Legal(objs, r)
    ensures AllPinned(Apply(objs, r))
  {
    hide Pinned;
    hide Admits;
    if r.Bound? {
      var labels :| Admits(objs[r.name].affinity, Node(r.node, labels));
      BindingKeepsTarget(objs[r.name], r.node, labels);
    } else if r.Marked? {
      MarkedPinned(objs[r.name]);
    }
  }

  lemma MarkedPinned(x: Instance)
    ensures Pinned(x.(deleting := true)) <==> Pinned(x)
    ensures TargetNodeName(x.(deleting := true)) == TargetNodeName(x)
  {
    var y := x.(deleting := true);
    if Pinned(x) {
      var v, affinity :| x.affinity == Some(Pin(affinity, v)) && (x.nodeRef.Some? ==> x.nodeRef.value == v);
      assert y.affinity == Some(Pin(affinity, v));
    }
    if Pinned(y) {
      var v, affinity :| y.affinity == Some(Pin(affinity, v)) && (y.nodeRef.Some? ==> y.nodeRef.value == v);
      assert x.affinity == Some(Pin(affinity, v));
    }
  }

  /** What is live on a node after a change other than its own creation was live there before. */
  lemma StepLive(objs: Objects, r: Record, n: Name, v: Name)
    requires AllPinned(objs) && Legal(objs, r) && !(r.Stored? && r.name == n)
    requires n in Apply(objs, r) && LiveOn(Apply(objs, r)[n], v)
    ensures n in objs && LiveOn(objs[n], v)
  {
    hide Pinned;
    hide Admits;
    hide TargetNodeName;
    if r.Bound? && r.name == n {
      var labels :| Admits(objs[n].affinity, Node(r.node, labels));
      BindingKeepsTarget(objs[n], r.node, labels);
    }
  }

  lemma LawfulPrefix(log: seq<Record>, k: nat)
    requires Lawful(log) && k <= |log|
    ensures Lawful(log[..k])
  {
    hide Legal;
    forall i | 0 <= i < k ensures Legal(After(log[..k][..i]), log[..k][i]) {
      assert log[..k][..i] == log[..i];
    }
  }

  lemma LawfulMore(log: seq<Record>, r: Record)
    requires Lawful(log) && Legal(After(log), r)
    ensures Lawful(log + [r]) && After(log + [r]) == Apply(After(log), r)
  {
    hide Legal;
    hide Apply;
    var more := log + [r];
    assert more[..|log|] == log;
    forall i | 0 <= i < |more| ensures Legal(After(more[..i]), more[i]) {
      assert i < |log| ==> more[..i] == log[..i];
    }
  }

  lemma {:induction false} LogPinned(log: seq<Record>)
    requires Lawful(log)
    ensures AllPinned(After(log))
  {
    hide Legal;
    hide Apply;
    if log != [] {
      var n := |log| - 1;
      LawfulPrefix(log, n);
      LogPinned(log[..n]);
      StepPinned(After(log[..n]), log[n]);
    }
  }

  /** What is live now and was created before `k` is live in the view at `k`, with the same target. */
  lemma {:induction false} SeenLive(log: seq<Record>, k: nat, n: Name, v: Name)
    requires Lawful(log) && k <= |log| && !Unseen(log, k, n)
    requires n in After(log) && LiveOn(After(log)[n], v)
    ensures n in After(log[..k]) && LiveOn(After(log[..k])[n], v)
  {
    hide Legal;
    hide Apply;
    hide LiveOn;
    if k == |log| {
      assert log[..k] == log;
    } else {
      var last := |log| - 1;
      LawfulPrefix(log, last);
      LogPinned(log[..last]);
      assert !StoredAt(log, last, n);
      assert Legal(After(log[..last]), log[last]);
      StepLive(After(log[..last]), log[last], n, v);
      forall i | k <= i ensures !StoredAt(log[..last], i, n) {
        assert StoredAt(log[..last], i, n) ==> StoredAt(log, i, n);
      }
      SeenLive(log[..last], k, n, v);
      assert log[..last][..k] == log[..k];
    }
  }

  /** An object that appears in the view was created since. */
  lemma {:induction false} Appeared(log: seq<Record>, k: nat, n: Name)
    requires k <= |log| && n !in After(log[..k]) && n in After(log)
    ensures Unseen(log, k, n)
  {
    assert log[..|log|] == log;
    if k < |log| {
      var last := |log| - 1;
      if n in After(log[..last]) {
        assert log[..last][..k] == log[..k];
        Appeared(log[..last], k, n);
        var i :| k <= i && StoredAt(log[..last], i, n);
        assert StoredAt(log, i, n);
      } else {
        assert StoredAt(log, last, n);
      }
    }
  }

  // ---- Steps that grow the log ----

  lemma StoredAtMore(log: seq<Record>, r: Record, i: int, n: Name)
    ensures StoredAt(log + [r], i, n) <==> StoredAt(log, i, n) || (i == |log| && r.Stored? && r.name == n)
  {
  }

  lemma UnseenMore(log: seq<Record>, r: Record, seen: nat, n: Name)
    requires seen <= |log|
    ensures Unseen(log + [r], seen, n) <==> Unseen(log, seen, n) || (r.Stored? && r.name == n)
  {
    hide StoredAt;
    forall i ensures StoredAt(log + [r], i, n) <==> StoredAt(log, i, n) || (i == |log| && r.Stored? && r.name == n) {
      StoredAtMore(log, r, i, n);
    }
    if Unseen(log, seen, n) {
      var i :| seen <= i && StoredAt(log, i, n);
      assert StoredAt(log + [r], i, n);
    }
    if r.Stored? && r.name == n {
      assert StoredAt(log + [r], |log|, n);
    }
  }

  /** A change that creates nothing: no new live instance anywhere. */
  lemma ShrinkKeepsServer(log: seq<Record>, r: Record)
    requires Lawful(log) && AtMostOne(After(log)) && Legal(After(log), r) && !r.Stored?
    ensures Lawful(log + [r]) && AtMostOne(After(log + [r]))
    ensures forall v | NoneOn(After(log), v) :: NoneOn(After(log + [r]), v)
  {
    hide Legal;
    hide Apply;
    hide LiveOn;
    LawfulMore(log, r);
    LogPinned(log);
    var objs, objs' := After(log), After(log + [r]);
    forall n, v | n in objs' && LiveOn(objs'[n], v) ensures n in objs && LiveOn(objs[n], v) {
      StepLive(objs, r, n, v);
    }
  }

  lemma ShrinkKeepsInv(s: State, r: Record, s': State)
    requires Inv(s) && Legal(After(s.log), r) && !r.Stored?
    requires s'.log == s.log + [r] && s'.seen == s.seen && s'.notes == s.notes && s'.exp.create == s.exp.create
    requires s'.phase == s.phase && s'.pending == s.pending && s'.ds == s.ds && s'.exp == s.exp
    requires s.pending != map[] ==> s'.doomed == s.doomed
    ensures Inv(s')
  {
    hide Legal;
    hide AtMostOne;
    hide Unseen;
    hide StoredAt;
    hide After;
    hide Lawful;
    hide NoneOn;
    ShrinkKeepsServer(s.log, r);
    forall n ensures Unseen(s'.log, s'.seen, n) <==> Unseen(s.log, s.seen, n) {
      UnseenMore(s.log, r, s.seen, n);
    }
    forall i, n ensures StoredAt(s'.log, i, n) <==> StoredAt(s.log, i, n) {
      StoredAtMore(s.log, r, i, n);
    }
  }

  lemma CreateKeepsServer(log: seq<Record>, n: Name, inst: Instance, v: Name)
    requires Lawful(log) && AtMostOne(After(log)) && Legal(After(log), Stored(n, inst)) && NoneOn(After(log), v) && LiveOn(inst, v)
    ensures Lawful(log + [Stored(n, inst)]) && AtMostOne(After(log + [Stored(n, inst)]))
    ensures forall w | w != v && NoneOn(After(log), w) :: NoneOn(After(log + [Stored(n, inst)]), w)
  {
    hide Legal;
    hide TargetNodeName;
    LawfulMore(log, Stored(n, inst));
    hide Lawful;
    hide After;
  }

  lemma MadePinned(ds: DaemonSet, v: Name, inst: Instance)
    requires Made(ds, v, inst) && Runnable(ds, v)
    ensures Pinned(inst) && LiveOn(inst, v)
  {
    assert inst.affinity == Some(Pin(ds.template.affinity, v));
    PinnedTarget(inst, ds.template.affinity, v);
  }

  lemma CreateKeepsInv(s: State, n: Name, inst: Instance, s': State)
    requires Inv(s) && Next(s, CreateOk(n, inst), s')
    ensures Inv(s')
  {
    hide X.CreateSeen;
    hide AtMostOne;
    hide Unseen;
    hide StoredAt;
    hide After;
    hide Lawful;
    hide NoneOn;
    hide Pinned;
    hide LiveOn;
    hide Made;
    var v := s.pending[n];
    MadePinned(s.ds, v, inst);
    MadeNotDeleting(s.ds, v, inst);
    CreateKeepsServer(s.log, n, inst, v);
    CreateKeepsExpected(s, n, inst, s');
    forall m ensures Unseen(s'.log, s'.seen, m) <==> Unseen(s.log, s.seen, m) || m == n {
      UnseenMore(s.log, Stored(n, inst), s.seen, m);
    }
  }

  lemma MadeNotDeleting(ds: DaemonSet, v: Name, inst: Instance)
    requires Made(ds, v, inst)
    ensures !inst.deleting
  {
  }

  lemma CreateKeepsExpected(s: State, n: Name, inst: Instance, s': State)
    requires s.seen <= |s.log| && UnseenExpected(s) && n in s.exp.create && !Unseen(s.log, s.seen, n)
    requires s'.log == s.log + [Stored(n, inst)] && s'.seen == s.seen && s'.exp.create == s.exp.create
    ensures UnseenExpected(s')
  {
    hide StoredAt;
    hide Unseen;
    forall m ensures Unseen(s'.log, s'.seen, m) <==> Unseen(s.log, s.seen, m) || m == n {
      UnseenMore(s.log, Stored(n, inst), s.seen, m);
    }
    forall i, m ensures StoredAt(s'.log, i, m) <==> StoredAt(s.log, i, m) || (i == |s.log| && m == n) {
      StoredAtMore(s.log, Stored(n, inst), i, m);
    }
    forall i | s.seen <= i ensures !StoredAt(s.log, i, n) {
      NotStored(s.log, s.seen, i, n);
    }
  }

  lemma NotStored(log: seq<Record>, seen: nat, i: int, n: Name)
    requires !Unseen(log, seen, n) && seen <= i
    ensures !StoredAt(log, i, n)
  {
  }

  // ---- Planning ----

  /**
   * A node without live instance in the view is really empty if and only if no live instance the view has
   * not seen created targets it.
   */
  lemma EmptyIff(log: seq<Record>, seen: nat, v: Name)
    requires Lawful(log) && seen <= |log|
    requires forall x | x in After(log[..seen]).Values :: !LiveOn(x, v)
    ensures NoneOn(After(log), v) <==> forall n | n in After(log) && Unseen(log, seen, n) :: !LiveOn(After(log)[n], v)
  {
    hide LiveOn;
    hide Unseen;
    hide Lawful;
    if forall n | n in After(log) && Unseen(log, seen, n) :: !LiveOn(After(log)[n], v) {
      forall n | n in After(log) ensures !LiveOn(After(log)[n], v) {
        if LiveOn(After(log)[n], v) {
          SeenLive(log, seen, n, v);
          assert false;
        }
      }
    }
  }

  lemma StartKeepsInv(s: State, e: Event, s': State)
    requires Inv(s) && e.StartSync? && Next(s, e, s')
    ensures Inv(s')
  {
    hide AtMostOne;
    hide Unseen;
    hide StoredAt;
    hide After;
    hide Lawful;
    hide NoneOn;
    hide LiveOn;
    hide DistinctNodes;
    assert forall n :: !Unseen(s.log, s.seen, n);
    forall n | n in s'.pending
      ensures NoneOn(After(s.log), s'.pending[n])
      ensures Runnable(s'.ds, s'.pending[n])
    {
      var i :| 0 <= i < |e.names| && e.names[i] == n;
      assert e.needs[i] in e.needs;
      NeededRuns(e.nodes, e.ds, e.needs[i]);
      EmptyIff(s.log, s.seen, e.needs[i]);
    }
    DifferentNodes(s'.pending, e.names, e.needs);
  }

  lemma NeededRuns(nodes: seq<Node>, ds: DaemonSet, v: Name)
    requires Runs(nodes, ds, v)
    ensures Runnable(ds, v)
  {
    var i :| 0 <= i < |nodes| && nodes[i].name == v && ShouldRun(nodes[i], ds);
    assert ShouldRun(Node(v, nodes[i].labels), ds);
  }

  lemma DifferentNodes(pending: map<Name, Name>, names: seq<Name>, needs: seq<Name>)
    requires Paired(pending, names, needs) && NoDup(needs)
    ensures forall m, n | m in pending && n in pending && pending[m] == pending[n] :: m == n
  {
    forall m, n | m in pending && n in pending && pending[m] == pending[n] ensures m == n {
      var i :| 0 <= i < |names| && names[i] == m;
      var j :| 0 <= j < |names| && names[j] == n;
    }
  }

  // ---- Moving the view ----

  lemma UnseenLater(log: seq<Record>, seen: nat, to: nat, n: Name)
    requires seen <= to
    ensures Unseen(log, to, n) ==> Unseen(log, seen, n)
  {
  }

  /** A creation reported by the view lies behind it, and there is no other one ahead. */
  lemma ReportedSeen(s: State, to: nat, n: Name)
    requires UnseenExpected(s) && s.seen <= to <= |s.log|
    requires n !in After(s.log[..s.seen]) && n in After(s.log[..to])
    ensures Unseen(s.log, s.seen, n) && !Unseen(s.log, to, n)
  {
    hide After;
    var front := s.log[..to];
    assert front[..s.seen] == s.log[..s.seen];
    Appeared(front, s.seen, n);
    var i :| s.seen <= i && StoredAt(front, i, n);
    assert StoredAt(s.log, i, n);
    forall j | to <= j ensures !StoredAt(s.log, j, n) {
    }
  }

  lemma AdvanceKeepsInv(s: State, to: nat, notes: seq<Note>, s': State)
    requires Inv(s) && Next(s, Advance(to, notes), s')
    ensures Inv(s')
  {
    hide AtMostOne;
    hide Unseen;
    hide StoredAt;
    hide After;
    hide Lawful;
    hide NoneOn;
    forall n ensures Unseen(s.log, to, n) ==> Unseen(s.log, s.seen, n) {
      UnseenLater(s.log, s.seen, to, n);
    }
    forall i | 0 <= i < |notes| && notes[i].Added?
      ensures Unseen(s.log, s.seen, notes[i].name) && !Unseen(s.log, to, notes[i].name)
    {
      ReportedSeen(s, to, notes[i].name);
    }
    NotesMore(s, to, notes, s');
  }

  lemma NotesMore(s: State, to: nat, notes: seq<Note>, s': State)
    requires NotesPending(s) && PendingNodes(s) && PendingNames(s) && UnseenExpected(s) && s'.notes == s.notes + notes
    requires s'.exp.create == s.exp.create && s'.pending == s.pending && s'.log == s.log && s'.seen == to
    requires forall n :: Unseen(s.log, to, n) ==> Unseen(s.log, s.seen, n)
    requires forall i | 0 <= i < |notes| && notes[i].Added? :: Unseen(s.log, s.seen, notes[i].name) && !Unseen(s.log, to, notes[i].name)
    requires forall i, j | 0 <= i < j < |notes| && notes[i].Added? && notes[j].Added? :: notes[i].name != notes[j].name
    ensures NotesPending(s')
  {
    hide Unseen;
    hide StoredAt;
    hide NoneOn;
    hide After;
    forall i | 0 <= i < |s'.notes| ensures s'.notes[i] == if i < |s.notes| then s.notes[i] else notes[i - |s.notes|] {
    }
    forall i | 0 <= i < |s'.notes| && Fresh(s'.notes[i])
      ensures s'.notes[i].name in s'.exp.create && s'.notes[i].name !in s'.pending && !Unseen(s'.log, to, s'.notes[i].name)
    {
    }
  }

  lemma HandleKeepsInv(s: State, s': State)
    requires Inv(s) && Next(s, Handle, s')
    ensures Inv(s')
  {
    hide AtMostOne;
    hide Unseen;
    hide StoredAt;
    hide After;
    hide Lawful;
    hide NoneOn;
    var note := s.notes[0];
    forall i | 0 <= i < |s'.notes| ensures s'.notes[i] == s.notes[i + 1] {
    }
    assert Fresh(note) ==> note.name !in s.pending && !Unseen(s.log, s.seen, note.name);
  }

  // ---- All steps ----

  /** With the name still expected, a lost reply makes no difference. */
  lemma LostIsCreated(s: State, n: Name, inst: Instance, s': State)
    ensures Next(s, CreateLost(n, inst, true), s') <==> Next(s, CreateOk(n, inst), s')
  {
  }

  lemma FailKeepsInv(s: State, e: Event, s': State)
    requires Inv(s) && (e.CreateFail? || e.DeleteFail?) && Next(s, e, s')
    ensures Inv(s')
  {
    hide AtMostOne;
    hide Unseen;
    hide StoredAt;
    hide After;
    hide Lawful;
    hide NoneOn;
  }

  lemma NextKeepsInv(s: State, e: Event, s': State)
    requires Inv(s) && Next(s, e, s') && !Loses(e)
    ensures Inv(s')
  {
    hide AtMostOne;
    hide Unseen;
    hide StoredAt;
    hide After;
    hide Lawful;
    hide NoneOn;
    hide Planned;
    hide Reports;
    hide Discharge;
    match e {
      case StartSync(_, _, _, _, _, _) => StartKeepsInv(s, e, s');
      case CreateOk(n, inst) => CreateKeepsInv(s, n, inst, s');
      case CreateLost(n, inst, _) =>
        LostIsCreated(s, n, inst, s');
        CreateKeepsInv(s, n, inst, s');
      case CreateFail(_) => FailKeepsInv(s, e, s');
      case DeleteFail => FailKeepsInv(s, e, s');
      case DeleteOk(removed) => ShrinkKeepsInv(s, if removed then Removed(s.doomed[0]) else Marked(s.doomed[0]), s');
      case Outside(r) => ShrinkKeepsInv(s, r, s');
      case Advance(to, notes) => AdvanceKeepsInv(s, to, notes, s');
      case Handle => HandleKeepsInv(s, s');
      case _ =>
    }
  }

  /**
   * However far the view and the handlers lag, the server never holds two live instances of the DaemonSet
   * with the same target node, in any state of any run in which no stored create stops being expected.
   */
  lemma {:induction false} NeverTwo(states: seq<State>, events: seq<Event>, i: nat)
    requires IsRun(states, events) && i < |states| && forall j | 0 <= j < |events| :: !Loses(events[j])
    ensures Inv(states[i]) && AtMostOne(After(states[i].log))
  {
    hide Next;
    hide Loses;
    hide AtMostOne;
    if i > 0 {
      NeverTwo(states, events, i - 1);
      NextKeepsInv(states[i - 1], events[i - 1], states[i]);
    } else {
      NothingUnseen(states[0]);
    }
  }

  lemma NothingUnseen(s: State)
    requires Initial(s)
    ensures Inv(s)
  {
    hide AtMostOne;
    hide Lawful;
    hide After;
  }

  // ---- Continuations ----

  /** One more step; without a lost reply, unless `lossy`. */
  ghost predicate Move(s: State, s': State, lossy: bool := false) {
    exists e :: (lossy || !Loses(e)) && Next(s, e, s')
  }

  ghost predicate Path(p: seq<State>, lossy: bool := false) {
    p != [] && forall i | 0 <= i < |p| - 1 :: Move(p[i], p[i + 1], lossy)
  }

  lemma PathMore(p: seq<State>, e: Event, s': State, lossy: bool := false)
    requires Path(p, lossy) && (lossy || !Loses(e)) && Next(p[|p| - 1], e, s')
    ensures Path(p + [s'], lossy)
  {
    hide Next;
    hide Loses;
    var q := p + [s'];
    forall i | 0 <= i < |q| - 1 ensures Move(q[i], q[i + 1], lossy) {
      if i < |p| - 1 {
        assert Move(p[i], p[i + 1], lossy);
      }
    }
  }

  /** The path leads from `s` to `t`. */
  ghost predicate Leads(p: seq<State>, s: State, t: State, lossy: bool := false) {
    Path(p, lossy) && p[0] == s && p[|p| - 1] == t
  }

  lemma LeadsMore(p: seq<State>, s: State, t: State, e: Event, u: State, lossy: bool := false)
    requires Leads(p, s, t, lossy) && (lossy || !Loses(e)) && Next(t, e, u)
    ensures Leads(p + [u], s, u, lossy)
  {
    hide Next;
    hide Loses;
    PathMore(p, e, u, lossy);
  }
}
