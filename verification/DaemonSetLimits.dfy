/**
 * What a lost reply does: syncNodes of internal/controllers/daemonset_controller.go stops expecting a name
 * when its create reports an error, even if the server stored the instance. From such a state on, two live
 * instances can meet on a node exactly when everything else that is expected can still be discharged.
 */
module DaemonSetLimits {
  import opened Core
  import opened Cluster
  import opened NodeAffinity
  import opened Sorting
  import opened DaemonSetPlan
  import opened DaemonSetRuns
  import X = Expectations

  /** The creation will be reported, or the report is waiting to be handled, or the call is still to be made. */
  ghost predicate Dischargeable(s: State, n: Name) {
    n in s.pending || Unseen(s.log, s.seen, n) || Waiting(s.notes, n)
  }

  ghost predicate Waiting(notes: seq<Note>, n: Name) {
    exists i :: 0 <= i < |notes| && notes[i] == Added(n, false)
  }

  // ---- A name that is never discharged blocks every further plan ----

  ghost predicate Stuck(s: State, n: Name) {
    n in s.exp.create && !Dischargeable(s, n)
  }

  ghost predicate Blocked(s: State, n: Name) {
    && s.seen <= |s.log| && Lawful(s.log) && AtMostOne(After(s.log)) && PendingNodes(s)
    && !s.phase.Checked? && Stuck(s, n)
  }

  lemma StuckMore(s: State, s': State, r: Record, n: Name)
    requires Stuck(s, n) && s.seen <= |s.log| && s'.log == s.log + [r] && !(r.Stored? && r.name == n) && s'.seen == s.seen
    requires s'.notes == s.notes && s'.exp.create == s.exp.create && forall m | m in s'.pending :: m in s.pending
    ensures Stuck(s', n)
  {
    UnseenMore(s.log, r, s.seen, n);
    hide Unseen;
  }

  lemma BlockedShrinks(s: State, r: Record, s': State, n: Name)
    requires Blocked(s, n) && Legal(After(s.log), r) && !r.Stored?
    requires s'.log == s.log + [r] && s'.seen == s.seen && s'.notes == s.notes && s'.exp == s.exp
    requires s'.phase == s.phase && s'.pending == s.pending && s'.ds == s.ds
    ensures Blocked(s', n)
  {
    hide Legal;
    hide AtMostOne;
    hide Lawful;
    hide After;
    hide NoneOn;
    hide Stuck;
    ShrinkKeepsServer(s.log, r);
    StuckMore(s, s', r, n);
  }

  lemma BlockedCreates(s: State, m: Name, inst: Instance, s': State, n: Name)
    requires Blocked(s, n) && Next(s, CreateOk(m, inst), s')
    ensures Blocked(s', n)
  {
    hide AtMostOne;
    hide Lawful;
    hide After;
    hide NoneOn;
    hide Made;
    hide Pinned;
    hide LiveOn;
    MadePinned(s.ds, s.pending[m], inst);
    MadeNotDeleting(s.ds, s.pending[m], inst);
    CreateKeepsServer(s.log, m, inst, s.pending[m]);
    assert m != n;
    StuckMore(s, s', Stored(m, inst), n);
    hide Stuck;
  }

  lemma StuckAdvances(s: State, to: nat, notes: seq<Note>, s': State, n: Name)
    requires Stuck(s, n) && s.seen <= |s.log| && Next(s, Advance(to, notes), s')
    ensures Stuck(s', n)
  {
    UnseenLater(s.log, s.seen, to, n);
    if i :| 0 <= i < |notes| && notes[i] == Added(n, false) {
      var front := s.log[..to];
      assert front[..s.seen] == s.log[..s.seen];
      Appeared(front, s.seen, n);
      var k :| s.seen <= k && StoredAt(front, k, n);
      assert StoredAt(s.log, k, n);
      assert false;
    }
  }

  lemma StuckHandles(s: State, s': State, n: Name)
    requires Stuck(s, n) && Next(s, Handle, s')
    ensures Stuck(s', n)
  {
    hide Unseen;
    assert s.notes[0] != Added(n, false);
  }

  lemma BlockedStep(s: State, e: Event, s': State, n: Name)
    requires Blocked(s, n) && Next(s, e, s') && !Loses(e)
    ensures Blocked(s', n)
  {
    hide AtMostOne;
    hide Lawful;
    hide After;
    hide NoneOn;
    hide Unseen;
    hide Reports;
    hide Discharge;
    match e {
      case CreateOk(m, inst) => BlockedCreates(s, m, inst, s', n);
      case CreateLost(m, inst, _) =>
        LostIsCreated(s, m, inst, s');
        BlockedCreates(s, m, inst, s', n);
      case DeleteOk(removed) => BlockedShrinks(s, if removed then Removed(s.doomed[0]) else Marked(s.doomed[0]), s', n);
      case Outside(r) => BlockedShrinks(s, r, s', n);
      case Advance(to, notes) => StuckAdvances(s, to, notes, s', n);
      case Handle => StuckHandles(s, s', n);
      case _ =>
    }
  }

  lemma {:induction false} BlockedPath(p: seq<State>, n: Name, i: nat)
    requires Path(p) && Blocked(p[0], n) && i < |p|
    ensures Blocked(p[i], n)
  {
    hide Next;
    hide Loses;
    hide Blocked;
    if i > 0 {
      BlockedPath(p, n, i - 1);
      assert Move(p[i - 1], p[i]);
      var e :| !Loses(e) && Next(p[i - 1], e, p[i]);
      BlockedStep(p[i - 1], e, p[i], n);
    }
  }

  // ---- Otherwise the controller can plan again before it sees the lost instance ----

  /** Every create that is left may fail. */
  lemma {:induction false} FailCreates(p: seq<State>, s: State, t: State) returns (q: seq<State>, u: State)
    requires Leads(p, s, t) && t.phase.Syncing?
    ensures Leads(q, s, u) && u == t.(pending := map[], exp := X.Expectation(t.exp.create - t.pending.Keys, t.exp.delete))
    decreases t.pending.Keys
  {
    hide Leads;
    if t.pending == map[] {
      q, u := p, t;
      assert t.exp.create - t.pending.Keys == t.exp.create;
    } else {
      assert t.pending.Keys != {};
      var n :| n in t.pending;
      var t' := t.(pending := t.pending - {n}, exp := X.CreateSeen(t.exp, n));
      assert Next(t, CreateFail(n), t');
      LeadsMore(p, s, t, CreateFail(n), t');
      assert n !in t'.pending.Keys;
      q, u := FailCreates(p + [t'], s, t');
      assert t.exp.create - {n} - (t.pending - {n}).Keys == t.exp.create - t.pending.Keys;
    }
  }

  /** So may every delete. */
  lemma {:induction false} FailDeletes(p: seq<State>, s: State, t: State) returns (q: seq<State>, u: State)
    requires Leads(p, s, t) && t.phase.Syncing? && t.pending == map[]
    ensures Leads(q, s, u) && u == t.(doomed := [], exp := X.Expectation(t.exp.create, u.exp.delete))
    ensures forall d | d in u.exp.delete :: d in t.exp.delete && d !in t.doomed
    decreases |t.doomed|
  {
    hide Leads;
    if t.doomed == [] {
      q, u := p, t;
    } else {
      var t' := t.(doomed := t.doomed[1..], exp := X.DeleteSeen(t.exp, t.doomed[0]));
      assert Next(t, DeleteFail, t');
      LeadsMore(p, s, t, DeleteFail, t');
      q, u := FailDeletes(p + [t'], s, t');
    }
  }

  /** Every expected creation lies between the view and `end`, or its report is waiting. */
  ghost predicate Due(s: State, end: nat) {
    && (forall n | n in s.exp.create :: CreatedBefore(s.log, s.seen, end, n) || Waiting(s.notes, n))
    && s.exp.delete == {}
  }

  ghost predicate CreatedBefore(log: seq<Record>, seen: nat, end: nat, n: Name) {
    exists i :: seen <= i < end && StoredAt(log, i, n)
  }

  lemma DueHandled(t: State, end: nat)
    requires Due(t, end) && t.notes != []
    ensures Due(t.(notes := t.notes[1..], exp := Discharge(t.exp, t.notes[0])), end)
  {
    hide CreatedBefore;
    var t' := t.(notes := t.notes[1..], exp := Discharge(t.exp, t.notes[0]));
    forall n | n in t'.exp.create && Waiting(t.notes, n) ensures Waiting(t'.notes, n) {
      var i :| 0 <= i < |t.notes| && t.notes[i] == Added(n, false);
      assert i > 0;
      assert t'.notes[i - 1] == Added(n, false);
    }
  }

  lemma {:induction false} HandleAll(p: seq<State>, s: State, t: State, end: nat) returns (q: seq<State>, u: State)
    requires Leads(p, s, t) && Due(t, end)
    ensures Leads(q, s, u) && Due(u, end) && u.notes == [] && u == t.(notes := [], exp := u.exp)
    decreases |t.notes|
  {
    hide Leads;
    hide Due;
    hide Discharge;
    if t.notes == [] {
      q, u := p, t;
    } else {
      var t' := t.(notes := t.notes[1..], exp := Discharge(t.exp, t.notes[0]));
      DueHandled(t, end);
      assert Next(t, Handle, t');
      LeadsMore(p, s, t, Handle, t');
      q, u := HandleAll(p + [t'], s, t', end);
    }
  }

  function ReportOf(r: Record): seq<Note> {
    if r.Stored? then [Added(r.name, false)] else []
  }

  lemma ReportsOne(log: seq<Record>, i: nat)
    requires Lawful(log) && i < |log|
    ensures Reports(ReportOf(log[i]), After(log[..i]), After(log[..i + 1]))
  {
    AfterOne(log, i);
    assert Legal(After(log[..i]), log[i]);
    hide Lawful;
    hide After;
  }

  lemma DueAdvanced(t: State, end: nat)
    requires Due(t, end) && t.notes == [] && t.seen < end <= |t.log|
    ensures Due(t.(seen := t.seen + 1, notes := ReportOf(t.log[t.seen])), end)
  {
    var t' := t.(seen := t.seen + 1, notes := ReportOf(t.log[t.seen]));
    forall n | n in t'.exp.create ensures CreatedBefore(t'.log, t'.seen, end, n) || Waiting(t'.notes, n) {
      assert !Waiting(t.notes, n);
      var i :| t.seen <= i < end && StoredAt(t.log, i, n);
      if i == t.seen {
        assert t'.notes[0] == Added(n, false);
      } else {
        assert t'.seen <= i;
      }
    }
  }

  /** The view moves past one change and reports it. */
  lemma AdvanceOne(t: State, end: nat) returns (notes: seq<Note>, t': State)
    requires Due(t, end) && t.notes == [] && t.seen < end <= |t.log| && Lawful(t.log)
    ensures Next(t, Advance(t.seen + 1, notes), t') && Due(t', end) && t' == t.(seen := t.seen + 1, notes := notes)
  {
    hide Lawful;
    hide After;
    hide Due;
    hide Reports;
    notes := ReportOf(t.log[t.seen]);
    t' := t.(seen := t.seen + 1, notes := notes);
    ReportsOne(t.log, t.seen);
    DueAdvanced(t, end);
    assert t.notes + notes == notes;
  }

  lemma AfterOne(log: seq<Record>, i: nat)
    requires i < |log|
    ensures After(log[..i + 1]) == Apply(After(log[..i]), log[i])
  {
    assert log[..i + 1][..i] == log[..i];
  }

  /** Up to `end`, everything expected is reported and handled. */
  lemma {:induction false} Drain(p: seq<State>, s: State, t: State, end: nat) returns (q: seq<State>, u: State)
    requires Leads(p, s, t) && Due(t, end) && t.seen <= end <= |t.log| && Lawful(t.log)
    ensures Leads(q, s, u) && u == t.(seen := end, notes := [], exp := X.NOTHING)
    decreases end - t.seen
  {
    hide Leads;
    hide Lawful;
    var q1, t1 := HandleAll(p, s, t, end);
    if t.seen == end {
      NothingDue(t1, end);
      q, u := q1, t1;
    } else {
      var notes, t2 := AdvanceOne(t1, end);
      LeadsMore(q1, s, t1, Advance(t1.seen + 1, notes), t2);
      q, u := Drain(q1 + [t2], s, t2, end);
    }
  }

  lemma NothingDue(t: State, end: nat)
    requires Due(t, end) && t.notes == [] && t.seen == end
    ensures t.exp == X.NOTHING
  {
    assert t.exp.create == {};
  }

  // ---- Planning on the view just before the lost instance ----

  /** A single node that should run the DaemonSet and has no live instance needs one, whatever else there is. */
  lemma PlanForOne(insts: set<Instance>, ds: DaemonSet, node: Node) returns (deletes: seq<Name>)
    requires ShouldRun(node, ds) && forall x | x in insts :: !LiveOn(x, node.name)
    ensures DistinctNodes([node]) && Planned([node], insts, ds, [node.name], deletes, map[])
  {
    hide TargetNodeName;
    hide ShouldRun;
    var nodes := [node];
    assert nodes[0] == node;
    assert forall w :: Runs(nodes, ds, w) <==> w == node.name;
    hide Runs;
    hide Known;
    var none: map<Name, Instance> := map[];
    deletes := ListOf(set x | x in insts && Doomed(nodes, ds, none, x) :: x.name);
  }

  /** Idle, nothing expected, and a node empty in the view: it gets an instance of the same DaemonSet. */
  lemma PlansAgain(p: seq<State>, s: State, t: State, node: Node, n: Name, inst: Instance) returns (q: seq<State>, u: State)
    requires Leads(p, s, t) && t.phase.Idle? && t.exp == X.NOTHING && t.pending == map[] && t.seen <= |t.log|
    requires ShouldRun(node, t.ds) && forall x | x in After(t.log[..t.seen]).Values :: !LiveOn(x, node.name)
    requires n !in After(t.log) && inst == NewInstance(t.ds, node.name, n, t.ds.template.labels, n, 0)
    ensures Leads(q, s, u) && u.log == t.log + [Stored(n, inst)] && u.ds == t.ds
  {
    hide Leads;
    hide Planned;
    hide DistinctNodes;
    hide LiveOn;
    hide After;
    hide ShouldRun;
    var t1 := t.(phase := Checked);
    LeadsMore(p, s, t, Check, t1);
    var deletes := PlanForOne(After(t.log[..t.seen]).Values, t.ds, node);
    var pending := map[n := node.name];
    var t2 := t1.(phase := Syncing, pending := pending, doomed := deletes, exp := X.Expectation(pending.Keys, set d | d in deletes));
    var e := StartSync([node], t.ds, [node.name], deletes, map[], [n]);
    assert Paired(pending, [n], [node.name]);
    assert Next(t1, e, t2);
    LeadsMore(p + [t1], s, t1, e, t2);
    u := t2.(log := t.log + [Stored(n, inst)], pending := pending - {n});
    assert Next(t2, CreateOk(n, inst), u);
    LeadsMore(p + [t1] + [t2], s, t2, CreateOk(n, inst), u);
    q := p + [t1] + [t2] + [u];
  }

  // ---- The exact condition ----

  lemma InvServer(s: State)
    requires Inv(s)
    ensures s.seen <= |s.log| && Lawful(s.log) && AtMostOne(After(s.log)) && PendingNodes(s)
    ensures s.pending != map[] ==> forall d | d in s.exp.delete :: d in s.doomed
    ensures forall n | n in s.pending :: NoneOn(After(s.log), s.pending[n]) && Runnable(s.ds, s.pending[n])
  {
    hide Lawful;
    hide AtMostOne;
    hide After;
    hide NoneOn;
    hide Runnable;
    hide Unseen;
  }

  /** Apart from the expectation, a lost create does what a create does. */
  lemma LostParts(s: State, n: Name, inst: Instance, t: State)
    requires Next(s, CreateLost(n, inst, false), t)
    ensures n in s.pending && n !in After(s.log) && inst.name == n && Made(s.ds, s.pending[n], inst)
    ensures t.log == s.log + [Stored(n, inst)] && t.seen == s.seen && t.ds == s.ds && t.doomed == s.doomed && t.pending == s.pending - {n}
    ensures t.exp.delete == s.exp.delete && Next(s, CreateOk(n, inst), t.(exp := s.exp))
  {
    hide After;
    hide Made;
  }

  lemma LostServer(s: State, n: Name, inst: Instance, t: State)
    requires Inv(s) && Next(s, CreateLost(n, inst, false), t)
    ensures t.seen <= |s.log| && t.log == s.log + [Stored(n, inst)] && Lawful(s.log) && Lawful(t.log) && AtMostOne(After(t.log)) && PendingNodes(t)
    ensures NoneOn(After(s.log), s.pending[n]) && LiveOn(inst, s.pending[n]) && Runnable(s.ds, s.pending[n]) && t.ds == s.ds
    ensures After(t.log) == After(s.log)[n := inst] && n !in After(s.log)
    ensures forall d | d in t.exp.delete :: d in t.doomed
  {
    hide *;
    LostParts(s, n, inst, t);
    InvServer(s);
    var t0 := t.(exp := s.exp);
    CreateKeepsInv(s, n, inst, t0);
    InvServer(t0);
    SamePending(t0, t);
    MadePinned(s.ds, s.pending[n], inst);
    MadeNotDeleting(s.ds, s.pending[n], inst);
    StoredAfter(s.log, n, inst);
  }

  lemma SamePending(s: State, t: State)
    requires PendingNodes(s) && t.log == s.log && t.pending == s.pending && t.ds == s.ds
    ensures PendingNodes(t)
  {
    hide NoneOn;
    hide Runnable;
    hide After;
  }

  lemma StoredAfter(log: seq<Record>, n: Name, inst: Instance)
    requires Lawful(log) && n !in After(log) && inst.name == n && !inst.deleting && Pinned(inst)
    ensures Lawful(log + [Stored(n, inst)]) && After(log + [Stored(n, inst)]) == After(log)[n := inst]
  {
    hide Lawful;
    hide Pinned;
    LawfulMore(log, Stored(n, inst));
    hide After;
  }

  lemma DueAfterFailures(s: State, n: Name, inst: Instance, t: State, u: State)
    requires t.log == s.log + [Stored(n, inst)] && u.log == t.log && u.seen == t.seen && u.notes == t.notes && n !in t.exp.create
    requires forall m | m in t.exp.create :: Dischargeable(t, m)
    requires u.exp.create == t.exp.create - t.pending.Keys && u.exp.delete == {}
    ensures Due(u, |s.log|)
  {
    hide Waiting;
    forall m | m in u.exp.create ensures CreatedBefore(u.log, u.seen, |s.log|, m) || Waiting(u.notes, m) {
      assert Dischargeable(t, m);
      if Unseen(t.log, t.seen, m) {
        var i :| t.seen <= i && StoredAt(t.log, i, m);
        assert i < |s.log|;
      }
    }
  }

  lemma TwoLive(log: seq<Record>, objs: Objects, n: Name, x: Instance, m: Name, y: Instance, v: Name)
    requires After(log) == objs && n in objs && objs[n] == x && m !in objs && LiveOn(x, v) && LiveOn(y, v)
    ensures !AtMostOne(After(log + [Stored(m, y)]))
  {
    hide LiveOn;
    var more := log + [Stored(m, y)];
    assert more[..|log|] == log;
    var after := After(more);
    assert after == objs[m := y];
    assert LiveOn(after[n], v) && LiveOn(after[m], v);
  }

  /**
   * After a lost reply, if everything still expected can be discharged, the controller plans again, for the
   * same DaemonSet, before it sees the stored instance, and a second live instance joins it.
   */
  lemma LostReplyBreaks(s: State, n: Name, inst: Instance, t: State) returns (q: seq<State>)
    requires Inv(s) && Next(s, CreateLost(n, inst, false), t) && forall m | m in t.exp.create :: Dischargeable(t, m)
    ensures Path(q) && q[0] == t && q[|q| - 1].ds == s.ds && !AtMostOne(After(q[|q| - 1].log))
  {
    LostServer(s, n, inst, t);
    assert n !in t.exp.create && t.phase.Syncing?;
    hide Inv;
    hide Next;
    hide Lawful;
    hide AtMostOne;
    hide Dischargeable;
    hide LiveOn;
    hide Made;
    hide After;
    hide ShouldRun;
    var v := s.pending[n];
    assert Leads([t], t, t);
    var q1, t1 := FailCreates([t], t, t);
    var q2, t2 := FailDeletes(q1, t, t1);
    var t3 := t2.(phase := Idle);
    EndsSync(t2, t3);
    LeadsMore(q2, t, t2, EndSync, t3);
    assert t2.exp.delete == {};
    DueAfterFailures(s, n, inst, t, t3);
    var q4, t4 := Drain(q2 + [t3], t, t3, |s.log|);
    assert t4.log[..t4.seen] == s.log;
    var m := UpperBound(After(t.log).Keys);
    var labels :| ShouldRun(Node(v, labels), s.ds);
    var other := NewInstance(s.ds, v, m, s.ds.template.labels, m, 0);
    OtherLive(s.ds, v, other);
    NoneInView(s.log, v);
    var q5, u := PlansAgain(q4, t, t4, Node(v, labels), m, other);
    TwoLive(t.log, After(t.log), n, inst, m, other, v);
    q := q5;
  }

  lemma EndsSync(t: State, u: State)
    requires t.phase.Syncing? && t.pending == map[] && t.doomed == [] && u == t.(phase := Idle)
    ensures Next(t, EndSync, u)
  {
  }

  lemma OtherLive(ds: DaemonSet, v: Name, inst: Instance)
    requires Runnable(ds, v) && inst == NewInstance(ds, v, inst.name, inst.labels, inst.uid, 0)
    ensures LiveOn(inst, v)
  {
    MadePinned(ds, v, inst);
  }

  lemma NoneInView(log: seq<Record>, v: Name)
    requires NoneOn(After(log), v)
    ensures forall x | x in After(log).Values :: !LiveOn(x, v)
  {
  }

  /**
   * The exact condition, for every state that satisfies the invariant: after a lost reply some continuation
   * reaches two live instances on one node if and only if everything still expected can be discharged. If
   * one name cannot, the controller never plans again.
   */
  lemma LostReplyIff(s: State, n: Name, inst: Instance, t: State)
    requires Inv(s) && Next(s, CreateLost(n, inst, false), t)
    ensures (exists q: seq<State> :: Path(q) && q[0] == t && q[|q| - 1].ds == s.ds && !AtMostOne(After(q[|q| - 1].log)))
       <==> forall m | m in t.exp.create :: Dischargeable(t, m)
  {
    LostServer(s, n, inst, t);
    assert t.phase.Syncing?;
    hide Next;
    hide Lawful;
    hide AtMostOne;
    hide Dischargeable;
    hide PendingNodes;
    hide LiveOn;
    hide After;
    if forall m | m in t.exp.create :: Dischargeable(t, m) {
      var q := LostReplyBreaks(s, n, inst, t);
    } else {
      var m :| m in t.exp.create && !Dischargeable(t, m);
      assert Blocked(t, m);
      hide Stuck;
      forall q: seq<State> | Path(q) && q[0] == t ensures AtMostOne(After(q[|q| - 1].log)) {
        BlockedPath(q, m, |q| - 1);
      }
    }
  }
}
