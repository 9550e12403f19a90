/** One pass of a live controller: reconcile, manage and syncNodes of internal/controllers/daemonset_controller.go. */
module DaemonSetReconcile {
  import opened Core
  import opened Cluster
  import opened Sorting
  import opened DaemonSetPlan
  import opened DaemonSetRuns
  import opened DaemonSetConvergence
  import opened NodeAffinity
  import X = Expectations

  /**
   * What the server answers: to a create, the fields it fills in, or an error, or, having stored the
   * instance, an error all the same; to a delete, whether the object is gone at once.
   */
  datatype CreateReply = Accepted(labels: Labels, uid: UID, created: int) | Refused | Lost(labels: Labels, uid: UID, created: int)
  datatype DeleteReply = Deleted(removed: bool) | NotDeleted

  /** The instances of a view, in any order. */
  method ListObjects(objs: Objects) returns (insts: seq<Instance>)
    requires AllPinned(objs)
    ensures NoDup(insts) && Elements(insts) == objs.Values
  {
    hide Pinned;
    insts := [];
    var rest := objs.Keys;
    while rest != {}
      invariant rest <= objs.Keys && NoDup(insts)
      invariant forall x :: x in insts <==> exists n :: n in objs && n !in rest && objs[n] == x
    {
      var n :| n in rest;
      assert objs[n] !in insts;
      rest := rest - {n};
      insts := insts + [objs[n]];
    }
  }

  /** Exactly the names from `i` on are still to be created, each for its node. */
  ghost predicate Left(pending: map<Name, Name>, names: seq<Name>, needs: seq<Name>, i: nat) {
    && |names| == |needs| && NoDup(names) && i <= |names|
    && (forall n | n in pending :: exists j :: i <= j < |names| && names[j] == n)
    && (forall j | i <= j < |names| :: names[j] in pending && pending[names[j]] == needs[j])
  }

  lemma LeftOne(pending: map<Name, Name>, names: seq<Name>, needs: seq<Name>, i: nat)
    requires Left(pending, names, needs, i) && i < |names|
    ensures |names| == |needs| && names[i] in pending && pending[names[i]] == needs[i]
    ensures Left(pending - {names[i]}, names, needs, i + 1)
  {
  }

  lemma LeftNone(pending: map<Name, Name>, names: seq<Name>, needs: seq<Name>)
    requires Left(pending, names, needs, |names|)
    ensures pending == map[]
  {
  }

  lemma LeftAll(pending: map<Name, Name>, names: seq<Name>, needs: seq<Name>)
    requires |names| == |needs| && NoDup(names) && pending == PairUp(names, needs)
    ensures Paired(pending, names, needs) && Left(pending, names, needs, 0)
  {
  }

  ghost function PairUp(names: seq<Name>, needs: seq<Name>): map<Name, Name>
    requires |names| == |needs| && NoDup(names)
  {
    map n | n in names :: PairOf(names, needs, n)
  }

  ghost function PairOf(names: seq<Name>, needs: seq<Name>, n: Name): Name
    requires |names| == |needs| && NoDup(names) && n in names
  {
    var i :| 0 <= i < |names| && names[i] == n;
    needs[i]
  }

  ghost predicate SomeLost(replies: nat -> CreateReply) {
    exists i :: replies(i).Lost?
  }

  /** The server stores the instance. */
  predicate Stores(objs: Objects, name: Name, reply: CreateReply) {
    !reply.Refused? && name !in objs
  }

  function Created(ds: DaemonSet, node: Name, name: Name, reply: CreateReply): Instance
    requires !reply.Refused?
  {
    NewInstance(ds, node, name, reply.labels, reply.uid, reply.created)
  }

  /** Nothing changed under this name. */
  ghost predicate SameAt(objs: Objects, objs': Objects, n: Name) {
    (n in objs' <==> n in objs) && (n in objs ==> objs'[n] == objs[n])
  }

  /** What one create leaves under its name. */
  ghost predicate StoredAs(objs: Objects, objs': Objects, ds: DaemonSet, node: Name, name: Name, reply: CreateReply) {
    if Stores(objs, name, reply) then name in objs' && objs'[name] == Created(ds, node, name, reply) else SameAt(objs, objs', name)
  }

  /** The creates up to `i` stored what the server took, and nothing else. */
  ghost predicate CreatesStored(objs: Objects, objs': Objects, ds: DaemonSet, names: seq<Name>, needs: seq<Name>, replies: nat -> CreateReply, i: nat)
    requires i <= |names| == |needs|
  {
    && (forall n | n !in names[..i] :: SameAt(objs, objs', n))
    && (forall j: nat | j < i :: StoredAs(objs, objs', ds, needs[j], names[j], replies(j)))
  }

  /** Of the names up to `i`, those the server took and confirmed are still expected. */
  ghost predicate CreatesExpected(objs: Objects, exp: X.Expectation, exp': X.Expectation, names: seq<Name>, replies: nat -> CreateReply, i: nat)
    requires i <= |names|
  {
    && (forall n | n !in names[..i] :: n in exp'.create <==> n in exp.create)
    && (forall j: nat | j < i :: names[j] in exp'.create <==> names[j] in exp.create && replies(j).Accepted? && names[j] !in objs)
    && exp'.delete == exp.delete
  }

  ghost predicate CreatesDone(log: seq<Record>, log': seq<Record>, exp: X.Expectation, exp': X.Expectation, ds: DaemonSet,
                              names: seq<Name>, needs: seq<Name>, replies: nat -> CreateReply, i: nat)
    requires i <= |names| == |needs|
  {
    CreatesStored(After(log), After(log'), ds, names, needs, replies, i) && CreatesExpected(After(log), exp, exp', names, replies, i)
  }

  /** The first loop of syncNodes: a create that reports an error is no longer expected. */
  method SyncCreates(exps: X.Expectations, key: Name, log: seq<Record>, ds: DaemonSet, names: seq<Name>, needs: seq<Name>, replies: nat -> CreateReply,
                     ghost p: seq<State>, ghost s: State, ghost t: State)
    returns (log': seq<Record>, ghost q: seq<State>, ghost u: State)
    requires Leads(p, s, t, SomeLost(replies)) && t.phase.Syncing? && t.log == log && t.ds == ds && t.exp == X.Current(exps.entries, key)
    requires |names| == |needs| && Left(t.pending, names, needs, 0)
    modifies exps
    ensures Leads(q, s, u, SomeLost(replies)) && u == t.(log := log', pending := map[], exp := X.Current(exps.entries, key))
    ensures CreatesDone(log, log', t.exp, u.exp, ds, names, needs, replies, |names|)
    ensures exps.entries - {key} == old(exps.entries) - {key}
  {
    hide Leads;
    hide Left;
    hide After;
    hide Created;
    hide CreatesDone;
    ghost var lossy := SomeLost(replies);
    hide SomeLost;
    log', q, u := log, p, t;
    NothingCreated(log, t.exp, ds, names, needs, replies);
    LeftNames(t.pending, names, needs, 0);
    for i := 0 to |names|
      invariant Leads(q, s, u, lossy) && u == t.(log := log', pending := u.pending, exp := X.Current(exps.entries, key))
      invariant Left(u.pending, names, needs, i) && exps.entries - {key} == old(exps.entries) - {key}
      invariant CreatesDone(log, log', t.exp, u.exp, ds, names, needs, replies, i)
    {
      LeftOne(u.pending, names, needs, i);
      NotYetCreated(log, log', t.exp, u.exp, ds, names, needs, replies, i);
      ghost var before := u;
      if replies(i).Refused? || names[i] in After(log') {
        exps.CreationObserved(key, names[i]);
        u := u.(pending := u.pending - {names[i]}, exp := X.Current(exps.entries, key));
        assert Next(before, CreateFail(names[i]), u);
        LeadsMore(q, s, before, CreateFail(names[i]), u, lossy);
      } else {
        var inst := Created(ds, needs[i], names[i], replies(i));
        log' := log' + [Stored(names[i], inst)];
        if replies(i).Accepted? {
          u := u.(log := log', pending := u.pending - {names[i]});
          Accepts(before, names[i], needs[i], ds, replies(i), inst, u);
          LeadsMore(q, s, before, CreateOk(names[i], inst), u, lossy);
        } else {
          exps.CreationObserved(key, names[i]);
          u := u.(log := log', pending := u.pending - {names[i]}, exp := X.Current(exps.entries, key));
          LosesReply(before, names[i], needs[i], ds, replies(i), inst, u);
          Lossy(replies, i);
          LeadsMore(q, s, before, CreateLost(names[i], inst, false), u, lossy);
        }
      }
      CreatesMore(log, before, u, t.exp, ds, names, needs, replies, i);
      q := q + [u];
    }
    LeftNone(u.pending, names, needs);
  }

  lemma Lossy(replies: nat -> CreateReply, i: nat)
    requires replies(i).Lost?
    ensures SomeLost(replies)
  {
  }

  lemma LeftNames(pending: map<Name, Name>, names: seq<Name>, needs: seq<Name>, i: nat)
    requires Left(pending, names, needs, i)
    ensures NoDup(names)
  {
  }

  lemma NothingCreated(log: seq<Record>, exp: X.Expectation, ds: DaemonSet, names: seq<Name>, needs: seq<Name>, replies: nat -> CreateReply)
    requires |names| == |needs|
    ensures CreatesDone(log, log, exp, exp, ds, names, needs, replies, 0)
  {
    hide After;
  }

  lemma NotYetCreated(log: seq<Record>, log': seq<Record>, exp: X.Expectation, exp': X.Expectation, ds: DaemonSet,
                      names: seq<Name>, needs: seq<Name>, replies: nat -> CreateReply, i: nat)
    requires i < |names| == |needs| && NoDup(names) && CreatesDone(log, log', exp, exp', ds, names, needs, replies, i)
    ensures names[i] in After(log') <==> names[i] in After(log)
  {
    hide After;
    hide StoredAs;
    assert names[i] !in names[..i];
    assert SameAt(After(log), After(log'), names[i]);
  }

  lemma StoredIs(log: seq<Record>, n: Name, inst: Instance)
    ensures After(log + [Stored(n, inst)]) == After(log)[n := inst]
  {
    assert (log + [Stored(n, inst)])[..|log|] == log;
  }

  lemma StoredAsSame(objs: Objects, a: Objects, b: Objects, ds: DaemonSet, node: Name, name: Name, reply: CreateReply)
    requires StoredAs(objs, a, ds, node, name, reply) && SameAt(a, b, name)
    ensures StoredAs(objs, b, ds, node, name, reply)
  {
    hide Created;
  }

  lemma StoredMore(objs: Objects, a: Objects, b: Objects, ds: DaemonSet, names: seq<Name>, needs: seq<Name>, replies: nat -> CreateReply, i: nat)
    requires i < |names| == |needs| && NoDup(names) && CreatesStored(objs, a, ds, names, needs, replies, i)
    requires forall n | n != names[i] :: SameAt(a, b, n)
    requires StoredAs(objs, b, ds, needs[i], names[i], replies(i))
    ensures CreatesStored(objs, b, ds, names, needs, replies, i + 1)
  {
    hide StoredAs;
    assert names[..i + 1] == names[..i] + [names[i]];
    forall n | n !in names[..i + 1] ensures SameAt(objs, b, n) {
      assert SameAt(objs, a, n) && SameAt(a, b, n);
    }
    hide SameAt;
    forall j: nat | j < i + 1 ensures StoredAs(objs, b, ds, needs[j], names[j], replies(j)) {
      if j < i {
        StoredAsSame(objs, a, b, ds, needs[j], names[j], replies(j));
      }
    }
  }

  lemma ExpectedMore(objs: Objects, exp: X.Expectation, a: X.Expectation, b: X.Expectation, names: seq<Name>, replies: nat -> CreateReply, i: nat)
    requires i < |names| && NoDup(names) && CreatesExpected(objs, exp, a, names, replies, i)
    requires b == if names[i] !in objs && replies(i).Accepted? then a else X.CreateSeen(a, names[i])
    ensures CreatesExpected(objs, exp, b, names, replies, i + 1)
  {
    assert names[..i + 1] == names[..i] + [names[i]];
    assert names[i] !in names[..i];
    assert names[i] in a.create <==> names[i] in exp.create;
    forall j: nat | j < i ensures names[j] != names[i] {
    }
  }

  lemma StoredHere(log: seq<Record>, before: seq<Record>, after: seq<Record>, ds: DaemonSet, node: Name, name: Name, reply: CreateReply)
    requires SameAt(After(log), After(before), name)
    requires if Stores(After(log), name, reply) then after == before + [Stored(name, Created(ds, node, name, reply))] else after == before
    ensures StoredAs(After(log), After(after), ds, node, name, reply)
    ensures forall n | n != name :: SameAt(After(before), After(after), n)
  {
    if Stores(After(log), name, reply) {
      StoredIs(before, name, Created(ds, node, name, reply));
    }
    hide After;
    hide Created;
  }

  /** One create more. */
  lemma CreatesMore(log: seq<Record>, before: State, after: State, exp: X.Expectation, ds: DaemonSet,
                    names: seq<Name>, needs: seq<Name>, replies: nat -> CreateReply, i: nat)
    requires i < |names| == |needs| && NoDup(names) && CreatesDone(log, before.log, exp, before.exp, ds, names, needs, replies, i)
    requires if Stores(After(log), names[i], replies(i))
             then after.log == before.log + [Stored(names[i], Created(ds, needs[i], names[i], replies(i)))] else after.log == before.log
    requires after.exp == if names[i] !in After(log) && replies(i).Accepted? then before.exp else X.CreateSeen(before.exp, names[i])
    ensures CreatesDone(log, after.log, exp, after.exp, ds, names, needs, replies, i + 1)
  {
    hide After;
    hide Created;
    hide StoredAs;
    hide SameAt;
    assert names[i] !in names[..i];
    assert SameAt(After(log), After(before.log), names[i]);
    hide CreatesExpected;
    StoredHere(log, before.log, after.log, ds, needs[i], names[i], replies(i));
    StoredMore(After(log), After(before.log), After(after.log), ds, names, needs, replies, i);
    ExpectedMore(After(log), exp, before.exp, after.exp, names, replies, i);
  }

  lemma LosesReply(t: State, n: Name, v: Name, ds: DaemonSet, reply: CreateReply, inst: Instance, u: State)
    requires t.phase.Syncing? && t.ds == ds && n in t.pending && t.pending[n] == v && n !in After(t.log)
    requires reply.Lost? && inst == Created(ds, v, n, reply)
    requires u == t.(log := t.log + [Stored(n, inst)], pending := t.pending - {n}, exp := X.CreateSeen(t.exp, n))
    ensures Next(t, CreateLost(n, inst, false), u)
  {
  }

  lemma Accepts(t: State, n: Name, v: Name, ds: DaemonSet, reply: CreateReply, inst: Instance, u: State)
    requires t.phase.Syncing? && t.ds == ds && n in t.pending && t.pending[n] == v && n !in After(t.log)
    requires reply.Accepted? && inst == Created(ds, v, n, reply)
    requires u == t.(log := t.log + [Stored(n, inst)], pending := t.pending - {n})
    ensures Next(t, CreateOk(n, inst), u)
  {
  }

  /** What the deletes did: touched nothing but what they name; if all succeed at once, those are gone. */
  ghost predicate DeletesDone(log: seq<Record>, log': seq<Record>, deletes: seq<Name>, replies: nat -> DeleteReply) {
    && (forall n | n !in deletes :: SameAt(After(log), After(log'), n))
    && (AllDeleted(replies) ==> forall d | d in deletes :: d !in After(log'))
  }

  ghost predicate AllDeleted(replies: nat -> DeleteReply) {
    forall i: nat :: replies(i) == Deleted(true)
  }

  /** The second loop: a delete that is refused is no longer expected. */
  method SyncDeletes(exps: X.Expectations, key: Name, log: seq<Record>, deletes: seq<Name>, replies: nat -> DeleteReply,
                     ghost p: seq<State>, ghost s: State, ghost t: State, ghost lossy: bool)
    returns (log': seq<Record>, ghost q: seq<State>, ghost u: State)
    requires Leads(p, s, t, lossy) && t.phase.Syncing? && t.pending == map[] && t.doomed == deletes && t.log == log && t.exp == X.Current(exps.entries, key)
    modifies exps
    ensures Leads(q, s, u, lossy) && u == t.(log := log', doomed := [], exp := X.Current(exps.entries, key))
    ensures DeletesDone(log, log', deletes, replies) && u.exp.create == t.exp.create
    ensures exps.entries - {key} == old(exps.entries) - {key}
  {
    hide Leads;
    hide After;
    hide DeletesDone;
    log', q, u := log, p, t;
    NothingDeleted(log, deletes, replies);
    for i := 0 to |deletes|
      invariant Leads(q, s, u, lossy) && u == t.(log := log', doomed := deletes[i..], exp := X.Current(exps.entries, key))
      invariant DeletesDone(log, log', deletes[..i], replies) && u.exp.create == t.exp.create
      invariant exps.entries - {key} == old(exps.entries) - {key}
    {
      ghost var before := u;
      assert before.doomed[0] == deletes[i] && before.doomed[1..] == deletes[i + 1..];
      if replies(i).Deleted? && deletes[i] in After(log') {
        log' := log' + [if replies(i).removed then Removed(deletes[i]) else Marked(deletes[i])];
        u := u.(log := log', doomed := deletes[i + 1..]);
        assert Next(before, DeleteOk(replies(i).removed), u);
        LeadsMore(q, s, before, DeleteOk(replies(i).removed), u, lossy);
      } else {
        exps.DeletionObserved(key, deletes[i]);
        u := u.(doomed := deletes[i + 1..], exp := X.Current(exps.entries, key));
        assert Next(before, DeleteFail, u);
        LeadsMore(q, s, before, DeleteFail, u, lossy);
      }
      DeletesMore(log, before.log, log', deletes, replies, i);
      q := q + [u];
    }
    assert deletes[..|deletes|] == deletes;
  }

  lemma NothingDeleted(log: seq<Record>, deletes: seq<Name>, replies: nat -> DeleteReply)
    ensures DeletesDone(log, log, deletes[..0], replies)
  {
    hide After;
  }

  lemma DeletesMore(log: seq<Record>, before: seq<Record>, after: seq<Record>, deletes: seq<Name>, replies: nat -> DeleteReply, i: nat)
    requires i < |deletes| && DeletesDone(log, before, deletes[..i], replies)
    requires after == if replies(i).Deleted? && deletes[i] in After(before)
                      then before + [if replies(i).removed then Removed(deletes[i]) else Marked(deletes[i])] else before
    ensures DeletesDone(log, after, deletes[..i + 1], replies)
  {
    hide After;
    hide AllDeleted;
    assert deletes[..i + 1] == deletes[..i] + [deletes[i]];
    OneDeleted(before, after, deletes[i], replies(i));
    if AllDeleted(replies) {
      DeletedAt(replies, i);
    }
    forall n | n !in deletes[..i + 1] ensures SameAt(After(log), After(after), n) {
      assert SameAt(After(log), After(before), n) && SameAt(After(before), After(after), n);
    }
  }

  lemma DeletedAt(replies: nat -> DeleteReply, i: nat)
    requires AllDeleted(replies)
    ensures replies(i) == Deleted(true)
  {
  }

  lemma OneDeleted(before: seq<Record>, after: seq<Record>, d: Name, reply: DeleteReply)
    requires after == if reply.Deleted? && d in After(before) then before + [if reply.removed then Removed(d) else Marked(d)] else before
    ensures forall n | n != d :: SameAt(After(before), After(after), n)
    ensures forall n | n in After(after) :: n in After(before)
    ensures reply == Deleted(true) ==> d !in After(after)
  {
    if after != before {
      OneMore(before, if reply.removed then Removed(d) else Marked(d));
    }
    hide After;
  }

  lemma OneMore(log: seq<Record>, r: Record)
    ensures After(log + [r]) == Apply(After(log), r)
  {
    assert (log + [r])[..|log|] == log;
  }

  /** Everything the pass asks for is done at once, under names nobody has. */
  ghost predicate AllGood(log: seq<Record>, nodes: seq<Node>, draws: seq<Name>, creates: nat -> CreateReply, deletes: nat -> DeleteReply) {
    && (forall i: nat :: creates(i).Accepted? && deletes(i) == Deleted(true))
    && |X.Drawn(draws)| >= |nodes| && forall n | n in draws :: n !in After(log)
  }

  /** The DaemonSet is where it should be: see DaemonSetConvergence.Converges. */
  ghost predicate Settled(nodes: seq<Node>, ds: DaemonSet, before: set<Instance>, after: set<Instance>) {
    && (forall j | 0 <= j < |nodes| && ShouldRun(nodes[j], ds) :: RunsOldest(before, after, nodes[j].name))
    && (forall j, x | 0 <= j < |nodes| && !ShouldRun(nodes[j], ds) && x in after :: TargetNodeName(x) != Some(nodes[j].name))
  }

  /**
   * A pass without interruption, on the live expectations: unless something is still expected, the view is
   * planned for, the plan is expected, and it is carried out. All of it are steps of the runs, and unless a
   * create reply is lost the pass keeps their invariant. On an exact view, with everything done at once, the
   * pass settles the DaemonSet.
   */
  method Reconcile(exps: X.Expectations, key: Name, log: seq<Record>, seen: nat, nodes: seq<Node>, ds: DaemonSet,
                   draws: seq<Name>, creates: nat -> CreateReply, deletes: nat -> DeleteReply, ghost s: State)
    returns (log': seq<Record>, ghost p: seq<State>, ghost s': State)
    requires DistinctNodes(nodes) && ds.namespace == s.ds.namespace && Inv(s) && s.phase.Idle? && s.doomed == []
    requires s.log == log && s.seen == seen && s.exp == X.Current(exps.entries, key)
    modifies exps
    ensures Leads(p, s, s', SomeLost(creates)) && (!SomeLost(creates) ==> Inv(s'))
    ensures s' == s.(log := log', exp := X.Current(exps.entries, key), ds := s'.ds)
    ensures exps.entries - {key} == old(exps.entries) - {key}
    ensures !X.Discharged(old(exps.entries), key) ==> s' == s
    ensures X.Discharged(old(exps.entries), key) && seen == |log| && AllGood(log, nodes, draws, creates, deletes) ==>
      Settled(nodes, ds, After(log).Values, After(log').Values)
  {
    hide Inv;
    hide Planned;
    hide DistinctNodes;
    hide Elements;
    hide After;
    hide AllGood;
    hide Settled;
    hide CreatesDone;
    hide DeletesDone;
    InvParts(s);
    ghost var lossy := SomeLost(creates);
    log', p, s' := log, [s], s;
    var satisfied := exps.Satisfied(key, false);
    if !satisfied {
      return;
    }
    ghost var s1 := s.(phase := Checked);
    LeadsMore([s], s, s, Check, s1, lossy);
    hide Leads;
    hide SomeLost;
    var insts := ListObjects(After(log[..seen]));
    var needs, doomed := Manage(nodes, insts, ds);
    ghost var keep :| Planned(nodes, Elements(insts), ds, needs, doomed, keep);
    var names := X.GenerateCreateNames(|needs|, draws);
    if names.None? {
      LeadsMore([s] + [s1], s, s1, PlanFails, s, lossy);
      p := [s] + [s1] + [s];
      EnoughNames(log, nodes, Elements(insts), ds, needs, doomed, keep, draws, creates, deletes);
      return;
    }
    exps.ExpectCreationsAndDeletions(key, names.value, doomed);
    ghost var s2 := StartSynced(s1, nodes, ds, needs, doomed, keep, names.value, X.Current(exps.entries, key));
    ghost var e := StartSync(nodes, ds, needs, doomed, keep, names.value);
    LeadsMore([s] + [s1], s, s1, e, s2, lossy);
    ghost var q, s3, s4;
    var middle;
    middle, q, s3 := SyncCreates(exps, key, log, ds, names.value, needs, creates, [s] + [s1] + [s2], s, s2);
    log', q, s4 := SyncDeletes(exps, key, middle, doomed, deletes, q, s, s3, lossy);
    s' := s4.(phase := Idle);
    LeadsMore(q, s, s4, EndSync, s', lossy);
    p := q + [s'];
    if !lossy {
      LeadsKeepsInv(p, s, s');
    }
    if seen == |log| && AllGood(log, nodes, draws, creates, deletes) {
      assert log[..seen] == log;
      PassSettles(log, middle, log', s2.exp, s3.exp, nodes, ds, needs, doomed, keep, names.value, draws, creates, deletes);
    }
  }

  lemma EnoughNames(log: seq<Record>, nodes: seq<Node>, insts: set<Instance>, ds: DaemonSet, needs: seq<Name>, doomed: seq<Name>,
                    keep: map<Name, Instance>, draws: seq<Name>, creates: nat -> CreateReply, deletes: nat -> DeleteReply)
    requires Planned(nodes, insts, ds, needs, doomed, keep) && |X.Drawn(draws)| < |needs|
    ensures !AllGood(log, nodes, draws, creates, deletes)
  {
    NeedsBounded(nodes, insts, ds, needs, doomed, keep);
    hide Planned;
  }

  lemma NeedsBounded(nodes: seq<Node>, insts: set<Instance>, ds: DaemonSet, needs: seq<Name>, doomed: seq<Name>, keep: map<Name, Instance>)
    requires Planned(nodes, insts, ds, needs, doomed, keep)
    ensures |needs| <= |nodes|
  {
    hide LiveOn;
    hide Doomed;
    hide ShouldRun;
    var names := set i | 0 <= i < |nodes| :: nodes[i].name;
    NamesBounded(nodes);
    var needed := set v | v in needs;
    NoDupCard(needs, needed);
    forall v | v in needs ensures v in names {
      assert Runs(nodes, ds, v);
    }
    CardSubset(needed, names);
  }

  lemma {:induction false} NamesBounded(nodes: seq<Node>)
    ensures |set i | 0 <= i < |nodes| :: nodes[i].name| <= |nodes|
  {
    var names := set i | 0 <= i < |nodes| :: nodes[i].name;
    if nodes == [] {
      assert names == {};
    } else {
      var n := |nodes| - 1;
      var init := nodes[..n];
      NamesBounded(init);
      var before := set i | 0 <= i < |init| :: init[i].name;
      assert forall i | 0 <= i < n :: init[i] == nodes[i];
      assert names == before + {nodes[n].name};
    }
  }

  /** The state after the pass is the plan applied. */
  lemma PassSettles(log: seq<Record>, middle: seq<Record>, log': seq<Record>, exp: X.Expectation, exp': X.Expectation, nodes: seq<Node>, ds: DaemonSet,
                    needs: seq<Name>, doomed: seq<Name>, keep: map<Name, Instance>, names: seq<Name>, draws: seq<Name>,
                    creates: nat -> CreateReply, deletes: nat -> DeleteReply)
    requires DistinctNodes(nodes) && AllPinned(After(log)) && Planned(nodes, After(log).Values, ds, needs, doomed, keep)
    requires |names| == |needs| && NoDup(names) && (forall n | n in names :: n in draws) && AllGood(log, nodes, draws, creates, deletes)
    requires CreatesDone(log, middle, exp, exp', ds, names, needs, creates, |names|) && DeletesDone(middle, log', doomed, deletes)
    ensures Settled(nodes, ds, After(log).Values, After(log').Values)
  {
    hide Planned;
    hide DistinctNodes;
    var made := MadeBy(log, middle, log', exp, exp', nodes, ds, needs, doomed, keep, names, draws, creates, deletes);
    NamesUnique(After(log));
    hide Applied;
    hide UniqueNames;
    hide CreatesDone;
    hide DeletesDone;
    hide AllGood;
    hide RunsOldest;
    Converges(nodes, After(log).Values, ds, needs, doomed, keep, made, After(log').Values);
  }

  lemma NamesUnique(objs: Objects)
    requires AllPinned(objs)
    ensures UniqueNames(objs.Values)
  {
    hide Pinned;
  }

  lemma MadeBy(log: seq<Record>, middle: seq<Record>, log': seq<Record>, exp: X.Expectation, exp': X.Expectation, nodes: seq<Node>, ds: DaemonSet,
               needs: seq<Name>, doomed: seq<Name>, keep: map<Name, Instance>, names: seq<Name>, draws: seq<Name>,
               creates: nat -> CreateReply, deletes: nat -> DeleteReply)
    returns (made: map<Name, Instance>)
    requires AllPinned(After(log)) && Planned(nodes, After(log).Values, ds, needs, doomed, keep)
    requires |names| == |needs| && NoDup(names) && (forall n | n in names :: n in draws) && AllGood(log, nodes, draws, creates, deletes)
    requires CreatesDone(log, middle, exp, exp', ds, names, needs, creates, |names|) && DeletesDone(middle, log', doomed, deletes)
    ensures Applied(After(log).Values, ds, needs, doomed, made, After(log').Values)
  {
    hide CreatesDone;
    hide DeletesDone;
    hide Pinned;
    DoomedThere(nodes, After(log), ds, needs, doomed, keep);
    PlannedNoDup(nodes, After(log).Values, ds, needs, doomed, keep);
    hide Planned;
    hide After;
    forall i: nat | i < |names| ensures Stores(After(log), names[i], creates(i)) && names[i] !in doomed {
      assert names[i] in names;
      assert creates(i).Accepted?;
    }
    forall i: nat ensures deletes(i) == Deleted(true) {
      assert creates(i).Accepted? && deletes(i) == Deleted(true);
    }
    PassObjectsAre(log, middle, log', exp, exp', ds, needs, doomed, names, creates, deletes);
    made := InstancesBy(After(log'), needs, names);
    AppliedFrom(After(log), After(log'), ds, needs, doomed, names, creates, made);
  }

  lemma PlannedNoDup(nodes: seq<Node>, insts: set<Instance>, ds: DaemonSet, needs: seq<Name>, doomed: seq<Name>, keep: map<Name, Instance>)
    requires Planned(nodes, insts, ds, needs, doomed, keep)
    ensures NoDup(needs)
  {
  }

  /** Only what is there is deleted. */
  lemma DoomedThere(nodes: seq<Node>, objs: Objects, ds: DaemonSet, needs: seq<Name>, doomed: seq<Name>, keep: map<Name, Instance>)
    requires AllPinned(objs) && Planned(nodes, objs.Values, ds, needs, doomed, keep)
    ensures forall d | d in doomed :: d in objs
  {
    hide Pinned;
    hide LiveOn;
    hide Runs;
    hide Doomed;
  }

  /** The created instances by node. */
  lemma InstancesBy(after: Objects, needs: seq<Name>, names: seq<Name>) returns (made: map<Name, Instance>)
    requires |names| == |needs| && NoDup(needs) && forall i: nat | i < |names| :: names[i] in after
    ensures forall v :: v in made <==> v in needs
    ensures forall i: nat | i < |needs| :: made[needs[i]] == after[names[i]]
  {
    if needs == [] {
      made := map[];
    } else {
      var n := |needs| - 1;
      var init := InstancesBy(after, needs[..n], names[..n]);
      made := init[needs[n] := after[names[n]]];
      assert needs == needs[..n] + [needs[n]];
      forall i: nat | i < |needs| ensures made[needs[i]] == after[names[i]] {
        if i < n {
          assert needs[..n][i] == needs[i] && names[..n][i] == names[i];
        }
      }
    }
  }

  /** The objects after the pass, name by name. */
  ghost predicate PassObjects(objs: Objects, after: Objects, ds: DaemonSet, needs: seq<Name>, doomed: seq<Name>, names: seq<Name>, creates: nat -> CreateReply)
    requires |names| == |needs|
  {
    && (forall n | n !in names :: (n in after <==> n in objs && n !in doomed) && (n in after ==> after[n] == objs[n]))
    && (forall i: nat | i < |names| ::
          names[i] !in objs && names[i] in after && !creates(i).Refused? && after[names[i]] == Created(ds, needs[i], names[i], creates(i)))
  }

  lemma PassObjectsAre(log: seq<Record>, middle: seq<Record>, log': seq<Record>, exp: X.Expectation, exp': X.Expectation, ds: DaemonSet,
                       needs: seq<Name>, doomed: seq<Name>, names: seq<Name>, creates: nat -> CreateReply, deletes: nat -> DeleteReply)
    requires |names| == |needs| && CreatesDone(log, middle, exp, exp', ds, names, needs, creates, |names|) && DeletesDone(middle, log', doomed, deletes)
    requires AllDeleted(deletes) && forall i: nat | i < |names| :: Stores(After(log), names[i], creates(i)) && names[i] !in doomed
    ensures PassObjects(After(log), After(log'), ds, needs, doomed, names, creates)
  {
    hide After;
    hide Created;
    hide AllDeleted;
    hide CreatesExpected;
    assert names[..|names|] == names;
    var objs, mid, end := After(log), After(middle), After(log');
    forall n | n !in names ensures (n in end <==> n in objs && n !in doomed) && (n in end ==> end[n] == objs[n]) {
      assert SameAt(objs, mid, n);
      assert n !in doomed ==> SameAt(mid, end, n);
    }
    forall i: nat | i < |names|
      ensures names[i] !in objs && names[i] in end && !creates(i).Refused? && end[names[i]] == Created(ds, needs[i], names[i], creates(i))
    {
      assert StoredAs(objs, mid, ds, needs[i], names[i], creates(i)) && SameAt(mid, end, names[i]);
    }
  }

  lemma AppliedFrom(objs: Objects, after: Objects, ds: DaemonSet, needs: seq<Name>, doomed: seq<Name>, names: seq<Name>, creates: nat -> CreateReply,
                    made: map<Name, Instance>)
    requires |names| == |needs| && PassObjects(objs, after, ds, needs, doomed, names, creates) && forall n | n in objs :: objs[n].name == n
    requires forall v :: v in made <==> v in needs
    requires forall i: nat | i < |needs| :: made[needs[i]] == after[names[i]]
    ensures Applied(objs.Values, ds, needs, doomed, made, after.Values)
  {
    forall v | v in made ensures Made(ds, v, made[v]) && made[v] in after.Values {
      var i :| 0 <= i < |needs| && needs[i] == v;
      assert after[names[i]] in after.Values;
    }
    hide Created;
    hide Made;
    forall x | x in after.Values ensures (x in objs.Values && x.name !in doomed) || x in made.Values {
      var n :| n in after && after[n] == x;
      if n in names {
        var i :| 0 <= i < |names| && names[i] == n;
        assert made[needs[i]] == x && needs[i] in made;
      }
    }
    forall x | (x in objs.Values && x.name !in doomed) || x in made.Values ensures x in after.Values {
      if x in objs.Values && x.name !in doomed {
        assert x.name in objs && objs[x.name] == x;
        assert x.name !in names;
        assert after[x.name] == x;
      } else {
        var v :| v in made && made[v] == x;
      }
    }
  }

  lemma InvParts(s: State)
    requires Inv(s)
    ensures s.seen <= |s.log| && AllPinned(After(s.log[..s.seen])) && (s.phase.Idle? ==> s.pending == map[])
  {
    LawfulPrefix(s.log, s.seen);
    LogPinned(s.log[..s.seen]);
  }

  lemma StartSynced(s: State, nodes: seq<Node>, ds: DaemonSet, needs: seq<Name>, doomed: seq<Name>, keep: map<Name, Instance>, names: seq<Name>, exp: X.Expectation)
    returns (t: State)
    requires s.phase.Checked? && s.seen <= |s.log| && DistinctNodes(nodes) && ds.namespace == s.ds.namespace && |names| == |needs| && NoDup(names)
    requires Planned(nodes, After(s.log[..s.seen]).Values, ds, needs, doomed, keep)
    requires (forall n :: n in exp.create <==> n in names) && (forall d :: d in exp.delete <==> d in doomed)
    ensures Next(s, StartSync(nodes, ds, needs, doomed, keep, names), t) && Left(t.pending, names, needs, 0)
    ensures t == s.(phase := Syncing, ds := ds, pending := t.pending, doomed := doomed, exp := exp)
  {
    hide Planned;
    var pending := PairUp(names, needs);
    LeftAll(pending, names, needs);
    hide PairUp;
    hide Left;
    t := s.(phase := Syncing, ds := ds, pending := pending, doomed := doomed, exp := exp);
    assert exp.create == pending.Keys;
    assert exp.delete == set d | d in doomed;
  }

  lemma {:induction false} LeadsKeepsInv(p: seq<State>, s: State, t: State)
    requires Leads(p, s, t) && Inv(s)
    ensures Inv(t)
  {
    PathKeepsInv(p, |p| - 1);
  }

  lemma {:induction false} PathKeepsInv(p: seq<State>, i: nat)
    requires Path(p) && i < |p| && Inv(p[0])
    ensures Inv(p[i])
  {
    hide Inv;
    hide Next;
    hide Loses;
    if i > 0 {
      PathKeepsInv(p, i - 1);
      assert Move(p[i - 1], p[i]);
      var e :| !Loses(e) && Next(p[i - 1], e, p[i]);
      NextKeepsInv(p[i - 1], e, p[i]);
    }
  }

  /** Delivering the next notification to the live handlers is the handling step of the runs. */
  method Deliver(exps: X.Expectations, key: Name, note: Note, ghost s: State) returns (ghost s': State)
    requires s.notes != [] && s.notes[0] == note && s.exp == X.Current(exps.entries, key)
    modifies exps
    ensures Next(s, Handle, s') && s'.exp == X.Current(exps.entries, key)
    ensures exps.entries - {key} == old(exps.entries) - {key}
  {
    match note {
      case Added(n, deleting) => exps.AddHandler(X.Object(n, deleting, Some(key)));
      case Gone(n) => exps.DeleteHandler(X.Object(n, false, Some(key)));
    }
    s' := s.(notes := s.notes[1..], exp := X.Current(exps.entries, key));
  }
}
