/**
 * What the scheduler cache holds, read off the history of operations:
 * internal/controllers/scheduler/cache.go.
 */
module CacheHistory {
  import opened Core
  import opened Cluster
  import opened CacheModel

  /** The operation assumes, adds, forgets or removes the instance. */
  ghost predicate Touches(op: Op, uid: UID) {
    (op.Assume? || op.Add? || op.Forget? || op.Remove?) && op.inst.uid == uid
  }

  /** Between `i` and `k` nobody assumed, added, forgot or removed the instance. */
  ghost predicate Untouched(ops: seq<Op>, i: nat, k: nat, uid: UID) {
    forall j | i < j < k && j < |ops| :: !Touches(ops[j], uid)
  }

  /** At `i` the instance, not cached then, was assumed, and since then, before `k`, nothing else was done to it. */
  ghost predicate AssumedAt(ops: seq<Op>, i: nat, k: nat, inst: Placed) {
    && i < k <= |ops| && ops[i] == Assume(inst) && inst.uid != EMPTY && inst.uid !in Run(ops[..i]).entries
    && Untouched(ops, i, k, inst.uid)
  }

  /** A finished binding between `i` and `k`. */
  ghost predicate FinishedIn(ops: seq<Op>, i: nat, k: nat, uid: UID) {
    exists f :: i < f < k && f < |ops| && ops[f] == FinishBinding(uid)
  }

  /** A finished binding and, later, a cleanup between `i` and `k`. */
  ghost predicate ExpiredIn(ops: seq<Op>, i: nat, k: nat, uid: UID) {
    exists c :: i < c < k && c < |ops| && ops[c] == Cleanup && FinishedIn(ops, i, c, uid)
  }

  lemma RunStep(ops: seq<Op>, k: nat)
    requires k < |ops|
    ensures Run(ops[..k + 1]) == Step(Run(ops[..k]), ops[k]).0
  {
    RunFromStep(EMPTY_CACHE, ops, k);
  }

  // ---- Assumed instances ----

  /** The entry of an assumed instance, as long as nothing else is done to it. */
  ghost predicate EntryIs(a: Cache, inst: Placed, finished: bool, expired: bool) {
    if expired then inst.uid !in a.entries
    else inst.uid in a.entries && a.entries[inst.uid] == Entry(inst, if finished then AssumedFinished else Assumed)
  }

  lemma EntryStep(a: Cache, op: Op, inst: Placed, finished: bool, expired: bool)
    requires EntryIs(a, inst, finished, expired) && !Touches(op, inst.uid) && inst.uid != EMPTY && (expired ==> finished)
    ensures EntryIs(Step(a, op).0, inst, finished || op == FinishBinding(inst.uid), expired || (finished && op == Cleanup))
  {
  }

  lemma {:induction false} AssumedEntry(ops: seq<Op>, i: nat, k: nat, inst: Placed)
    requires AssumedAt(ops, i, k, inst)
    ensures EntryIs(Run(ops[..k]), inst, FinishedIn(ops, i, k, inst.uid), ExpiredIn(ops, i, k, inst.uid))
    ensures ExpiredIn(ops, i, k, inst.uid) ==> FinishedIn(ops, i, k, inst.uid)
  {
    hide Run;
    hide Step;
    var m := k - 1;
    RunStep(ops, m);
    if m == i {
      AssumeAdds(Run(ops[..i]), inst);
    } else {
      AssumedEntry(ops, i, m, inst);
      EntryStep(Run(ops[..m]), ops[m], inst, FinishedIn(ops, i, m, inst.uid), ExpiredIn(ops, i, m, inst.uid));
      FinishedMore(ops, i, m, inst.uid);
      ExpiredMore(ops, i, m, inst.uid);
    }
  }

  lemma AssumeAdds(a: Cache, inst: Placed)
    requires inst.uid != EMPTY && inst.uid !in a.entries
    ensures EntryIs(Step(a, Assume(inst)).0, inst, false, false)
  {
  }

  lemma FinishedMore(ops: seq<Op>, i: nat, m: nat, uid: UID)
    requires i < m < |ops|
    ensures FinishedIn(ops, i, m + 1, uid) <==> FinishedIn(ops, i, m, uid) || ops[m] == FinishBinding(uid)
  {
  }

  lemma ExpiredMore(ops: seq<Op>, i: nat, m: nat, uid: UID)
    requires i < m < |ops|
    ensures ExpiredIn(ops, i, m + 1, uid) <==> ExpiredIn(ops, i, m, uid) || (ops[m] == Cleanup && FinishedIn(ops, i, m, uid))
  {
    hide FinishedIn;
  }

  /**
   * An instance assumed, and neither added, forgotten nor removed since, is gone if and only if its binding
   * was finished and a cleanup came after that; until then it is cached as it was assumed.
   */
  lemma ExpiresIff(ops: seq<Op>, i: nat, k: nat, inst: Placed)
    requires AssumedAt(ops, i, k, inst)
    ensures inst.uid !in Run(ops[..k]).entries
       <==> exists f, c :: i < f < c < k && ops[f] == FinishBinding(inst.uid) && ops[c] == Cleanup
    ensures inst.uid in Run(ops[..k]).entries ==> Run(ops[..k]).entries[inst.uid].instance == inst
  {
    hide Run;
    AssumedEntry(ops, i, k, inst);
    if f, c :| i < f < c < k && ops[f] == FinishBinding(inst.uid) && ops[c] == Cleanup {
      assert FinishedIn(ops, i, c, inst.uid);
    }
  }

  /** Forgetting it takes it out of the cache if and only if it is forgotten on the node it was assumed on. */
  lemma ForgetDrops(ops: seq<Op>, i: nat, k: nat, inst: Placed, forgotten: Placed)
    requires AssumedAt(ops, i, k, inst) && inst.uid in Run(ops[..k]).entries && forgotten.uid == inst.uid
    ensures inst.uid !in Run(ops[..k] + [Forget(forgotten)]).entries <==> forgotten.nodeRef == inst.nodeRef
  {
    AssumedEntry(ops, i, k, inst);
    var more := ops[..k] + [Forget(forgotten)];
    assert more[..k] == ops[..k] && more[..k + 1] == more;
    RunStep(more, k);
    hide Run;
  }

  /** Adding it, on whatever node the object names, confirms it: it is cached as added. */
  lemma AddConfirms(ops: seq<Op>, i: nat, k: nat, inst: Placed, added: Placed)
    requires AssumedAt(ops, i, k, inst) && added.uid == inst.uid
    ensures var after := Run(ops[..k] + [Add(added)]); added.uid in after.entries && after.entries[added.uid] == Entry(added, Added)
  {
    AssumedEntry(ops, i, k, inst);
    var more := ops[..k] + [Add(added)];
    assert more[..k] == ops[..k] && more[..k + 1] == more;
    RunStep(more, k);
    hide Run;
  }

  // ---- Added instances ----

  /** An added instance stays as it is, whatever is finished, forgotten, cleaned up, assumed or added, until it is updated or removed. */
  lemma {:induction false} AddedStays(ops: seq<Op>, i: nat, k: nat, inst: Placed)
    requires i < k <= |ops| && ops[i] == Add(inst) && inst.uid != EMPTY
    requires inst.uid in Run(ops[..i]).entries ==> Run(ops[..i]).entries[inst.uid].phase != Added
    requires forall j | i < j < k :: (ops[j].Remove? ==> ops[j].inst.uid != inst.uid) && (ops[j].Update? ==> ops[j].before.uid != inst.uid)
    ensures inst.uid in Run(ops[..k]).entries && Run(ops[..k]).entries[inst.uid] == Entry(inst, Added)
  {
    hide Run;
    RunStep(ops, k - 1);
    if k - 1 > i {
      AddedStays(ops, i, k - 1, inst);
    }
  }

  /** Updating it through an object of its UID replaces it if the node is the same; another node is a panic and changes nothing. */
  lemma UpdateReplaces(a: Cache, uid: UID, before: Placed, after: Placed)
    requires uid != EMPTY && uid in a.entries && a.entries[uid].phase == Added && before.uid == uid
    ensures var (b, outcome) := Step(a, Update(before, after));
            if after.nodeRef == a.entries[uid].instance.nodeRef
            then outcome == Done && uid in b.entries && b.entries[uid] == Entry(after, Added) else outcome == Panic && b == a
  {
  }

  /** Removing takes out what is there, assumed or added, if the node is the same; another node is a panic and changes nothing. */
  lemma RemoveDrops(a: Cache, removed: Placed)
    requires removed.uid != EMPTY && removed.uid in a.entries
    ensures var (b, outcome) := Step(a, Remove(removed));
            if removed.nodeRef == a.entries[removed.uid].instance.nodeRef
            then outcome == Done && removed.uid !in b.entries else outcome == Panic && b == a
  {
  }

  /** What is refused: assuming what is cached; adding what was added; updating or removing what is not there. */
  lemma Refused(a: Cache, inst: Placed, after: Placed)
    ensures Step(a, Assume(inst)).1 == (if inst.uid == EMPTY || inst.uid in a.entries then Error else Done)
    ensures inst.uid == EMPTY || (inst.uid in a.entries && a.entries[inst.uid].phase == Added) <==> Step(a, Add(inst)).1 == Error
    ensures inst.uid == EMPTY || inst.uid !in a.entries || a.entries[inst.uid].phase != Added <==> Step(a, Update(inst, after)).1 == Error
    ensures inst.uid == EMPTY || inst.uid !in a.entries <==> Step(a, Remove(inst)).1 == Error
    ensures forall op: Op | Step(a, op).1 == Error && !op.Forget? && !op.RemoveContainer? :: Step(a, op).0 == a
  {
  }

  /** No operation but a cleanup changes the entry of an instance it does not name. */
  lemma OthersUntouched(a: Cache, op: Op, uid: UID)
    requires !Touches(op, uid) && op != FinishBinding(uid) && op != Cleanup && (op.Update? ==> op.before.uid != uid)
    ensures var b := Step(a, op).0;
            (uid in b.entries <==> uid in a.entries) && (uid in a.entries ==> b.entries[uid] == a.entries[uid])
  {
  }

  // ---- Nodes ----

  /** The operation sets or removes the node of this name. */
  ghost predicate SetsOrRemoves(op: Op, name: Name) {
    (op.SetContainer? && op.node.name == name) || op == RemoveContainer(name)
  }

  /** The last operation on the node's name set this node. */
  ghost predicate LastSet(ops: seq<Op>, node: Node) {
    exists i :: 0 <= i < |ops| && ops[i] == SetContainer(node) && forall j | i < j < |ops| :: !SetsOrRemoves(ops[j], node.name)
  }

  /** A node is live, as it is, if and only if the last operation on its name set it. */
  lemma {:induction false} LiveIff(ops: seq<Op>, node: Node)
    ensures (node.name in Run(ops).live && Run(ops).live[node.name] == node) <==> LastSet(ops, node)
  {
    if ops != [] {
      var m := |ops| - 1;
      var init, op := ops[..m], ops[m];
      LiveIff(init, node);
      RunStep(ops, m);
      assert ops[..m + 1] == ops;
      hide Run;
      assert ops == init + [op];
      LastSetMore(init, op, node);
      LiveStep(Run(init), op, node.name);
      hide Step;
      hide LastSet;
    }
  }

  lemma LiveStep(a: Cache, op: Op, name: Name)
    ensures var b := Step(a, op).0;
            && (op.SetContainer? && op.node.name == name ==> name in b.live && b.live[name] == op.node)
            && (op == RemoveContainer(name) ==> name !in b.live)
            && (!SetsOrRemoves(op, name) ==> (name in b.live <==> name in a.live) && (name in a.live ==> b.live[name] == a.live[name]))
  {
  }

  lemma LastSetMore(ops: seq<Op>, op: Op, node: Node)
    ensures LastSet(ops + [op], node) <==> op == SetContainer(node) || (LastSet(ops, node) && !SetsOrRemoves(op, node.name))
  {
    var all := ops + [op];
    if LastSet(all, node) {
      var i :| 0 <= i < |all| && all[i] == SetContainer(node) && forall j | i < j < |all| :: !SetsOrRemoves(all[j], node.name);
      if i < |ops| {
        assert ops[i] == SetContainer(node);
        assert forall j | i < j < |ops| :: ops[j] == all[j];
        assert all[|ops|] == op;
      }
    }
    if op == SetContainer(node) {
      assert all[|ops|] == SetContainer(node);
    }
    if LastSet(ops, node) && !SetsOrRemoves(op, node.name) {
      var i :| 0 <= i < |ops| && ops[i] == SetContainer(node) && forall j | i < j < |ops| :: !SetsOrRemoves(ops[j], node.name);
      assert all[i] == SetContainer(node);
      assert forall j | i < j < |all| :: all[j] == if j < |ops| then ops[j] else op;
    }
  }
}
