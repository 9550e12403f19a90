/** The optimistic-lock claim protocol on a network interface: internal/client/client.go. */
module NatClaim {
  import opened Core
  import opened NatInterface

  /** A stored state of the interface object. */
  datatype Object = Object(uid: UID, nats: seq<NAT>)

  /**
   * A claiming call in flight. `at` is the resource version its local copy was read at. `Succeeded(at)`
   * names the version that justifies the success.
   */
  datatype Phase = Reading | Checking(at: nat) | Patching(at: nat) | Succeeded(at: nat) | Failed
  datatype Claimant = Claimant(family: IPFamily, claimRef: ClaimRef, uid: UID, phase: Phase, attempts: nat)

  /** `history[v]` is the object as of resource version `v`, or None while it does not exist. */
  datatype State = State(history: seq<Option<Object>>, calls: map<nat, Claimant>)

  /** Attempts of retry.DefaultRetry. */
  const RETRIES := 5

  datatype Action =
    | Begin(id: nat, family: IPFamily, claimRef: ClaimRef, at: nat)
    | Read(id: nat, at: nat)
    | Check(id: nat)
    | Patch(id: nat)
    | PatchError(id: nat)
    | PatchLost(id: nat) // stored, but reported as failed
    | Filter(from: nat, keep: set<nat>)
    | Create(uid: UID, nats: seq<NAT>)
    | Delete

  /** No two entries of one IP family. */
  ghost predicate OnePerFamily(nats: seq<NAT>) {
    forall i, j | 0 <= i < j < |nats| :: nats[i].family != nats[j].family
  }

  ghost function SubList(nats: seq<NAT>, keep: set<nat>): seq<NAT> {
    if nats == [] then []
    else
      var n := |nats| - 1;
      SubList(nats[..n], keep) + if n in keep then [nats[n]] else []
  }

  ghost function Now(s: State): nat
    requires s.history != []
  {
    |s.history| - 1
  }

  ghost function Store(s: State, o: Option<Object>): State {
    s.(history := s.history + [o])
  }

  ghost function Move(s: State, id: nat, phase: Phase): State
    requires id in s.calls
  {
    s.(calls := s.calls[id := s.calls[id].(phase := phase)])
  }

  /**
   * One atomic step of one party. Reads may be served from a cache: they return any version up to now.
   * `Filter` is any other writer of the list (the release controller, the apinetlet, a release): it
   * replaces the list without a version check by a sub-list of a list it read earlier. An action that
   * cannot happen leaves the state alone.
   */
  ghost function Step(s: State, a: Action): State
    requires s.history != []
  {
    match a
    case Begin(id, family, claimRef, at) =>
      if id in s.calls || at > Now(s) || s.history[at].None? then s
      else
        var o := s.history[at].value;
        var phase := if Claimer(o.nats, family).Some? then Failed else Checking(at);
        s.(calls := s.calls[id := Claimant(family, claimRef, o.uid, phase, RETRIES)])
    case Read(id, at) =>
      if id !in s.calls || !s.calls[id].phase.Reading? || at > Now(s) then s
      else if s.history[at].None? then Move(s, id, Failed)
      else Move(s, id, Checking(at))
    case Check(id) =>
      if id !in s.calls || !s.calls[id].phase.Checking? || s.calls[id].phase.at > Now(s) || s.history[s.calls[id].phase.at].None? then s
      else
        var c := s.calls[id];
        var o := s.history[c.phase.at].value;
        var existing := Claimer(o.nats, c.family);
        if o.uid != c.uid then Move(s, id, Failed)
        else if existing.Some? then Move(s, id, if existing.value == c.claimRef then Succeeded(c.phase.at) else Failed)
        else Move(s, id, Patching(c.phase.at))
    case Patch(id) =>
      if id !in s.calls || !s.calls[id].phase.Patching? || s.calls[id].phase.at > Now(s) || s.history[s.calls[id].phase.at].None? then s
      else
        var c := s.calls[id];
        var o := s.history[c.phase.at].value;
        if c.phase.at == Now(s) then
          Move(Store(s, Some(o.(nats := o.nats + [NAT(c.family, c.claimRef)]))), id, Succeeded(|s.history|))
        else if c.attempts <= 1 then Move(s, id, Failed)
        else s.(calls := s.calls[id := c.(phase := Reading, attempts := c.attempts - 1)])
    case PatchLost(id) =>
      if id !in s.calls || !s.calls[id].phase.Patching? || s.calls[id].phase.at != Now(s) || s.history[Now(s)].None? then s
      else
        var c := s.calls[id];
        var o := s.history[Now(s)].value;
        Move(Store(s, Some(o.(nats := o.nats + [NAT(c.family, c.claimRef)]))), id, Failed)
    case PatchError(id) =>
      if id !in s.calls || !s.calls[id].phase.Patching? then s else Move(s, id, Failed)
    case Filter(from, keep) =>
      if from > Now(s) || s.history[from].None? || s.history[Now(s)].None? then s
      else Store(s, Some(s.history[Now(s)].value.(nats := SubList(s.history[from].value.nats, keep))))
    case Create(uid, nats) =>
      if s.history[Now(s)].Some? || !OnePerFamily(nats) then s else Store(s, Some(Object(uid, nats)))
    case Delete =>
      if s.history[Now(s)].None? then s else Store(s, None)
  }

  const INITIAL := State([None], map[])

  ghost function Run(actions: seq<Action>): (s: State)
    ensures s.history != []
  {
    if actions == [] then INITIAL
    else Step(Run(actions[..|actions| - 1]), actions[|actions| - 1])
  }

  ghost predicate CallOk(s: State, c: Claimant) {
    match c.phase
    case Reading => true
    case Failed => true
    case Checking(at) => at < |s.history| && s.history[at].Some?
    case Patching(at) =>
      && at < |s.history| && s.history[at].Some?
      && s.history[at].value.uid == c.uid && Claimer(s.history[at].value.nats, c.family).None?
    case Succeeded(at) =>
      && at < |s.history| && s.history[at].Some?
      && s.history[at].value.uid == c.uid && Claimer(s.history[at].value.nats, c.family) == Some(c.claimRef)
  }

  ghost predicate Inv(s: State) {
    && s.history != []
    && (forall v | 0 <= v < |s.history| && s.history[v].Some? :: OnePerFamily(s.history[v].value.nats))
    && (forall id | id in s.calls :: CallOk(s, s.calls[id]))
  }

  lemma {:induction false} SubListOnePerFamily(nats: seq<NAT>, keep: set<nat>)
    requires OnePerFamily(nats)
    ensures OnePerFamily(SubList(nats, keep))
    ensures forall x | x in SubList(nats, keep) :: x in nats
  {
    if nats != [] {
      var n := |nats| - 1;
      SubListOnePerFamily(nats[..n], keep);
      var s := SubList(nats[..n], keep);
      forall i | 0 <= i < |s| ensures s[i].family != nats[n].family {
        assert s[i] in s;
      }
    }
  }

  lemma AppendOnePerFamily(nats: seq<NAT>, family: IPFamily, claimRef: ClaimRef)
    requires OnePerFamily(nats) && Claimer(nats, family).None?
    ensures OnePerFamily(nats + [NAT(family, claimRef)])
    ensures Claimer(nats + [NAT(family, claimRef)], family) == Some(claimRef)
  {
    ClaimerNone(nats, family);
    ClaimerAppend(nats, family, claimRef);
  }

  /** Storing the entry, whatever becomes of the call. */
  lemma PatchStores(s: State, id: nat, phase: Phase)
    requires Inv(s) && id in s.calls && s.calls[id].phase == Patching(Now(s)) && (phase == Failed || phase == Succeeded(|s.history|))
    ensures var c := s.calls[id];
            s.history[Now(s)].Some?
            && var o := s.history[Now(s)].value;
               Inv(Move(Store(s, Some(o.(nats := o.nats + [NAT(c.family, c.claimRef)]))), id, phase))
  {
    hide OnePerFamily;
    hide Claimer;
    var c := s.calls[id];
    assert CallOk(s, c);
    AppendOnePerFamily(s.history[Now(s)].value.nats, c.family, c.claimRef);
  }

  lemma StepKeepsInv(s: State, a: Action)
    requires Inv(s)
    ensures Inv(Step(s, a))
  {
    hide OnePerFamily;
    hide Claimer;
    hide SubList;
    match a {
      case Filter(from, keep) =>
        if from <= Now(s) && s.history[from].Some? {
          SubListOnePerFamily(s.history[from].value.nats, keep);
        }
      case PatchLost(id) =>
        if id in s.calls && s.calls[id].phase == Patching(Now(s)) {
          PatchStores(s, id, Failed);
        }
      case Patch(id) =>
        if id in s.calls && s.calls[id].phase == Patching(Now(s)) {
          PatchStores(s, id, Succeeded(|s.history|));
        }
      case _ =>
    }
  }

  lemma {:induction false} RunInv(actions: seq<Action>)
    ensures Inv(Run(actions))
  {
    if actions != [] {
      RunInv(actions[..|actions| - 1]);
      StepKeepsInv(Run(actions[..|actions| - 1]), actions[|actions| - 1]);
    }
  }

  /**
   * In every interleaving: at no version has the interface two NAT entries of one family, and a call
   * that returns success found or put its own claim into the version it names, on the object it was
   * called for.
   */
  lemma ClaimsExclusive(actions: seq<Action>)
    ensures var s := Run(actions);
            && (forall v | 0 <= v < |s.history| && s.history[v].Some? :: OnePerFamily(s.history[v].value.nats))
            && (forall id | id in s.calls && s.calls[id].phase.Succeeded? ::
                  && s.calls[id].phase.at < |s.history| && s.history[s.calls[id].phase.at].Some?
                  && s.history[s.calls[id].phase.at].value.uid == s.calls[id].uid
                  && NAT(s.calls[id].family, s.calls[id].claimRef) in s.history[s.calls[id].phase.at].value.nats)
  {
    RunInv(actions);
    var s := Run(actions);
    forall id | id in s.calls && s.calls[id].phase.Succeeded?
      ensures NAT(s.calls[id].family, s.calls[id].claimRef) in s.history[s.calls[id].phase.at].value.nats
    {
      ClaimerNone(s.history[s.calls[id].phase.at].value.nats, s.calls[id].family);
    }
  }

  /**
   * A patch that takes effect, whether reported or lost, lands on a version without an entry of its family: it adds its entry to
   * the current list and changes nothing else.
   */
  lemma PatchLandsClean(actions: seq<Action>, id: nat, patch: Action)
    requires patch == Patch(id) || patch == PatchLost(id)
    requires var s := Run(actions); |Step(s, patch).history| > |s.history|
    ensures var s, s' := Run(actions), Step(Run(actions), patch);
            && id in s.calls && s.history[Now(s)].Some?
            && (forall i | 0 <= i < |s.history[Now(s)].value.nats| :: s.history[Now(s)].value.nats[i].family != s.calls[id].family)
            && s'.history == s.history + [Some(Object(s.calls[id].uid,
                 s.history[Now(s)].value.nats + [NAT(s.calls[id].family, s.calls[id].claimRef)]))]
            && s'.calls[id].phase == (if patch.Patch? then Succeeded(Now(s')) else Failed)
  {
    RunInv(actions);
    var s := Run(actions);
    ClaimerNone(s.history[Now(s)].value.nats, s.calls[id].family);
  }

  // ---- Progress ----

  ghost predicate NoEntry(nats: seq<NAT>, family: IPFamily) {
    forall i | 0 <= i < |nats| :: nats[i].family != family
  }

  lemma RunMore(actions: seq<Action>, a: Action)
    ensures Run(actions + [a]) == Step(Run(actions), a)
  {
    hide Step;
    assert (actions + [a])[..|actions|] == actions;
  }

  /** What a call finds in the version it read: with at most one entry per family, the entry decides. */
  lemma ClaimerIs(nats: seq<NAT>, family: IPFamily, claimRef: ClaimRef)
    requires OnePerFamily(nats)
    ensures NAT(family, claimRef) in nats <==> Claimer(nats, family) == Some(claimRef)
  {
    ClaimerNone(nats, family);
  }

  /**
   * The check, in every reachable state: a different object fails the call; so does an entry of another
   * claim; the call's own claim makes it succeed; and without an entry of the family it goes on to patch.
   */
  lemma CheckDecides(actions: seq<Action>, id: nat)
    requires var s := Run(actions); id in s.calls && s.calls[id].phase.Checking?
    ensures var s, s' := Run(actions), Run(actions + [Check(id)]);
            var c := s.calls[id];
            && c.phase.at < |s.history| && s.history[c.phase.at].Some?
            && var o := s.history[c.phase.at].value;
               && s'.history == s.history && id in s'.calls && s'.calls[id] == c.(phase := s'.calls[id].phase)
               && (o.uid != c.uid ==> s'.calls[id].phase == Failed)
               && (o.uid == c.uid && NAT(c.family, c.claimRef) in o.nats ==> s'.calls[id].phase == Succeeded(c.phase.at))
               && (o.uid == c.uid && (exists i :: 0 <= i < |o.nats| && o.nats[i].family == c.family && o.nats[i].claimRef != c.claimRef)
                   ==> s'.calls[id].phase == Failed)
               && (o.uid == c.uid && NoEntry(o.nats, c.family) ==> s'.calls[id].phase == Patching(c.phase.at))
  {
    RunInv(actions);
    RunMore(actions, Check(id));
    var s := Run(actions);
    var c := s.calls[id];
    assert CallOk(s, c);
    var o := s.history[c.phase.at].value;
    ClaimerNone(o.nats, c.family);
    ClaimerIs(o.nats, c.family, c.claimRef);
    if i :| 0 <= i < |o.nats| && o.nats[i].family == c.family && o.nats[i].claimRef != c.claimRef {
      assert o.nats[i] == NAT(c.family, o.nats[i].claimRef);
      ClaimerIs(o.nats, c.family, o.nats[i].claimRef);
    }
    hide Run;
    hide Claimer;
  }

  /**
   * The patch, in every reachable state: on the latest version it appends the entry and the call succeeds;
   * on an older one the call reads again, unless that was its last attempt.
   */
  lemma PatchDecides(actions: seq<Action>, id: nat)
    requires var s := Run(actions); id in s.calls && s.calls[id].phase.Patching?
    ensures var s, s' := Run(actions), Run(actions + [Patch(id)]);
            var c := s.calls[id];
            && c.phase.at < |s.history| && s.history[c.phase.at].Some? && id in s'.calls
            && s'.calls[id] == c.(phase := s'.calls[id].phase, attempts := s'.calls[id].attempts)
            && var o := s.history[c.phase.at].value;
               if c.phase.at == |s.history| - 1 then
                 s'.history == s.history + [Some(Object(c.uid, o.nats + [NAT(c.family, c.claimRef)]))] && s'.calls[id].phase == Succeeded(|s.history|)
               else
                 && s'.history == s.history
                 && (c.attempts > 1 ==> s'.calls[id].phase == Reading && s'.calls[id].attempts == c.attempts - 1)
                 && (c.attempts <= 1 ==> s'.calls[id].phase == Failed)
  {
    RunInv(actions);
    RunMore(actions, Patch(id));
    assert CallOk(Run(actions), Run(actions).calls[id]);
    hide Run;
    hide Claimer;
  }

  /** A call starts with five attempts on the version it is given, unless that already has an entry of the family. */
  lemma BeginStarts(actions: seq<Action>, id: nat, family: IPFamily, claimRef: ClaimRef, at: nat)
    requires var s := Run(actions); id !in s.calls && at < |s.history| && s.history[at].Some?
    ensures var s, s' := Run(actions), Run(actions + [Begin(id, family, claimRef, at)]);
            var o := s.history[at].value;
            && s'.history == s.history && id in s'.calls
            && s'.calls[id] == Claimant(family, claimRef, o.uid, s'.calls[id].phase, 5)
            && s'.calls[id].phase == (if NoEntry(o.nats, family) then Checking(at) else Failed)
  {
    RunMore(actions, Begin(id, family, claimRef, at));
    ClaimerNone(Run(actions).history[at].value.nats, family);
    hide Run;
    hide Claimer;
  }

  lemma ReadGets(actions: seq<Action>, id: nat, at: nat)
    requires var s := Run(actions); id in s.calls && s.calls[id].phase.Reading? && at < |s.history|
    ensures var s, s' := Run(actions), Run(actions + [Read(id, at)]);
            && s'.history == s.history && id in s'.calls
            && s'.calls[id] == s.calls[id].(phase := if s.history[at].Some? then Checking(at) else Failed)
  {
    RunMore(actions, Read(id, at));
    hide Run;
  }

  /** Check and patch on the latest version, with no other writer, claim an unclaimed interface. */
  lemma CheckAndPatch(actions: seq<Action>, id: nat)
    requires var s := Run(actions);
             && id in s.calls && s.calls[id].phase == Checking(|s.history| - 1) && s.history[|s.history| - 1].Some?
             && s.history[|s.history| - 1].value.uid == s.calls[id].uid
             && NoEntry(s.history[|s.history| - 1].value.nats, s.calls[id].family)
    ensures var s, s' := Run(actions), Run(actions + [Check(id)] + [Patch(id)]);
            var o := s.history[|s.history| - 1].value;
            && s'.history == s.history + [Some(Object(o.uid, o.nats + [NAT(s.calls[id].family, s.calls[id].claimRef)]))]
            && id in s'.calls && s'.calls[id].phase == Succeeded(|s.history|)
  {
    hide Run;
    CheckDecides(actions, id);
    PatchDecides(actions + [Check(id)], id);
  }

  /**
   * From every reachable state: an uncontended claim of an existing interface without an entry of the family
   * succeeds and appends the entry to its list.
   */
  lemma ClaimSucceeds(actions: seq<Action>, id: nat, family: IPFamily, claimRef: ClaimRef)
    requires var s := Run(actions);
             && id !in s.calls && s.history[|s.history| - 1].Some?
             && NoEntry(s.history[|s.history| - 1].value.nats, family)
    ensures var s := Run(actions);
            var s' := Run(actions + [Begin(id, family, claimRef, |s.history| - 1)] + [Check(id)] + [Patch(id)]);
            var o := s.history[|s.history| - 1].value;
            && s'.history == s.history + [Some(Object(o.uid, o.nats + [NAT(family, claimRef)]))]
            && id in s'.calls && s'.calls[id].phase == Succeeded(|s.history|)
  {
    hide Run;
    BeginStarts(actions, id, family, claimRef, |Run(actions).history| - 1);
    CheckAndPatch(actions + [Begin(id, family, claimRef, |Run(actions).history| - 1)], id);
  }

  /**
   * From every reachable state: a call whose patch meets a newer version, with an attempt left and the
   * interface still unclaimed and the same, succeeds on its next round.
   */
  lemma RetrySucceeds(actions: seq<Action>, id: nat)
    requires var s := Run(actions);
             && id in s.calls && s.calls[id].phase.Patching? && s.calls[id].phase.at < |s.history| - 1 && s.calls[id].attempts > 1
             && s.history[|s.history| - 1].Some? && s.history[|s.history| - 1].value.uid == s.calls[id].uid
             && NoEntry(s.history[|s.history| - 1].value.nats, s.calls[id].family)
    ensures var s := Run(actions);
            var s' := Run(actions + [Patch(id)] + [Read(id, |s.history| - 1)] + [Check(id)] + [Patch(id)]);
            var o := s.history[|s.history| - 1].value;
            && s'.history == s.history + [Some(Object(o.uid, o.nats + [NAT(s.calls[id].family, s.calls[id].claimRef)]))]
            && id in s'.calls && s'.calls[id].phase == Succeeded(|s.history|)
  {
    hide *;
    PatchDecides(actions, id);
    var last := |Run(actions).history| - 1;
    ReadGets(actions + [Patch(id)], id, last);
    CheckAndPatch(actions + [Patch(id)] + [Read(id, last)], id);
  }
}
