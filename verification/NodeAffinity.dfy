/** Required node affinity and the pinning of daemon instances: internal/nodeaffinity, internal/controllers/util.go. */
module NodeAffinity {
  import opened Core
  import opened Cluster

  /** The only field a node is matched by, metadata.name. */
  const METADATA_NAME: Name := 1

  /** extractNodeFields: a node with an empty name has no fields at all. */
  function FieldValue(node: Node, key: Name): Name {
    if key == METADATA_NAME then node.name else EMPTY
  }

  predicate EmptyTerm(term: NodeTerm) {
    term.matchLabels.NoLabels? && term.matchFields == []
  }

  ghost predicate WellFormed(term: NodeTerm) {
    && !term.matchLabels.Unparsable?
    && (forall r | r in term.matchFields :: !r.operator.OtherOperator? && |r.values| == 1)
  }

  ghost predicate FieldHolds(r: Requirement, node: Node)
    requires |r.values| == 1
  {
    if r.operator.In? then FieldValue(node, r.key) == r.values[0] else FieldValue(node, r.key) != r.values[0]
  }

  /** A term without errors matches when its labels and, for a node with fields, its fields do. */
  ghost predicate TermMatches(term: NodeTerm, node: Node) {
    && !EmptyTerm(term) && WellFormed(term)
    && (term.matchLabels.Parsed? ==> Matches(term.matchLabels.selector, node.labels))
    && (node.name != EMPTY ==> forall r | r in term.matchFields :: FieldHolds(r, node))
  }

  /** GetRequiredNodeAffinity and Match: no required selector admits every node, an empty one admits none. */
  ghost predicate Admits(affinity: Option<Affinity>, node: Node) {
    affinity.Some? && affinity.value.nodeAffinity.Some? && affinity.value.nodeAffinity.value.required.Some?
    ==> exists t :: t in affinity.value.nodeAffinity.value.required.value && TermMatches(t, node)
  }

  // ---- Compiling and matching, term by term ----

  datatype FieldTest = Equal(key: Name, value: Name) | NotEqual(key: Name, value: Name)
  datatype CompiledTerm = CompiledTerm(labels: Option<Selector>, fields: Option<seq<FieldTest>>, errors: nat)

  predicate Passes(test: FieldTest, node: Node) {
    match test
    case Equal(k, v) => FieldValue(node, k) == v
    case NotEqual(k, v) => FieldValue(node, k) != v
  }

  ghost predicate Compiled(term: NodeTerm, c: CompiledTerm) {
    && (c.errors == 0 <==> WellFormed(term))
    && (c.errors == 0 ==>
          && c.labels == (if term.matchLabels.Parsed? then Some(term.matchLabels.selector) else None)
          && (c.fields.Some? <==> term.matchFields != [])
          && (c.fields.Some? ==> |c.fields.value| == |term.matchFields| && forall i | 0 <= i < |term.matchFields| ::
                c.fields.value[i] == (if term.matchFields[i].operator.In?
                                      then Equal(term.matchFields[i].key, term.matchFields[i].values[0])
                                      else NotEqual(term.matchFields[i].key, term.matchFields[i].values[0]))))
  }

  /** newNodeSelectorTerm with the field-selector compilation. */
  method Compile(term: NodeTerm) returns (c: CompiledTerm)
    ensures Compiled(term, c)
  {
    var errors := if term.matchLabels.Unparsable? then 1 else 0;
    var tests: seq<FieldTest> := [];
    for i := 0 to |term.matchFields|
      invariant errors == 0 <==>
        (!term.matchLabels.Unparsable?
         && forall j | 0 <= j < i :: !term.matchFields[j].operator.OtherOperator? && |term.matchFields[j].values| == 1)
      invariant errors == 0 ==> |tests| == i && forall j | 0 <= j < i ::
                  tests[j] == (if term.matchFields[j].operator.In?
                               then Equal(term.matchFields[j].key, term.matchFields[j].values[0])
                               else NotEqual(term.matchFields[j].key, term.matchFields[j].values[0]))
    {
      var r := term.matchFields[i];
      match r.operator
      case In =>
        if |r.values| != 1 {
          errors := errors + 1;
        } else {
          tests := tests + [Equal(r.key, r.values[0])];
        }
      case NotIn =>
        if |r.values| != 1 {
          errors := errors + 1;
        } else {
          tests := tests + [NotEqual(r.key, r.values[0])];
        }
      case OtherOperator =>
        errors := errors + 1;
    }
    assert forall r | r in term.matchFields :: exists j :: 0 <= j < |term.matchFields| && term.matchFields[j] == r;
    c := CompiledTerm(if term.matchLabels.Parsed? then Some(term.matchLabels.selector) else None,
                      if term.matchFields == [] then None else Some(tests), errors);
  }

  predicate CompiledMatches(c: CompiledTerm, node: Node) {
    && c.errors == 0
    && (c.labels.Some? ==> Matches(c.labels.value, node.labels))
    && (c.fields.Some? && node.name != EMPTY ==> forall i | 0 <= i < |c.fields.value| :: Passes(c.fields.value[i], node))
  }

  /** Matching the compiled form decides the declarative meaning. */
  lemma CompiledMatchesIff(term: NodeTerm, c: CompiledTerm, node: Node)
    requires Compiled(term, c) && !EmptyTerm(term)
    ensures CompiledMatches(c, node) <==> TermMatches(term, node)
  {
    if c.errors == 0 && c.fields.Some? {
      forall i | 0 <= i < |term.matchFields|
        ensures Passes(c.fields.value[i], node) <==> FieldHolds(term.matchFields[i], node)
      {
        assert term.matchFields[i] in term.matchFields;
      }
      forall r | r in term.matchFields && CompiledMatches(c, node) && node.name != EMPTY ensures FieldHolds(r, node) {
        var i :| 0 <= i < |term.matchFields| && term.matchFields[i] == r;
        assert Passes(c.fields.value[i], node);
      }
      assert forall i | 0 <= i < |term.matchFields| :: term.matchFields[i] in term.matchFields;
    }
  }

  /** NewLazyErrorNodeSelector and LazyErrorNodeSelector.Match: empty terms are skipped, an error in one term does not stop the rest. */
  method MatchSelector(terms: seq<NodeTerm>, node: Node) returns (matched: bool, failed: bool)
    ensures matched <==> exists t :: t in terms && TermMatches(t, node)
    ensures failed <==> !matched && exists t :: t in terms && !EmptyTerm(t) && !WellFormed(t)
  {
    matched, failed := false, false;
    for i := 0 to |terms|
      invariant !matched && forall t | t in terms[..i] :: !TermMatches(t, node)
      invariant failed <==> exists t :: t in terms[..i] && !EmptyTerm(t) && !WellFormed(t)
    {
      assert terms[..i + 1] == terms[..i] + [terms[i]];
      if EmptyTerm(terms[i]) {
        continue;
      }
      var c := Compile(terms[i]);
      CompiledMatchesIff(terms[i], c, node);
      if c.errors > 0 {
        failed := true;
        assert terms[i] in terms[..i + 1] && !WellFormed(terms[i]);
        continue;
      }
      if CompiledMatches(c, node) {
        assert terms[i] in terms;
        return true, false;
      }
    }
    assert terms[..|terms|] == terms;
  }

  // ---- Pinning an instance to a node ----

  function NameTerm(name: Name): NodeTerm {
    NodeTerm(NoLabels, [Requirement(METADATA_NAME, In, [name])])
  }

  /** ReplaceDaemonSetInstanceNodeNameNodeAffinity; the anti-affinity is left alone. */
  function Pin(affinity: Option<Affinity>, name: Name): Affinity {
    if affinity.None? then Affinity(Some(NodeAffinity(Some([NameTerm(name)]))), None)
    else if affinity.value.nodeAffinity.None? then affinity.value.(nodeAffinity := Some(NodeAffinity(Some([NameTerm(name)]))))
    else affinity.value.(nodeAffinity := Some(affinity.value.nodeAffinity.value.(required := Some([NameTerm(name)]))))
  }

  /** The first name requirement of the terms: its only value, None inside if it is not unique. */
  function FirstName(reqs: seq<Requirement>): Option<Option<Name>> {
    if reqs == [] then None
    else if reqs[0].key == METADATA_NAME && reqs[0].operator.In? then
      Some(if |reqs[0].values| == 1 then Some(reqs[0].values[0]) else None)
    else FirstName(reqs[1..])
  }

  function NameInTerms(terms: seq<NodeTerm>): Option<Name> {
    if terms == [] then None
    else
      var first := FirstName(terms[0].matchFields);
      if first.Some? then first.value else NameInTerms(terms[1..])
  }

  /** GetTargetNodeName; None stands for its errors. */
  function TargetNodeName(inst: Instance): Option<Name> {
    if inst.nodeRef.Some? then inst.nodeRef
    else if inst.affinity.None? || inst.affinity.value.nodeAffinity.None? || inst.affinity.value.nodeAffinity.value.required.None? then None
    else NameInTerms(inst.affinity.value.nodeAffinity.value.required.value)
  }

  /**
   * A pinned affinity admits exactly the node of that name, whatever affinity it replaced. A node without
   * a name has no fields to test and would be admitted too.
   */
  lemma PinnedAdmits(affinity: Option<Affinity>, name: Name, node: Node)
    ensures Admits(Some(Pin(affinity, name)), node) <==> node.name == name || node.name == EMPTY
    ensures Pin(affinity, name).antiAffinity == if affinity.Some? then affinity.value.antiAffinity else None
  {
    var t := NameTerm(name);
    var terms := Pin(affinity, name).nodeAffinity.value.required.value;
    assert terms == [t];
    var r := Requirement(METADATA_NAME, In, [name]);
    assert t.matchFields == [r];
    assert TermMatches(t, node) <==> node.name == name || node.name == EMPTY;
    if TermMatches(t, node) {
      assert t in terms;
    }
  }

  /** The target of a pinned instance is its node, before and after it is bound there. */
  lemma PinnedTarget(inst: Instance, affinity: Option<Affinity>, name: Name)
    requires inst.affinity == Some(Pin(affinity, name)) && (inst.nodeRef.Some? ==> inst.nodeRef.value == name)
    ensures TargetNodeName(inst) == Some(name)
    ensures TargetNodeName(inst.(nodeRef := None)) == Some(name) && TargetNodeName(inst.(nodeRef := Some(name))) == Some(name)
  {
    assert NameInTerms([NameTerm(name)]) == Some(name);
  }
}
