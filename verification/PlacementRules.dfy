/**
 * The scheduler's rules read off the instances' own fields: what the filters of
 * internal/controllers/scheduler_controller.go, internal/nodeaffinity and GetTargetNodeName of
 * internal/controllers/util.go decide, said without the functions they are modelled by.
 */
module PlacementRules {
  import opened Core
  import opened Cluster
  import opened NodeAffinity
  import opened AntiAffinity
  import opened TopologySpread
  import opened Scheduling

  // ---- Anti-affinity ----

  /** The required anti-affinity term at `i` of `a` has a selector that accepts `b`, in a domain both nodes share. */
  ghost predicate TermExcludes(a: Instance, i: int, aLabels: Labels, b: Instance, bLabels: Labels) {
    && a.affinity.Some? && a.affinity.value.antiAffinity.Some? && 0 <= i < |a.affinity.value.antiAffinity.value|
    && var term := a.affinity.value.antiAffinity.value[i];
       && term.selector.Some? && b.labels in term.selector.value.accepts
       && term.topologyKey in aLabels && term.topologyKey in bLabels && aLabels[term.topologyKey] == bLabels[term.topologyKey]
  }

  /** Some term of the incoming instance excludes an instance of its namespace, or some term of one excludes it. */
  ghost predicate Excluded(inst: Instance, node: Node, nodes: seq<NodeInfo>) {
    exists j, uid, i :: 0 <= j < |nodes| && uid in nodes[j].instances && nodes[j].instances[uid].namespace == inst.namespace
                        && (|| TermExcludes(inst, i, node.labels, nodes[j].instances[uid], nodes[j].node.labels)
                            || TermExcludes(nodes[j].instances[uid], i, nodes[j].node.labels, inst, node.labels))
  }

  lemma ForbidsIff(a: Instance, aNode: Node, b: Instance, bNode: Node)
    ensures Forbids(a, aNode, b, bNode) <==> a.namespace == b.namespace && exists i :: TermExcludes(a, i, aNode.labels, b, bNode.labels)
  {
    if Forbids(a, aNode, b, bNode) {
      var t :| t in Terms(a) && t.selector.Some? && Matches(t.selector.value, b.labels) && SharedDomain(t.topologyKey, aNode, bNode);
      var i :| 0 <= i < |Terms(a)| && Terms(a)[i] == t;
      assert TermExcludes(a, i, aNode.labels, b, bNode.labels);
    }
    if i :| TermExcludes(a, i, aNode.labels, b, bNode.labels) {
      var t := a.affinity.value.antiAffinity.value[i];
      assert t in Terms(a) && SharedDomain(t.topologyKey, aNode, bNode);
    }
  }

  /** A node passes the anti-affinity filter if and only if no term of either side, at any index, excludes the other. */
  lemma AntiAffinityIff(inst: Instance, nodes: seq<NodeInfo>, node: Node)
    ensures AntiAffinityPass(inst, nodes, node) <==> !Excluded(inst, node, nodes)
  {
    hide Forbids;
    hide TermExcludes;
    forall j, uid | 0 <= j < |nodes| && uid in nodes[j].instances
      ensures Compatible(inst, node, nodes[j].instances[uid], nodes[j].node)
         <==> !(nodes[j].instances[uid].namespace == inst.namespace
                && exists i :: || TermExcludes(inst, i, node.labels, nodes[j].instances[uid], nodes[j].node.labels)
                               || TermExcludes(nodes[j].instances[uid], i, nodes[j].node.labels, inst, node.labels))
    {
      ForbidsIff(inst, node, nodes[j].instances[uid], nodes[j].node);
      ForbidsIff(nodes[j].instances[uid], nodes[j].node, inst, node);
    }
  }

  /** The required term at `i` has a selector that does not parse. */
  ghost predicate BadTerm(a: Instance, i: int) {
    && a.affinity.Some? && a.affinity.value.antiAffinity.Some? && 0 <= i < |a.affinity.value.antiAffinity.value|
    && a.affinity.value.antiAffinity.value[i].selector.None?
  }

  /** Both are of one namespace and one of them has a term that does not parse. */
  ghost predicate BadPair(inst: Instance, e: Instance) {
    e.namespace == inst.namespace && exists i :: BadTerm(inst, i) || BadTerm(e, i)
  }

  /** The filter fails if and only if an instance of the namespace is there and it or the incoming one has a term that does not parse. */
  lemma MalformedIff(inst: Instance, nodes: seq<NodeInfo>)
    ensures Malformed(inst, nodes) <==> exists j, uid :: 0 <= j < |nodes| && uid in nodes[j].instances && BadPair(inst, nodes[j].instances[uid])
  {
    hide BadPair;
    hide BadOn;
    forall j | 0 <= j < |nodes|
      ensures BadOn(ExistingTerms, inst, nodes[j], nodes[j].instances.Keys) || BadOn(IncomingTerms, inst, nodes[j], nodes[j].instances.Keys)
         <==> exists uid :: uid in nodes[j].instances && BadPair(inst, nodes[j].instances[uid])
    {
      BadNodeIff(inst, nodes[j]);
    }
  }

  lemma BadNodeIff(inst: Instance, n: NodeInfo)
    ensures BadOn(ExistingTerms, inst, n, n.instances.Keys) || BadOn(IncomingTerms, inst, n, n.instances.Keys)
       <==> exists uid :: uid in n.instances && BadPair(inst, n.instances[uid])
  {
    hide AntiAffinity.Unparsable;
    hide BadTerm;
    UnparsableIff(inst);
    forall uid | uid in n.instances
      ensures BadPair(inst, n.instances[uid])
         <==> n.instances[uid].namespace == inst.namespace
              && (AntiAffinity.Unparsable(Terms(inst)) || AntiAffinity.Unparsable(Terms(n.instances[uid])))
    {
      UnparsableIff(n.instances[uid]);
    }
    hide BadPair;
  }

  lemma UnparsableIff(a: Instance)
    ensures AntiAffinity.Unparsable(Terms(a)) <==> exists i :: BadTerm(a, i)
  {
    if i :| 0 <= i < |Terms(a)| && Terms(a)[i].selector.None? {
      assert BadTerm(a, i);
    }
  }

  // ---- Node affinity ----

  /** The field requirement at `i` is `In` or `NotIn` one value, and, for a node with a name, says so of its name. */
  ghost predicate FieldOk(r: Requirement, node: Node) {
    && |r.values| == 1 && (r.operator.In? || r.operator.NotIn?)
    && (node.name != 0 ==> (r.operator.In? <==> (if r.key == 1 then node.name else 0) == r.values[0]))
  }

  ghost predicate TermHolds(term: NodeTerm, node: Node) {
    && (term.matchLabels.Parsed? || (term.matchLabels.NoLabels? && |term.matchFields| > 0))
    && (term.matchLabels.Parsed? ==> node.labels in term.matchLabels.selector.accepts)
    && forall i | 0 <= i < |term.matchFields| :: FieldOk(term.matchFields[i], node)
  }

  lemma TermHoldsIff(term: NodeTerm, node: Node)
    ensures TermMatches(term, node) <==> TermHolds(term, node)
  {
    forall i | 0 <= i < |term.matchFields| ensures term.matchFields[i] in term.matchFields {
    }
    if TermHolds(term, node) {
      forall r | r in term.matchFields ensures FieldOk(r, node) {
        var i :| 0 <= i < |term.matchFields| && term.matchFields[i] == r;
      }
    }
  }

  /** The terms of the required node affinity, if there are any. */
  ghost predicate Requires(affinity: Option<Affinity>, terms: seq<NodeTerm>) {
    affinity.Some? && affinity.value.nodeAffinity.Some? && affinity.value.nodeAffinity.value.required == Some(terms)
  }

  /** A required node affinity admits the nodes for which one of its terms holds; without one, every node is admitted. */
  lemma AdmitsIff(affinity: Option<Affinity>, node: Node)
    ensures Admits(affinity, node) <==> forall terms: seq<NodeTerm> | Requires(affinity, terms) :: exists i :: 0 <= i < |terms| && TermHolds(terms[i], node)
  {
    hide TermMatches;
    hide TermHolds;
    forall t: NodeTerm ensures TermMatches(t, node) <==> TermHolds(t, node) {
      TermHoldsIff(t, node);
    }
    if affinity.Some? && affinity.value.nodeAffinity.Some? && affinity.value.nodeAffinity.value.required.Some? {
      var terms := affinity.value.nodeAffinity.value.required.value;
      assert Requires(affinity, terms);
      if i :| 0 <= i < |terms| && TermHolds(terms[i], node) {
        assert terms[i] in terms;
      }
      if t :| t in terms && TermMatches(t, node) {
        var i :| 0 <= i < |terms| && terms[i] == t;
        assert TermHolds(terms[i], node);
      }
    }
  }

  // ---- The target of an instance ----

  ghost predicate NamesNode(r: Requirement) {
    r.key == 1 && r.operator.In?
  }

  /** The first requirement of a node name is the one at `j` of the term at `i`. */
  ghost predicate FirstNameAt(terms: seq<NodeTerm>, i: int, j: int) {
    && 0 <= i < |terms| && 0 <= j < |terms[i].matchFields| && NamesNode(terms[i].matchFields[j])
    && (forall k, l | 0 <= k < i && 0 <= l < |terms[k].matchFields| :: !NamesNode(terms[k].matchFields[l]))
    && (forall l | 0 <= l < j :: !NamesNode(terms[i].matchFields[l]))
  }

  lemma {:induction false} FirstNameIs(reqs: seq<Requirement>)
    ensures FirstName(reqs).None? <==> forall j | 0 <= j < |reqs| :: !NamesNode(reqs[j])
    ensures forall j | 0 <= j < |reqs| && NamesNode(reqs[j]) && (forall l | 0 <= l < j :: !NamesNode(reqs[l])) ::
      FirstName(reqs) == Some(if |reqs[j].values| == 1 then Some(reqs[j].values[0]) else None)
  {
    if reqs != [] {
      var rest := reqs[1..];
      FirstNameIs(rest);
      assert forall j | 1 <= j < |reqs| :: reqs[j] == rest[j - 1];
      forall j | 0 <= j < |reqs| && NamesNode(reqs[j]) && (forall l | 0 <= l < j :: !NamesNode(reqs[l]))
        ensures FirstName(reqs) == Some(if |reqs[j].values| == 1 then Some(reqs[j].values[0]) else None)
      {
        if j > 0 {
          assert rest[j - 1] == reqs[j] && forall l | 0 <= l < j - 1 :: rest[l] == reqs[l + 1];
        }
      }
    }
  }

  lemma {:induction false} NameInTermsIs(terms: seq<NodeTerm>)
    ensures forall i, j | FirstNameAt(terms, i, j) ::
      NameInTerms(terms) == if |terms[i].matchFields[j].values| == 1 then Some(terms[i].matchFields[j].values[0]) else None
    ensures (forall i, j :: !FirstNameAt(terms, i, j)) ==> NameInTerms(terms) == None
  {
    if terms != [] {
      var rest := terms[1..];
      NameInTermsIs(rest);
      FirstNameIs(terms[0].matchFields);
      assert forall i | 1 <= i < |terms| :: terms[i] == rest[i - 1];
      forall i, j | FirstNameAt(terms, i, j)
        ensures NameInTerms(terms) == if |terms[i].matchFields[j].values| == 1 then Some(terms[i].matchFields[j].values[0]) else None
      {
        if i > 0 {
          assert FirstNameAt(rest, i - 1, j);
        }
      }
      if FirstName(terms[0].matchFields).Some? {
        var j := FirstIndex(terms[0].matchFields);
        assert FirstNameAt(terms, 0, j);
      } else if i, j :| FirstNameAt(rest, i, j) {
        assert FirstNameAt(terms, i + 1, j);
      }
    }
  }

  lemma FirstIndex(reqs: seq<Requirement>) returns (j: nat)
    requires exists k :: 0 <= k < |reqs| && NamesNode(reqs[k])
    ensures j < |reqs| && NamesNode(reqs[j]) && forall l | 0 <= l < j :: !NamesNode(reqs[l])
  {
    if NamesNode(reqs[0]) {
      j := 0;
    } else {
      var k :| 0 <= k < |reqs| && NamesNode(reqs[k]);
      assert reqs[1..][k - 1] == reqs[k];
      var i := FirstIndex(reqs[1..]);
      j := i + 1;
      assert forall l | 1 <= l < j :: reqs[l] == reqs[1..][l - 1];
    }
  }

  /** The target: the node it is bound to; else the only value of the first requirement of a node name in its required affinity. */
  lemma TargetIff(inst: Instance)
    ensures inst.nodeRef.Some? ==> TargetNodeName(inst) == inst.nodeRef
    ensures inst.nodeRef.None? && (forall terms: seq<NodeTerm> :: !Requires(inst.affinity, terms)) ==> TargetNodeName(inst) == None
    ensures forall terms: seq<NodeTerm>, i, j | inst.nodeRef.None? && Requires(inst.affinity, terms) && FirstNameAt(terms, i, j) ::
      TargetNodeName(inst) == if |terms[i].matchFields[j].values| == 1 then Some(terms[i].matchFields[j].values[0]) else None
    ensures forall terms: seq<NodeTerm> | inst.nodeRef.None? && Requires(inst.affinity, terms) && (forall i, j :: !FirstNameAt(terms, i, j)) ::
      TargetNodeName(inst) == None
  {
    hide NameInTerms;
    hide FirstNameAt;
    if inst.affinity.Some? && inst.affinity.value.nodeAffinity.Some? && inst.affinity.value.nodeAffinity.value.required.Some? {
      NameInTermsIs(inst.affinity.value.nodeAffinity.value.required.value);
      assert Requires(inst.affinity, inst.affinity.value.nodeAffinity.value.required.value);
    }
  }

  // ---- Topology spread ----

  ghost predicate HasAllKeys(labels: Labels, cs: seq<SpreadConstraint>) {
    forall l | 0 <= l < |cs| :: cs[l].topologyKey in labels
  }

  /** The instance counts for the constraint: not being deleted, of the namespace, and accepted by a selector with requirements. */
  ghost predicate CountsFor(e: Instance, c: SpreadConstraint, namespace: Name) {
    !e.deleting && e.namespace == namespace && c.selector.Some? && !c.selector.value.empty && e.labels in c.selector.value.accepts
  }

  /** The constraints `l` below `m` of the key and the instances of a node that count for them. */
  ghost function NodeHits(instances: map<UID, Instance>, cs: seq<SpreadConstraint>, m: nat, namespace: Name, key: Name): set<(int, UID)>
    requires m <= |cs|
  {
    set l, uid | 0 <= l < m && uid in instances && cs[l].topologyKey == key && CountsFor(instances[uid], cs[l], namespace) :: (l, uid)
  }

  /** What counts in the domain: positions of nodes with all keys and the value, constraints of the key, and instances that count. */
  ghost function Hits(nodes: seq<NodeInfo>, cs: seq<SpreadConstraint>, namespace: Name, key: Name, value: Name): set<(int, int, UID)> {
    set j, l, uid | 0 <= j < |nodes| && 0 <= l < |cs| && uid in nodes[j].instances
                    && HasAllKeys(nodes[j].node.labels, cs) && key in nodes[j].node.labels && nodes[j].node.labels[key] == value
                    && cs[l].topologyKey == key && CountsFor(nodes[j].instances[uid], cs[l], namespace) :: (j, l, uid)
  }

  ghost function Tagged(tag: int, uids: set<UID>): set<(int, UID)> {
    set uid | uid in uids :: (tag, uid)
  }

  lemma {:induction false} CardTagged(tag: int, uids: set<UID>)
    ensures |Tagged(tag, uids)| == |uids|
  {
    if uids != {} {
      var u :| u in uids;
      CardTagged(tag, uids - {u});
      assert (tag, u) !in Tagged(tag, uids - {u});
      assert Tagged(tag, uids) == Tagged(tag, uids - {u}) + {(tag, u)};
    }
  }

  lemma {:induction false} CardPlaced(j: int, hits: set<(int, UID)>)
    ensures |set h | h in hits :: (j, h.0, h.1)| == |hits|
  {
    var placed := set h | h in hits :: (j, h.0, h.1);
    if hits != {} {
      var x :| x in hits;
      CardPlaced(j, hits - {x});
      assert placed == (set h | h in hits - {x} :: (j, h.0, h.1)) + {(j, x.0, x.1)};
      assert (j, x.0, x.1) !in set h | h in hits - {x} :: (j, h.0, h.1);
    } else {
      assert placed == {};
    }
  }

  lemma CountIs(n: NodeInfo, c: SpreadConstraint, namespace: Name)
    requires c.selector.Some?
    ensures Count(n, Parse(c), namespace) == |CountingUids(n.instances, c, namespace)|
  {
    var uids := CountingUids(n.instances, c, namespace);
    if c.selector.value.empty {
      assert uids == {};
    } else {
      assert uids == CountedUids(n.instances, c.selector.value, namespace);
    }
  }

  ghost function CountingUids(instances: map<UID, Instance>, c: SpreadConstraint, namespace: Name): set<UID> {
    set uid | uid in instances && CountsFor(instances[uid], c, namespace)
  }

  lemma NodeHitsStep(instances: map<UID, Instance>, cs: seq<SpreadConstraint>, m: nat, namespace: Name, key: Name)
    requires 0 < m <= |cs|
    ensures NodeHits(instances, cs, m, namespace, key)
         == NodeHits(instances, cs, m - 1, namespace, key)
            + (if cs[m - 1].topologyKey == key then Tagged(m - 1, CountingUids(instances, cs[m - 1], namespace)) else {})
    ensures NodeHits(instances, cs, m - 1, namespace, key) !! Tagged(m - 1, CountingUids(instances, cs[m - 1], namespace))
  {
    hide CountsFor;
    var c := cs[m - 1];
    var last := Tagged(m - 1, CountingUids(instances, c, namespace));
    forall l, uid ensures (l, uid) in last <==> l == m - 1 && uid in CountingUids(instances, c, namespace) {
      if l == m - 1 && uid in CountingUids(instances, c, namespace) {
        assert (m - 1, uid) in last;
      }
    }
    forall h: (int, UID) ensures h in NodeHits(instances, cs, m, namespace, key)
        <==> h in NodeHits(instances, cs, m - 1, namespace, key) || (c.topologyKey == key && h in last) {
      assert h == (h.0, h.1);
    }
  }

  lemma {:induction false} NodeCountIs(n: NodeInfo, cs: seq<SpreadConstraint>, m: nat, namespace: Name, key: Name)
    requires Parses(cs) && m <= |cs|
    ensures NodeCount(n, ParseAll(cs)[..m], namespace, key) == |NodeHits(n.instances, cs, m, namespace, key)|
  {
    hide CountsFor;
    hide Count;
    hide NodeHits;
    hide Tagged;
    hide CountingUids;
    if m == 0 {
      NoNodeHits(n.instances, cs, namespace, key);
    } else {
      NodeCountIs(n, cs, m - 1, namespace, key);
      assert ParseAll(cs)[..m][..m - 1] == ParseAll(cs)[..m - 1];
      CountIs(n, cs[m - 1], namespace);
      CardTagged(m - 1, CountingUids(n.instances, cs[m - 1], namespace));
      NodeHitsStep(n.instances, cs, m, namespace, key);
    }
  }

  lemma NoNodeHits(instances: map<UID, Instance>, cs: seq<SpreadConstraint>, namespace: Name, key: Name)
    ensures NodeHits(instances, cs, 0, namespace, key) == {}
  {
  }

  lemma HitsAppend(nodes: seq<NodeInfo>, n: NodeInfo, cs: seq<SpreadConstraint>, namespace: Name, key: Name, value: Name)
    ensures var here := set h | h in NodeHits(n.instances, cs, |cs|, namespace, key) :: (|nodes|, h.0, h.1);
            && Hits(nodes + [n], cs, namespace, key, value)
               == Hits(nodes, cs, namespace, key, value)
                  + (if HasAllKeys(n.node.labels, cs) && key in n.node.labels && n.node.labels[key] == value then here else {})
            && Hits(nodes, cs, namespace, key, value) !! here
  {
    hide CountsFor;
    hide HasAllKeys;
    var all := nodes + [n];
    var here := set h | h in NodeHits(n.instances, cs, |cs|, namespace, key) :: (|nodes|, h.0, h.1);
    var counts := HasAllKeys(n.node.labels, cs) && key in n.node.labels && n.node.labels[key] == value;
    assert all[|nodes|] == n && forall j | 0 <= j < |nodes| :: all[j] == nodes[j];
    forall t: (int, int, UID) | t in here ensures t.0 == |nodes| && (t.1, t.2) in NodeHits(n.instances, cs, |cs|, namespace, key) {
    }
    forall l, uid | (l, uid) in NodeHits(n.instances, cs, |cs|, namespace, key) ensures (|nodes|, l, uid) in here {
      assert (l, uid).0 == l && (l, uid).1 == uid;
    }
    forall t: (int, int, UID) ensures t in Hits(all, cs, namespace, key, value)
        <==> t in Hits(nodes, cs, namespace, key, value) || (counts && t in here) {
    }
  }

  /** The count kept for a domain is the number of hits in it, constraints that share the key counted each. */
  lemma {:induction false} DomainCountIsHits(nodes: seq<NodeInfo>, cs: seq<SpreadConstraint>, namespace: Name, key: Name, value: Name)
    requires Parses(cs)
    ensures DomainCount(nodes, ParseAll(cs), namespace, TopologyPair(key, value)) == |Hits(nodes, cs, namespace, key, value)|
  {
    hide NodeHits;
    hide Hits;
    hide NodeCount;
    if nodes == [] {
      NoHits(cs, namespace, key, value);
    } else {
      var m := |nodes| - 1;
      var init, n := nodes[..m], nodes[m];
      assert nodes == init + [n];
      DomainCountIsHits(init, cs, namespace, key, value);
      HitsAppend(init, n, cs, namespace, key, value);
      NodeCountIs(n, cs, |cs|, namespace, key);
      assert ParseAll(cs)[..|cs|] == ParseAll(cs);
      CardPlaced(m, NodeHits(n.instances, cs, |cs|, namespace, key));
      KeysIff(n, cs);
    }
  }

  lemma NoHits(cs: seq<SpreadConstraint>, namespace: Name, key: Name, value: Name)
    ensures Hits([], cs, namespace, key, value) == {}
  {
  }

  lemma KeysIff(n: NodeInfo, cs: seq<SpreadConstraint>)
    requires Parses(cs)
    ensures Eligible(n, ParseAll(cs)) <==> HasAllKeys(n.node.labels, cs)
  {
    forall l | 0 <= l < |cs| ensures ParseAll(cs)[l].topologyKey == cs[l].topologyKey {
    }
  }

  /** Placing the instance in the node's domain keeps it within maxSkew of the domain of the other node, for the constraint. */
  ghost predicate Within(inst: Instance, nodes: seq<NodeInfo>, cs: seq<SpreadConstraint>, c: SpreadConstraint, here: Labels, there: Labels) {
    && c.topologyKey in here && c.topologyKey in there && c.selector.Some?
    && |Hits(nodes, cs, inst.namespace, c.topologyKey, here[c.topologyKey])| + (if inst.labels in c.selector.value.accepts then 1 else 0)
       - |Hits(nodes, cs, inst.namespace, c.topologyKey, there[c.topologyKey])| <= c.maxSkew
  }

  /**
   * A node passes the spread filter if and only if the instance has no constraints, or all their selectors
   * parse, the node has all the keys, and for every constraint its domain stays within maxSkew of the domain
   * of every node that has all the keys.
   */
  lemma SpreadIff(inst: Instance, nodes: seq<NodeInfo>, i: nat)
    requires i < |nodes|
    ensures inst.spread.None? ==> SpreadPass(inst, nodes, i)
    ensures forall cs: seq<SpreadConstraint> | inst.spread == Some(cs) ::
      SpreadPass(inst, nodes, i)
      <==> && (forall l | 0 <= l < |cs| :: cs[l].selector.Some?)
           && HasAllKeys(nodes[i].node.labels, cs)
           && (forall l, j | 0 <= l < |cs| && 0 <= j < |nodes| && HasAllKeys(nodes[j].node.labels, cs) ::
                 Within(inst, nodes, cs, cs[l], nodes[i].node.labels, nodes[j].node.labels))
  {
    if inst.spread.Some? && Parses(inst.spread.value) {
      TopologyIff(inst, nodes, inst.spread.value, i);
    }
    hide TopologyPass;
    hide Within;
    hide HasAllKeys;
  }

  lemma TopologyIff(inst: Instance, nodes: seq<NodeInfo>, cs: seq<SpreadConstraint>, i: nat)
    requires i < |nodes| && Parses(cs)
    ensures TopologyPass(inst, nodes, ParseAll(cs), i)
       <==> && HasAllKeys(nodes[i].node.labels, cs)
            && (forall l, j | 0 <= l < |cs| && 0 <= j < |nodes| && HasAllKeys(nodes[j].node.labels, cs) ::
                  Within(inst, nodes, cs, cs[l], nodes[i].node.labels, nodes[j].node.labels))
  {
    hide DomainCount;
    hide Hits;
    hide HasAllKeys;
    hide Within;
    var parsed := ParseAll(cs);
    forall j | 0 <= j < |nodes| ensures Eligible(nodes[j], parsed) <==> HasAllKeys(nodes[j].node.labels, cs) {
      KeysIff(nodes[j], cs);
    }
    if Eligible(nodes[i], parsed) {
      forall l, j | 0 <= l < |cs| && 0 <= j < |nodes| && Eligible(nodes[j], parsed)
        ensures Within(inst, nodes, cs, cs[l], nodes[i].node.labels, nodes[j].node.labels)
           <==> DomainCount(nodes, parsed, inst.namespace, Domain(nodes[i], parsed[l])) + Self(inst, parsed[l])
                - DomainCount(nodes, parsed, inst.namespace, Domain(nodes[j], parsed[l])) <= parsed[l].maxSkew
      {
        WithinIff(inst, nodes, cs, l, i, j);
      }
    }
  }

  lemma WithinIff(inst: Instance, nodes: seq<NodeInfo>, cs: seq<SpreadConstraint>, l: nat, i: nat, j: nat)
    requires Parses(cs) && l < |cs| && i < |nodes| && j < |nodes| && Eligible(nodes[i], ParseAll(cs)) && Eligible(nodes[j], ParseAll(cs))
    ensures Within(inst, nodes, cs, cs[l], nodes[i].node.labels, nodes[j].node.labels)
       <==> DomainCount(nodes, ParseAll(cs), inst.namespace, Domain(nodes[i], ParseAll(cs)[l])) + Self(inst, ParseAll(cs)[l])
            - DomainCount(nodes, ParseAll(cs), inst.namespace, Domain(nodes[j], ParseAll(cs)[l])) <= ParseAll(cs)[l].maxSkew
  {
    hide DomainCount;
    hide Hits;
    var key := cs[l].topologyKey;
    assert ParseAll(cs)[l].topologyKey == key;
    DomainCountIsHits(nodes, cs, inst.namespace, key, nodes[i].node.labels[key]);
    DomainCountIsHits(nodes, cs, inst.namespace, key, nodes[j].node.labels[key]);
  }

  // ---- All three together ----

  ghost predicate AffinityAdmits(inst: Instance, node: Node) {
    forall terms: seq<NodeTerm> | Requires(inst.affinity, terms) :: exists i :: 0 <= i < |terms| && TermHolds(terms[i], node)
  }

  /** The node at `i` is admitted by the node affinity, and, for the second, also not excluded by anti-affinity. */
  ghost predicate AdmittedAt(inst: Instance, nodes: seq<NodeInfo>, i: int) {
    0 <= i < |nodes| && AffinityAdmits(inst, nodes[i].node)
  }

  ghost predicate FreeAt(inst: Instance, nodes: seq<NodeInfo>, i: int) {
    AdmittedAt(inst, nodes, i) && !Excluded(inst, nodes[i].node, nodes)
  }

  ghost predicate BadSpread(inst: Instance) {
    inst.spread.Some? && exists l :: 0 <= l < |inst.spread.value| && inst.spread.value[l].selector.None?
  }

  ghost predicate BadSomewhere(inst: Instance, nodes: seq<NodeInfo>) {
    exists j, uid :: 0 <= j < |nodes| && uid in nodes[j].instances && BadPair(inst, nodes[j].instances[uid])
  }

  /**
   * Scheduling fails if and only if some node is admitted and an anti-affinity term that has to be evaluated
   * does not parse, or some node is admitted and not excluded and a spread constraint does not parse.
   */
  lemma FailsIff(inst: Instance, nodes: seq<NodeInfo>)
    ensures Fails(inst, nodes)
       <==> || ((exists i :: AdmittedAt(inst, nodes, i)) && BadSomewhere(inst, nodes))
            || ((exists i :: FreeAt(inst, nodes, i)) && BadSpread(inst))
  {
    hide Admits;
    hide AntiAffinityPass;
    hide Malformed;
    hide Excluded;
    hide Requires;
    hide BadPair;
    MalformedIff(inst, nodes);
    forall i | 0 <= i < |nodes|
      ensures Admits(inst.affinity, nodes[i].node) <==> AdmittedAt(inst, nodes, i)
      ensures AntiAffinityPass(inst, nodes, nodes[i].node) <==> !Excluded(inst, nodes[i].node, nodes)
    {
      AdmitsIff(inst.affinity, nodes[i].node);
      AntiAffinityIff(inst, nodes, nodes[i].node);
    }
    hide AffinityAdmits;
    if i :| FreeAt(inst, nodes, i) {
      assert Admits(inst.affinity, nodes[i].node) && AntiAffinityPass(inst, nodes, nodes[i].node);
    }
    if i :| AdmittedAt(inst, nodes, i) {
      assert Admits(inst.affinity, nodes[i].node);
    }
    if Separable(inst, nodes) {
      var i :| 0 <= i < |nodes| && Admits(inst.affinity, nodes[i].node) && AntiAffinityPass(inst, nodes, nodes[i].node);
      assert FreeAt(inst, nodes, i);
    }
    if Admitted(inst, nodes) {
      var i :| 0 <= i < |nodes| && Admits(inst.affinity, nodes[i].node);
      assert AdmittedAt(inst, nodes, i);
    }
  }

  /** A node is a candidate if and only if it is admitted, not excluded, and passes the spread constraints. */
  lemma CandidateIff(inst: Instance, nodes: seq<NodeInfo>, i: nat)
    ensures Candidate(inst, nodes, i) <==> FreeAt(inst, nodes, i) && SpreadPass(inst, nodes, i)
  {
    hide Admits;
    hide AntiAffinityPass;
    hide Excluded;
    hide Requires;
    hide SpreadPass;
    if i < |nodes| {
      AdmitsIff(inst.affinity, nodes[i].node);
      AntiAffinityIff(inst, nodes, nodes[i].node);
    }
  }
}
