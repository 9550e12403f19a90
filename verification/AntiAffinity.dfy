/** Inter-instance anti-affinity by counting: internal/controllers/scheduler_controller.go. */
module AntiAffinity {
  import opened Core
  import opened Cluster

  datatype TopologyPair = TopologyPair(key: Name, value: Name)

  // ---- What anti-affinity means ----

  ghost predicate SharedDomain(key: Name, a: Node, b: Node) {
    key in a.labels && key in b.labels && a.labels[key] == b.labels[key]
  }

  /** A required term of `a` rules out `b` in its domain. */
  ghost predicate Forbids(a: Instance, aNode: Node, b: Instance, bNode: Node) {
    && a.namespace == b.namespace
    && exists t :: t in Terms(a) && t.selector.Some? && Matches(t.selector.value, b.labels) && SharedDomain(t.topologyKey, aNode, bNode)
  }

  /** Neither one's terms rule out the other. */
  ghost predicate Compatible(a: Instance, aNode: Node, b: Instance, bNode: Node) {
    !Forbids(a, aNode, b, bNode) && !Forbids(b, bNode, a, aNode)
  }

  // ---- Counting ----

  /** The domains of `labels` hit by terms whose selector accepts `target`. */
  ghost function Hit(terms: seq<AntiAffinityTerm>, target: Labels, labels: Labels): set<TopologyPair> {
    set t | t in terms && t.selector.Some? && Matches(t.selector.value, target) && t.topologyKey in labels ::
      TopologyPair(t.topologyKey, labels[t.topologyKey])
  }

  /** Which terms are counted: those of the existing instances, or those of the incoming one. */
  datatype Side = ExistingTerms | IncomingTerms

  ghost function HitBy(side: Side, inst: Instance, e: Instance, node: Node): set<TopologyPair> {
    if e.namespace != inst.namespace then {}
    else if side.ExistingTerms? then Hit(Terms(e), inst.labels, node.labels)
    else Hit(Terms(inst), e.labels, node.labels)
  }

  ghost function HitOn(side: Side, inst: Instance, n: NodeInfo, uids: set<UID>): set<TopologyPair> {
    set uid, p | uid in uids && uid in n.instances && p in HitBy(side, inst, n.instances[uid], n.node) :: p
  }

  ghost function HitAll(side: Side, inst: Instance, nodes: seq<NodeInfo>): set<TopologyPair> {
    if nodes == [] then {}
    else HitAll(side, inst, nodes[..|nodes| - 1]) + HitOn(side, inst, nodes[|nodes| - 1], nodes[|nodes| - 1].instances.Keys)
  }

  ghost predicate Positive(counts: map<TopologyPair, nat>) {
    forall p | p in counts :: counts[p] > 0
  }

  /** Some term's selector does not parse. */
  predicate Unparsable(terms: seq<AntiAffinityTerm>) {
    exists i :: 0 <= i < |terms| && terms[i].selector.None?
  }

  /** Which terms are matched against whose labels when `e` is counted for `inst`. */
  datatype CountArgs = CountArgs(terms: seq<AntiAffinityTerm>, target: Labels)

  function ArgsOf(side: Side, inst: Instance, e: Instance): CountArgs {
    if side.ExistingTerms? then CountArgs(Terms(e), inst.labels) else CountArgs(Terms(inst), e.labels)
  }

  ghost predicate BadOn(side: Side, inst: Instance, n: NodeInfo, uids: set<UID>) {
    exists uid :: uid in uids && uid in n.instances && n.instances[uid].namespace == inst.namespace
                  && Unparsable(ArgsOf(side, inst, n.instances[uid]).terms)
  }

  /** Some selector that has to be evaluated for an instance of the same namespace does not parse. */
  ghost predicate Bad(side: Side, inst: Instance, nodes: seq<NodeInfo>) {
    exists i :: 0 <= i < |nodes| && BadOn(side, inst, nodes[i], nodes[i].instances.Keys)
  }

  ghost predicate Malformed(inst: Instance, nodes: seq<NodeInfo>) {
    Bad(ExistingTerms, inst, nodes) || Bad(IncomingTerms, inst, nodes)
  }

  /** The innermost loop of both count builders. */
  method CountTerms(counts: map<TopologyPair, nat>, terms: seq<AntiAffinityTerm>, target: Labels, labels: Labels)
    returns (r: Option<map<TopologyPair, nat>>)
    requires Positive(counts)
    ensures r.None? <==> Unparsable(terms)
    ensures r.Some? ==> Positive(r.value) && r.value.Keys == counts.Keys + Hit(terms, target, labels)
  {
    var c := counts;
    assert Hit([], target, labels) == {};
    for i := 0 to |terms|
      invariant Positive(c) && c.Keys == counts.Keys + Hit(terms[..i], target, labels)
      invariant forall j | 0 <= j < i :: terms[j].selector.Some?
    {
      var term := terms[i];
      HitAppend(terms[..i], term, target, labels);
      assert terms[..i + 1] == terms[..i] + [term];
      if term.selector.None? {
        return None;
      }
      if Matches(term.selector.value, target) {
        if term.topologyKey !in labels {
          continue;
        }
        var p := TopologyPair(term.topologyKey, labels[term.topologyKey]);
        c := c[p := (if p in c then c[p] else 0) + 1];
      }
    }
    assert terms[..|terms|] == terms;
    return Some(c);
  }

  lemma HitAppend(terms: seq<AntiAffinityTerm>, term: AntiAffinityTerm, target: Labels, labels: Labels)
    ensures Hit(terms + [term], target, labels)
         == Hit(terms, target, labels)
            + if term.selector.Some? && Matches(term.selector.value, target) && term.topologyKey in labels
              then {TopologyPair(term.topologyKey, labels[term.topologyKey])} else {}
  {
  }

  /** getExistingAntiAffinityCounts and getIncomingAntiAffinityCounts; instances of a node come in any order. */
  method Counts(side: Side, inst: Instance, nodes: seq<NodeInfo>) returns (r: Option<map<TopologyPair, nat>>)
    ensures r.None? <==> Bad(side, inst, nodes)
    ensures r.Some? ==> Positive(r.value) && r.value.Keys == HitAll(side, inst, nodes)
  {
    hide BadOn;
    hide HitOn;
    var counts: map<TopologyPair, nat> := map[];
    for i := 0 to |nodes|
      invariant Positive(counts) && counts.Keys == HitAll(side, inst, nodes[..i])
      invariant forall j | 0 <= j < i :: !BadOn(side, inst, nodes[j], nodes[j].instances.Keys)
    {
      assert nodes[..i + 1][..i] == nodes[..i];
      var more := CountNode(side, counts, inst, nodes[i]);
      if more.None? {
        return None;
      }
      counts := more.value;
    }
    assert nodes[..|nodes|] == nodes;
    return Some(counts);
  }

  method CountNode(side: Side, before: map<TopologyPair, nat>, inst: Instance, n: NodeInfo) returns (r: Option<map<TopologyPair, nat>>)
    requires Positive(before)
    ensures r.None? <==> BadOn(side, inst, n, n.instances.Keys)
    ensures r.Some? ==> Positive(r.value) && r.value.Keys == before.Keys + HitOn(side, inst, n, n.instances.Keys)
  {
    hide Unparsable;
    hide Hit;
    var counts := before;
    var rest := n.instances.Keys;
    NoHit(side, inst, n);
    while rest != {}
      invariant rest <= n.instances.Keys && Positive(counts)
      invariant counts.Keys == before.Keys + HitOn(side, inst, n, n.instances.Keys - rest)
      invariant !BadOn(side, inst, n, n.instances.Keys - rest)
    {
      var uid :| uid in rest;
      var existing := n.instances[uid];
      HitMore(side, inst, n, n.instances.Keys - rest, uid);
      assert n.instances.Keys - (rest - {uid}) == n.instances.Keys - rest + {uid};
      rest := rest - {uid};
      if existing.namespace != inst.namespace {
        continue;
      }
      var args := ArgsOf(side, inst, existing);
      var more := CountTerms(counts, args.terms, args.target, n.node.labels);
      if more.None? {
        return None;
      }
      counts := more.value;
    }
    assert n.instances.Keys - {} == n.instances.Keys;
    return Some(counts);
  }

  lemma NoHit(side: Side, inst: Instance, n: NodeInfo)
    ensures HitOn(side, inst, n, n.instances.Keys - n.instances.Keys) == {}
  {
  }

  lemma HitMore(side: Side, inst: Instance, n: NodeInfo, uids: set<UID>, uid: UID)
    requires uid in n.instances
    ensures HitOn(side, inst, n, uids + {uid}) == HitOn(side, inst, n, uids) + HitBy(side, inst, n.instances[uid], n.node)
  {
  }

  // ---- Filtering ----

  /** satisfyExistingInstanceAntiAffinity; a missing count is 0. */
  predicate SatisfiesExisting(counts: map<TopologyPair, nat>, labels: Labels) {
    forall k | k in labels :: TopologyPair(k, labels[k]) in counts ==> counts[TopologyPair(k, labels[k])] == 0
  }

  /** satisfyInstanceAntiAffinity. */
  predicate SatisfiesIncoming(inst: Instance, counts: map<TopologyPair, nat>, labels: Labels) {
    forall i | 0 <= i < |Terms(inst)| :: Terms(inst)[i].topologyKey in labels ==>
      var p := TopologyPair(Terms(inst)[i].topologyKey, labels[Terms(inst)[i].topologyKey]);
      p in counts ==> counts[p] == 0
  }

  /** The node is compatible with everything the snapshot shows. */
  ghost predicate AntiAffinityPass(inst: Instance, nodes: seq<NodeInfo>, node: Node) {
    forall j, uid | 0 <= j < |nodes| && uid in nodes[j].instances ::
      Compatible(inst, node, nodes[j].instances[uid], nodes[j].node)
  }

  lemma {:induction false} HitAllIff(side: Side, inst: Instance, nodes: seq<NodeInfo>, p: TopologyPair)
    ensures p in HitAll(side, inst, nodes)
       <==> exists j, uid :: 0 <= j < |nodes| && uid in nodes[j].instances && p in HitBy(side, inst, nodes[j].instances[uid], nodes[j].node)
  {
    hide HitBy;
    if nodes != [] {
      var n := |nodes| - 1;
      HitAllIff(side, inst, nodes[..n], p);
      assert forall j | 0 <= j < n :: nodes[..n][j] == nodes[j];
      if p in HitOn(side, inst, nodes[n], nodes[n].instances.Keys) {
        var uid :| uid in nodes[n].instances && p in HitBy(side, inst, nodes[n].instances[uid], nodes[n].node);
      }
      forall j, uid | 0 <= j < |nodes| && uid in nodes[j].instances && p in HitBy(side, inst, nodes[j].instances[uid], nodes[j].node)
        ensures p in HitAll(side, inst, nodes)
      {
        if j < n {
          assert nodes[..n][j] == nodes[j];
        }
      }
    }
  }

  predicate TermDomainIn(t: AntiAffinityTerm, node: Node, hit: set<TopologyPair>) {
    t.topologyKey in node.labels && TopologyPair(t.topologyKey, node.labels[t.topologyKey]) in hit
  }

  lemma ForbidsIncoming(inst: Instance, node: Node, e: Instance, m: Node)
    ensures Forbids(inst, node, e, m)
       <==> exists i :: 0 <= i < |Terms(inst)| && TermDomainIn(Terms(inst)[i], node, HitBy(IncomingTerms, inst, e, m))
  {
  }

  lemma ForbidsExisting(inst: Instance, node: Node, e: Instance, m: Node)
    ensures Forbids(e, m, inst, node)
       <==> exists k :: k in node.labels && TopologyPair(k, node.labels[k]) in HitBy(ExistingTerms, inst, e, m)
  {
    if Forbids(e, m, inst, node) {
      var t :| t in Terms(e) && t.selector.Some? && Matches(t.selector.value, inst.labels) && SharedDomain(t.topologyKey, m, node);
      assert TopologyPair(t.topologyKey, m.labels[t.topologyKey]) in Hit(Terms(e), inst.labels, m.labels);
    }
  }

  lemma IncomingExact(inst: Instance, nodes: seq<NodeInfo>, node: Node, counts: map<TopologyPair, nat>)
    requires Positive(counts) && counts.Keys == HitAll(IncomingTerms, inst, nodes)
    ensures SatisfiesIncoming(inst, counts, node.labels)
       <==> forall j, uid | 0 <= j < |nodes| && uid in nodes[j].instances :: !Forbids(inst, node, nodes[j].instances[uid], nodes[j].node)
  {
    hide Forbids;
    hide HitBy;
    hide HitAll;
    if !SatisfiesIncoming(inst, counts, node.labels) {
      var i :| 0 <= i < |Terms(inst)| && Terms(inst)[i].topologyKey in node.labels
               && TopologyPair(Terms(inst)[i].topologyKey, node.labels[Terms(inst)[i].topologyKey]) in counts.Keys;
      var p := TopologyPair(Terms(inst)[i].topologyKey, node.labels[Terms(inst)[i].topologyKey]);
      HitAllIff(IncomingTerms, inst, nodes, p);
      var j, uid :| 0 <= j < |nodes| && uid in nodes[j].instances && p in HitBy(IncomingTerms, inst, nodes[j].instances[uid], nodes[j].node);
      ForbidsIncoming(inst, node, nodes[j].instances[uid], nodes[j].node);
    } else {
      forall j, uid | 0 <= j < |nodes| && uid in nodes[j].instances ensures !Forbids(inst, node, nodes[j].instances[uid], nodes[j].node) {
        ForbidsIncoming(inst, node, nodes[j].instances[uid], nodes[j].node);
        forall i | 0 <= i < |Terms(inst)| && Terms(inst)[i].topologyKey in node.labels
          ensures TopologyPair(Terms(inst)[i].topologyKey, node.labels[Terms(inst)[i].topologyKey])
                  !in HitBy(IncomingTerms, inst, nodes[j].instances[uid], nodes[j].node)
        {
          HitAllIff(IncomingTerms, inst, nodes, TopologyPair(Terms(inst)[i].topologyKey, node.labels[Terms(inst)[i].topologyKey]));
        }
      }
    }
  }

  lemma ExistingExact(inst: Instance, nodes: seq<NodeInfo>, node: Node, counts: map<TopologyPair, nat>)
    requires Positive(counts) && counts.Keys == HitAll(ExistingTerms, inst, nodes)
    ensures SatisfiesExisting(counts, node.labels)
       <==> forall j, uid | 0 <= j < |nodes| && uid in nodes[j].instances :: !Forbids(nodes[j].instances[uid], nodes[j].node, inst, node)
  {
    hide Forbids;
    hide HitBy;
    hide HitAll;
    if !SatisfiesExisting(counts, node.labels) {
      var k :| k in node.labels && TopologyPair(k, node.labels[k]) in counts.Keys;
      HitAllIff(ExistingTerms, inst, nodes, TopologyPair(k, node.labels[k]));
      var j, uid :| 0 <= j < |nodes| && uid in nodes[j].instances
                    && TopologyPair(k, node.labels[k]) in HitBy(ExistingTerms, inst, nodes[j].instances[uid], nodes[j].node);
      ForbidsExisting(inst, node, nodes[j].instances[uid], nodes[j].node);
    } else {
      forall j, uid | 0 <= j < |nodes| && uid in nodes[j].instances ensures !Forbids(nodes[j].instances[uid], nodes[j].node, inst, node) {
        ForbidsExisting(inst, node, nodes[j].instances[uid], nodes[j].node);
        forall k | k in node.labels
          ensures TopologyPair(k, node.labels[k]) !in HitBy(ExistingTerms, inst, nodes[j].instances[uid], nodes[j].node)
        {
          HitAllIff(ExistingTerms, inst, nodes, TopologyPair(k, node.labels[k]));
        }
      }
    }
  }

  /**
   * filterNodesByInstanceAntiAffinity: counting per domain keeps exactly the nodes on which neither the
   * incoming instance nor any existing one is ruled out by the other's required terms.
   */
  method FilterByAntiAffinity(inst: Instance, nodes: seq<NodeInfo>) returns (r: Option<seq<nat>>)
    ensures r.None? <==> Malformed(inst, nodes)
    ensures r.Some? ==> forall i: nat :: i in r.value <==> i < |nodes| && AntiAffinityPass(inst, nodes, nodes[i].node)
  {
    hide HitAll;
    hide Bad;
    hide Compatible;
    var existing := Counts(ExistingTerms, inst, nodes);
    if existing.None? {
      return None;
    }
    var incoming := Counts(IncomingTerms, inst, nodes);
    if incoming.None? {
      return None;
    }
    var kept: seq<nat> := [];
    for i := 0 to |nodes|
      invariant forall k: nat :: k in kept <==> k < i && AntiAffinityPass(inst, nodes, nodes[k].node)
    {
      PassIff(inst, nodes, nodes[i].node, existing.value, incoming.value);
      if !SatisfiesIncoming(inst, incoming.value, nodes[i].node.labels) {
        continue;
      }
      if !SatisfiesExisting(existing.value, nodes[i].node.labels) {
        continue;
      }
      kept := kept + [i];
    }
    return Some(kept);
  }

  lemma PassIff(inst: Instance, nodes: seq<NodeInfo>, node: Node, existing: map<TopologyPair, nat>, incoming: map<TopologyPair, nat>)
    requires Positive(existing) && existing.Keys == HitAll(ExistingTerms, inst, nodes)
    requires Positive(incoming) && incoming.Keys == HitAll(IncomingTerms, inst, nodes)
    ensures AntiAffinityPass(inst, nodes, node) <==> SatisfiesIncoming(inst, incoming, node.labels) && SatisfiesExisting(existing, node.labels)
  {
    hide HitAll;
    hide Forbids;
    hide SatisfiesIncoming;
    hide SatisfiesExisting;
    ExistingExact(inst, nodes, node, existing);
    IncomingExact(inst, nodes, node, incoming);
  }
}
