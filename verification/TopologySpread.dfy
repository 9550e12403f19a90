/** Topology spread constraints: filterNodesByTopology of internal/controllers/scheduler_controller.go. */
module TopologySpread {
  import opened Core
  import opened Cluster
  import opened AntiAffinity

  /** A constraint whose selector has been parsed. */
  datatype Constraint = Constraint(maxSkew: int, topologyKey: Name, selector: Selector)

  /** nodeLabelsMatchSpreadConstraints: all topology keys are among the node's labels. */
  predicate HasKeys(n: Node, cs: seq<Constraint>) {
    forall i | 0 <= i < |cs| :: cs[i].topologyKey in n.labels
  }

  predicate Eligible(n: NodeInfo, cs: seq<Constraint>) {
    HasKeys(n.node, cs)
  }

  predicate Counted(e: Instance, selector: Selector, namespace: Name) {
    !e.deleting && e.namespace == namespace && Matches(selector, e.labels)
  }

  ghost function CountedUids(instances: map<UID, Instance>, selector: Selector, namespace: Name): set<UID> {
    set uid | uid in instances && Counted(instances[uid], selector, namespace)
  }

  /** An empty selector counts nothing. */
  ghost function Count(n: NodeInfo, c: Constraint, namespace: Name): nat {
    if c.selector.empty then 0 else |CountedUids(n.instances, c.selector, namespace)|
  }

  /** What a node adds to its domain of `key`: constraints that share the key add up. */
  ghost function NodeCount(n: NodeInfo, cs: seq<Constraint>, namespace: Name, key: Name): nat {
    if cs == [] then 0
    else
      var c := cs[|cs| - 1];
      NodeCount(n, cs[..|cs| - 1], namespace, key) + if c.topologyKey == key then Count(n, c, namespace) else 0
  }

  ghost predicate InDomain(n: NodeInfo, p: TopologyPair) {
    p.key in n.node.labels && n.node.labels[p.key] == p.value
  }

  /** What `n` contributes to the count of domain `p`, looking at the constraints `cs` of `all`. */
  ghost function Share(n: NodeInfo, all: seq<Constraint>, cs: seq<Constraint>, namespace: Name, p: TopologyPair): nat {
    if Eligible(n, all) && InDomain(n, p) then NodeCount(n, cs, namespace, p.key) else 0
  }

  ghost function DomainCount(nodes: seq<NodeInfo>, cs: seq<Constraint>, namespace: Name, p: TopologyPair): nat {
    if nodes == [] then 0
    else DomainCount(nodes[..|nodes| - 1], cs, namespace, p) + Share(nodes[|nodes| - 1], cs, cs, namespace, p)
  }

  function Domain(n: NodeInfo, c: Constraint): TopologyPair
    requires c.topologyKey in n.node.labels
  {
    TopologyPair(c.topologyKey, n.node.labels[c.topologyKey])
  }

  function Self(inst: Instance, c: Constraint): nat {
    if Matches(c.selector, inst.labels) then 1 else 0
  }

  /**
   * Placing the instance in the node's domain keeps that domain within maxSkew of every other domain of
   * the key, counted over the nodes that have all the topology keys.
   */
  ghost predicate TopologyPass(inst: Instance, nodes: seq<NodeInfo>, cs: seq<Constraint>, i: nat)
    requires i < |nodes|
  {
    && Eligible(nodes[i], cs)
    && forall k, j | 0 <= k < |cs| && 0 <= j < |nodes| && Eligible(nodes[j], cs) ::
         DomainCount(nodes, cs, inst.namespace, Domain(nodes[i], cs[k])) + Self(inst, cs[k])
         - DomainCount(nodes, cs, inst.namespace, Domain(nodes[j], cs[k])) <= cs[k].maxSkew
  }

  // ---- Counting ----

  method CountMatching(instances: map<UID, Instance>, c: Constraint, namespace: Name, ghost n: NodeInfo) returns (count: nat)
    requires n.instances == instances
    ensures count == Count(n, c, namespace)
  {
    if c.selector.empty {
      return 0;
    }
    count := 0;
    var rest := instances.Keys;
    ghost var counted: set<UID> := {};
    while rest != {}
      invariant rest <= instances.Keys && count == |counted|
      invariant counted == set uid | uid in instances && uid !in rest && Counted(instances[uid], c.selector, namespace)
    {
      var uid :| uid in rest;
      rest := rest - {uid};
      if Counted(instances[uid], c.selector, namespace) {
        count := count + 1;
        counted := counted + {uid};
      }
    }
    assert counted == CountedUids(instances, c.selector, namespace);
  }

  function At(counts: map<TopologyPair, nat>, p: TopologyPair): nat {
    if p in counts then counts[p] else 0
  }

  /** The domains seen: those of the eligible nodes. */
  ghost predicate Seen(nodes: seq<NodeInfo>, cs: seq<Constraint>, p: TopologyPair) {
    exists j, k :: 0 <= j < |nodes| && 0 <= k < |cs| && Eligible(nodes[j], cs) && Domain(nodes[j], cs[k]) == p
  }

  /** One eligible node's contribution, constraint by constraint. */
  method CountNode(counts: map<TopologyPair, nat>, n: NodeInfo, cs: seq<Constraint>, namespace: Name) returns (r: map<TopologyPair, nat>)
    requires Eligible(n, cs)
    ensures forall p :: At(r, p) == At(counts, p) + Share(n, cs, cs, namespace, p)
    ensures forall p :: p in r <==> p in counts || exists k :: 0 <= k < |cs| && Domain(n, cs[k]) == p
  {
    r := counts;
    for k := 0 to |cs|
      invariant forall p :: At(r, p) == At(counts, p) + Share(n, cs, cs[..k], namespace, p)
      invariant forall p :: p in r <==> p in counts || exists l :: 0 <= l < k && Domain(n, cs[l]) == p
    {
      assert cs[..k + 1][..k] == cs[..k];
      var pair := Domain(n, cs[k]);
      var count := CountMatching(n.instances, cs[k], namespace, n);
      ghost var before := r;
      r := r[pair := At(r, pair) + count];
      forall p ensures At(r, p) == At(counts, p) + Share(n, cs, cs[..k + 1], namespace, p) {
        if p == pair {
          assert InDomain(n, p);
        } else if InDomain(n, p) {
          assert p.key != cs[k].topologyKey;
        }
      }
    }
    assert cs[..|cs|] == cs;
  }

  method CountDomains(nodes: seq<NodeInfo>, cs: seq<Constraint>, namespace: Name) returns (counts: map<TopologyPair, nat>)
    ensures forall p :: At(counts, p) == DomainCount(nodes, cs, namespace, p)
    ensures forall p :: p in counts <==> Seen(nodes, cs, p)
  {
    counts := map[];
    for i := 0 to |nodes|
      invariant forall p :: At(counts, p) == DomainCount(nodes[..i], cs, namespace, p)
      invariant forall p :: p in counts <==> Seen(nodes[..i], cs, p)
    {
      assert nodes[..i + 1][..i] == nodes[..i];
      ghost var before := counts;
      if Eligible(nodes[i], cs) {
        counts := CountNode(counts, nodes[i], cs, namespace);
      }
      forall p ensures p in counts <==> Seen(nodes[..i + 1], cs, p) {
        SeenAppend(nodes, cs, i, p);
      }
    }
    assert nodes[..|nodes|] == nodes;
  }

  lemma SeenAppend(nodes: seq<NodeInfo>, cs: seq<Constraint>, i: nat, p: TopologyPair)
    requires i < |nodes|
    ensures Seen(nodes[..i + 1], cs, p)
       <==> Seen(nodes[..i], cs, p) || (Eligible(nodes[i], cs) && exists k :: 0 <= k < |cs| && Domain(nodes[i], cs[k]) == p)
  {
    var s, t := nodes[..i + 1], nodes[..i];
    assert s[i] == nodes[i] && forall j | 0 <= j < i :: s[j] == t[j];
    if Seen(t, cs, p) {
      var j, k :| 0 <= j < |t| && 0 <= k < |cs| && Eligible(t[j], cs) && Domain(t[j], cs[k]) == p;
      assert Eligible(s[j], cs) && Domain(s[j], cs[k]) == p;
    }
    if Seen(s, cs, p) {
      var j, k :| 0 <= j < |s| && 0 <= k < |cs| && Eligible(s[j], cs) && Domain(s[j], cs[k]) == p;
      if j < i {
        assert Eligible(t[j], cs) && Domain(t[j], cs[k]) == p;
      }
    }
  }

  /** The least count per topology key; Go ranges over the counts in any order. */
  method CriticalPaths(counts: map<TopologyPair, nat>) returns (least: map<Name, nat>)
    ensures forall p | p in counts :: p.key in least && least[p.key] <= counts[p]
    ensures forall k | k in least :: exists p :: p in counts && p.key == k && counts[p] == least[k]
  {
    least := map[];
    var rest := counts.Keys;
    while rest != {}
      invariant rest <= counts.Keys
      invariant forall p | p in counts && p !in rest :: p.key in least && least[p.key] <= counts[p]
      invariant forall k | k in least :: exists p :: p in counts && p.key == k && counts[p] == least[k]
    {
      var p :| p in rest;
      rest := rest - {p};
      if p.key in least && least[p.key] < counts[p] {
        continue;
      }
      least := least[p.key := counts[p]];
    }
  }

  /** Counts and minima as the filter computes them. */
  ghost predicate Counting(inst: Instance, nodes: seq<NodeInfo>, cs: seq<Constraint>, counts: map<TopologyPair, nat>, least: map<Name, nat>) {
    && (forall p :: At(counts, p) == DomainCount(nodes, cs, inst.namespace, p))
    && (forall p :: p in counts <==> Seen(nodes, cs, p))
    && (forall p | p in counts :: p.key in least && least[p.key] <= counts[p])
    && (forall key | key in least :: exists p :: p in counts && p.key == key && counts[p] == least[key])
  }

  /** The filter over parsed constraints keeps exactly the passing nodes. */
  method FilterParsed(inst: Instance, nodes: seq<NodeInfo>, cs: seq<Constraint>) returns (kept: seq<nat>)
    ensures forall i: nat :: i in kept <==> i < |nodes| && TopologyPass(inst, nodes, cs, i)
  {
    hide DomainCount;
    hide Seen;
    hide TopologyPass;
    hide Eligible;
    var counts := CountDomains(nodes, cs, inst.namespace);
    var least := CriticalPaths(counts);
    assert Counting(inst, nodes, cs, counts, least);
    kept := [];
    for i := 0 to |nodes|
      invariant forall k: nat :: k in kept <==> k < i && TopologyPass(inst, nodes, cs, k)
    {
      var ok := FitsNode(inst, nodes, cs, counts, least, i);
      if ok {
        kept := kept + [i];
      }
    }
  }

  method FitsNode(inst: Instance, nodes: seq<NodeInfo>, cs: seq<Constraint>, counts: map<TopologyPair, nat>, least: map<Name, nat>, i: nat)
    returns (ok: bool)
    requires i < |nodes| && Counting(inst, nodes, cs, counts, least)
    ensures ok <==> TopologyPass(inst, nodes, cs, i)
  {
    hide Counting;
    hide Fits;
    if !Eligible(nodes[i], cs) {
      return false;
    }
    FitsAll(inst, nodes, cs, i);
    hide TopologyPass;
    for k := 0 to |cs|
      invariant forall l | 0 <= l < k :: Fits(inst, nodes, cs, i, l)
    {
      LeastDecides(inst, nodes, cs, counts, least, i, k);
      var skew := At(counts, Domain(nodes[i], cs[k])) + Self(inst, cs[k]) - least[cs[k].topologyKey];
      if skew > cs[k].maxSkew {
        return false;
      }
    }
    return true;
  }

  ghost predicate Fits(inst: Instance, nodes: seq<NodeInfo>, cs: seq<Constraint>, i: nat, k: nat)
    requires i < |nodes| && k < |cs| && Eligible(nodes[i], cs)
  {
    forall j | 0 <= j < |nodes| && Eligible(nodes[j], cs) ::
      DomainCount(nodes, cs, inst.namespace, Domain(nodes[i], cs[k])) + Self(inst, cs[k])
      - DomainCount(nodes, cs, inst.namespace, Domain(nodes[j], cs[k])) <= cs[k].maxSkew
  }

  lemma FitsAll(inst: Instance, nodes: seq<NodeInfo>, cs: seq<Constraint>, i: nat)
    requires i < |nodes| && Eligible(nodes[i], cs)
    ensures TopologyPass(inst, nodes, cs, i) <==> forall k | 0 <= k < |cs| :: Fits(inst, nodes, cs, i, k)
  {
    hide DomainCount;
    hide Domain;
    hide Self;
    if TopologyPass(inst, nodes, cs, i) {
      forall k | 0 <= k < |cs| ensures Fits(inst, nodes, cs, i, k) {
      }
    } else {
      var k, j :| 0 <= k < |cs| && 0 <= j < |nodes| && Eligible(nodes[j], cs)
                  && DomainCount(nodes, cs, inst.namespace, Domain(nodes[i], cs[k])) + Self(inst, cs[k])
                     - DomainCount(nodes, cs, inst.namespace, Domain(nodes[j], cs[k])) > cs[k].maxSkew;
      assert !Fits(inst, nodes, cs, i, k);
    }
  }

  /** The minimum found in map order is the true minimum over the domains of the key. */
  lemma LeastIsMinimum(inst: Instance, nodes: seq<NodeInfo>, cs: seq<Constraint>, counts: map<TopologyPair, nat>, least: map<Name, nat>, k: nat)
    requires k < |cs| && Counting(inst, nodes, cs, counts, least)
    requires exists i :: 0 <= i < |nodes| && Eligible(nodes[i], cs)
    ensures cs[k].topologyKey in least
    ensures forall j | 0 <= j < |nodes| && Eligible(nodes[j], cs) ::
      least[cs[k].topologyKey] <= DomainCount(nodes, cs, inst.namespace, Domain(nodes[j], cs[k]))
    ensures exists j | 0 <= j < |nodes| && Eligible(nodes[j], cs) ::
      least[cs[k].topologyKey] == DomainCount(nodes, cs, inst.namespace, Domain(nodes[j], cs[k]))
  {
    hide DomainCount;
    var key := cs[k].topologyKey;
    forall j | 0 <= j < |nodes| && Eligible(nodes[j], cs)
      ensures key in least && least[key] <= DomainCount(nodes, cs, inst.namespace, Domain(nodes[j], cs[k]))
    {
      var p := Domain(nodes[j], cs[k]);
      assert Seen(nodes, cs, p);
      assert At(counts, p) == counts[p];
    }
    var p :| p in counts && p.key == key && counts[p] == least[key];
    assert Seen(nodes, cs, p);
    var j, l :| 0 <= j < |nodes| && 0 <= l < |cs| && Eligible(nodes[j], cs) && Domain(nodes[j], cs[l]) == p;
    assert Domain(nodes[j], cs[k]) == p && At(counts, p) == least[key];
  }

  /** Comparing with the least count is comparing with every domain. */
  lemma LeastDecides(inst: Instance, nodes: seq<NodeInfo>, cs: seq<Constraint>, counts: map<TopologyPair, nat>, least: map<Name, nat>, i: nat, k: nat)
    requires i < |nodes| && k < |cs| && Eligible(nodes[i], cs)
    requires Counting(inst, nodes, cs, counts, least)
    ensures cs[k].topologyKey in least
    ensures At(counts, Domain(nodes[i], cs[k])) + Self(inst, cs[k]) - least[cs[k].topologyKey] <= cs[k].maxSkew
       <==> Fits(inst, nodes, cs, i, k)
  {
    hide DomainCount;
    hide Seen;
    hide Domain;
    hide Self;
    hide At;
    LeastIsMinimum(inst, nodes, cs, counts, least, k);
    assert At(counts, Domain(nodes[i], cs[k])) == DomainCount(nodes, cs, inst.namespace, Domain(nodes[i], cs[k]));
  }

  // ---- Parsing the constraints of an instance ----

  predicate Parses(cs: seq<SpreadConstraint>) {
    forall i | 0 <= i < |cs| :: cs[i].selector.Some?
  }

  function Parse(c: SpreadConstraint): Constraint
    requires c.selector.Some?
  {
    Constraint(c.maxSkew, c.topologyKey, c.selector.value)
  }

  function ParseAll(cs: seq<SpreadConstraint>): seq<Constraint>
    requires Parses(cs)
  {
    seq(|cs|, i requires 0 <= i < |cs| => Parse(cs[i]))
  }

  /** An instance without constraints fits anywhere. */
  ghost predicate SpreadPass(inst: Instance, nodes: seq<NodeInfo>, i: nat)
    requires i < |nodes|
  {
    inst.spread.Some? ==> Parses(inst.spread.value) && TopologyPass(inst, nodes, ParseAll(inst.spread.value), i)
  }

  method BuildConstraints(cs: seq<SpreadConstraint>) returns (r: Option<seq<Constraint>>)
    ensures r.Some? <==> Parses(cs)
    ensures r.Some? ==> r.value == ParseAll(cs)
  {
    var built: seq<Constraint> := [];
    for i := 0 to |cs|
      invariant Parses(cs[..i]) && built == ParseAll(cs[..i])
    {
      if cs[i].selector.None? {
        return None;
      }
      built := built + [Parse(cs[i])];
    }
    assert cs[..|cs|] == cs;
    return Some(built);
  }

  /** filterNodesByTopology. */
  method FilterByTopology(inst: Instance, nodes: seq<NodeInfo>) returns (r: Option<seq<nat>>)
    ensures r.None? <==> inst.spread.Some? && !Parses(inst.spread.value)
    ensures r.Some? ==> forall i: nat :: i in r.value <==> i < |nodes| && SpreadPass(inst, nodes, i)
  {
    hide TopologyPass;
    hide Parses;
    if inst.spread.None? {
      return Some(Positions(|nodes|));
    }
    var cs := BuildConstraints(inst.spread.value);
    if cs.None? {
      return None;
    }
    var kept := FilterParsed(inst, nodes, cs.value);
    return Some(kept);
  }
}
