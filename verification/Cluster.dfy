/** Nodes, instances and their placement rules, as far as the scheduler and the DaemonSet controller read them. */
module Cluster {
  import opened Core

  type Labels = map<Name, Name>

  /** A parsed label selector is the set of label sets it accepts; `empty` says it has no requirements. */
  datatype Selector = Selector(accepts: iset<Labels>, empty: bool)

  predicate Matches(s: Selector, labels: Labels) {
    labels in s.accepts
  }

  /** `selector` is None when the selector does not parse. */
  datatype AntiAffinityTerm = AntiAffinityTerm(selector: Option<Selector>, topologyKey: Name)
  datatype SpreadConstraint = SpreadConstraint(maxSkew: int, topologyKey: Name, selector: Option<Selector>)

  datatype Operator = In | NotIn | OtherOperator
  datatype Requirement = Requirement(key: Name, operator: Operator, values: seq<Name>)

  /** The matchExpressions of a node selector term: absent, parsed, or not parsable. */
  datatype LabelTerm = NoLabels | Parsed(selector: Selector) | Unparsable

  datatype NodeTerm = NodeTerm(matchLabels: LabelTerm, matchFields: seq<Requirement>)

  /** The terms of requiredDuringSchedulingIgnoredDuringExecution, if present. */
  datatype NodeAffinity = NodeAffinity(required: Option<seq<NodeTerm>>)

  datatype Affinity = Affinity(nodeAffinity: Option<NodeAffinity>, antiAffinity: Option<seq<AntiAffinityTerm>>)

  datatype Instance = Instance(
    uid: UID,
    name: Name,
    namespace: Name,
    labels: Labels,
    deleting: bool,
    created: int,
    nodeRef: Option<Name>,
    affinity: Option<Affinity>,
    spread: Option<seq<SpreadConstraint>>)

  datatype Node = Node(name: Name, labels: Labels)

  /** A node of a snapshot. A filter's result lists positions in the snapshot, which stand for pointers. */
  datatype NodeInfo = NodeInfo(node: Node, instances: map<UID, Instance>)

  /** The required anti-affinity terms of an instance. */
  function Terms(inst: Instance): seq<AntiAffinityTerm> {
    if inst.affinity.Some? && inst.affinity.value.antiAffinity.Some? then inst.affinity.value.antiAffinity.value else []
  }

  /** All positions of a list of `n`. */
  function Positions(n: nat): (r: seq<nat>)
    ensures forall i: nat :: i in r <==> i < n
  {
    if n == 0 then [] else Positions(n - 1) + [n - 1]
  }
}
