/**
  The subscription trie: its nodes, the effect of inserting and deleting one
  subscription as functions on trees, and what a tree holds.
 */
module Trie {
  import opened Common
  import opened Topics

  datatype SubscriptionKey = SubscriptionKey(clientId: U64, subscriptionId: U32)

  /** The sending half of a channel; only its identity matters. */
  datatype Sender = Sender(channel: nat)

  type SubscriptionMap = map<SubscriptionKey, Sender>

  /** `Option<Vec<Node>>`: an absent list and an empty list are different values. */
  datatype Children = NoChildren | Children(nodes: seq<Node>)

  datatype Node = Node(
    level: Segment,
    subs: SubscriptionMap,
    groups: map<Bytes, SubscriptionMap>,
    children: Children,
    hasSingle: bool,
    hasMulti: bool)

  function NewNode(level: Segment): Node {
    Node(level, map[], map[], NoChildren, false, false)
  }

  function Kids(n: Node): seq<Node> {
    if n.children.NoChildren? then [] else n.children.nodes
  }

  /** `iter().position(..)`: the first node with this level, or the length if there is none. */
  function Position(nodes: seq<Node>, level: Segment): (i: nat)
    ensures i <= |nodes|
    ensures i < |nodes| ==> nodes[i].level == level
    ensures forall j :: 0 <= j < i ==> nodes[j].level != level
  {
    if nodes == [] then 0
    else if nodes[0].level == level then 0
    else 1 + Position(nodes[1..], level)
  }

  predicate HasLevel(nodes: seq<Node>, level: Segment) {
    exists i :: 0 <= i < |nodes| && nodes[i].level == level
  }

  // ---- Inserting one subscription ----

  function FlagsFor(n: Node, segment: Segment): Node {
    if segment == PLUS then n.(hasSingle := true)
    else if segment == HASH then n.(hasMulti := true)
    else n
  }

  /** One iteration of the insert loop at one node: set the flag, find or append the child. */
  function Grown(n: Node, segment: Segment): (r: Node)
    ensures r.children.Children? && Position(Kids(r), segment) < |Kids(r)|
  {
    var kids := Kids(n);
    var kids' := if Position(kids, segment) < |kids| then kids else kids + [NewNode(segment)];
    assert Position(kids, segment) == |kids| ==> kids'[|kids|].level == segment;
    FlagsFor(n, segment).(children := Children(kids'))
  }

  function WithKid(n: Node, i: nat, kid: Node): Node
    requires i < |Kids(n)|
  {
    n.(children := Children(n.children.nodes[i := kid]))
  }

  function Planted(n: Node, path: seq<Segment>, key: SubscriptionKey, tx: Sender): Node
    decreases path
  {
    if path == [] then n.(subs := n.subs[key := tx])
    else
      var g := Grown(n, path[0]);
      var i := Position(Kids(g), path[0]);
      WithKid(g, i, Planted(Kids(g)[i], path[1..], key, tx))
  }

  // ---- Deleting one subscription ----

  predicate IsDead(n: Node) {
    n.subs == map[] && n.groups == map[] && n.children.NoChildren?
  }

  function Without(nodes: seq<Node>, i: nat): seq<Node>
    requires i < |nodes|
  {
    nodes[..i] + nodes[i + 1..]
  }

  /** One iteration of the pruning loop: drop child `i` if nothing is left in it. */
  function Pruned(n: Node, i: nat): Node
    requires i < |Kids(n)|
  {
    if !IsDead(Kids(n)[i]) then n
    else
      var left := Without(Kids(n), i);
      var removed := Kids(n)[i].level;
      var n' := n.(
        hasSingle := if removed == PLUS then HasLevel(left, PLUS) else n.hasSingle,
        hasMulti := if removed == HASH then HasLevel(left, HASH) else n.hasMulti);
      n'.(children := if left == [] then NoChildren else Children(left))
  }

  function Uprooted(n: Node, path: seq<Segment>, key: SubscriptionKey): Node
    decreases path
  {
    if path == [] then n.(subs := n.subs - {key})
    else
      var i := Position(Kids(n), path[0]);
      if i == |Kids(n)| then n
      else Pruned(WithKid(n, i, Uprooted(Kids(n)[i], path[1..], key)), i)
  }

  // ---- What a tree holds ----

  predicate Reaches(n: Node, path: seq<Segment>)
    decreases path
  {
    path == [] ||
    (var i := Position(Kids(n), path[0]);
     i < |Kids(n)| && Reaches(Kids(n)[i], path[1..]))
  }

  /** The subscriptions stored at the node named by `path`; none if there is no such node. */
  function SubsAt(n: Node, path: seq<Segment>): SubscriptionMap
    decreases path
  {
    if path == [] then n.subs
    else
      var i := Position(Kids(n), path[0]);
      if i < |Kids(n)| then SubsAt(Kids(n)[i], path[1..]) else map[]
  }

  // ---- The structural invariant ----

  ghost predicate DistinctLevels(nodes: seq<Node>) {
    forall i, j :: 0 <= i < j < |nodes| ==> nodes[i].level != nodes[j].level
  }

  /** What a node promises about itself and its direct children. */
  ghost predicate Local(n: Node) {
    && n.groups == map[]
    && n.children != Children([])
    && DistinctLevels(Kids(n))
    && (n.hasSingle <==> HasLevel(Kids(n), PLUS))
    && (n.hasMulti <==> HasLevel(Kids(n), HASH))
    && (forall i :: 0 <= i < |Kids(n)| ==> !IsDead(Kids(n)[i]))
    && (forall i :: 0 <= i < |Kids(n)| && Kids(n)[i].level == HASH ==> Kids(n)[i].children.NoChildren?)
  }

  ghost predicate WellFormed(n: Node) {
    Local(n) && forall kid :: kid in Kids(n) ==> WellFormed(kid)
  }
}
