/** The topology inventory and `build_graph` (Main.py lines 39-55): node and
    link records are folded into an adjacency map from node name to the list
    of neighbour names, one entry per link end, parallel links included. */
module Topology {
  import opened Wrappers

  type Name = string
  type NodeId = string

  /** The fields of one inventory node record that the core reads. The
      inventory is a `seq<Node>`: the name-keyed dictionary's items, in
      insertion order. */
  datatype Node = Node(
    name: Name,
    nodeId: NodeId,
    nodeType: string,
    status: string,
    consoleHost: string,
    console: int)

  /** A link record: the `node_id` of each entry of its `nodes` list, in order. */
  datatype Link = Link(endpoints: seq<NodeId>)

  /** Adjacency map: node name to neighbour names in link order. */
  type Graph = map<Name, seq<Name>>

  /** A well-formed link names a node id that no inventory node carries. */
  datatype GraphError = UnresolvedEndpoint(id: NodeId)

  /** The names of the inventory's nodes. */
  function Names(nodes: seq<Node>): set<Name> {
    set i | 0 <= i < |nodes| :: nodes[i].name
  }

  predicate Adjacent(g: Graph, a: Name, b: Name) {
    a in g && b in g[a]
  }

  /** Every neighbour entry is itself a key of the graph. */
  ghost predicate Closed(g: Graph) {
    forall a, b :: Adjacent(g, a, b) ==> b in g
  }

  /** `b` occurs in `a`'s list as often as `a` occurs in `b`'s. */
  ghost predicate Symmetric(g: Graph) {
    forall a, b :: a in g && b in g ==> multiset(g[a])[b] == multiset(g[b])[a]
  }

  /** Position of the first node, in inventory order, whose id is `id`: the
      element the generator passed to `next` yields, or None where `next`
      raises. */
  function FirstWithId(nodes: seq<Node>, id: NodeId): (r: Option<nat>)
    ensures r.Some? ==> r.value < |nodes| && nodes[r.value].nodeId == id
    ensures r.Some? ==> forall j :: 0 <= j < r.value ==> nodes[j].nodeId != id
    ensures r.None? ==> forall j :: 0 <= j < |nodes| ==> nodes[j].nodeId != id
  {
    if |nodes| == 0 then None
    else if nodes[0].nodeId == id then Some(0)
    else match FirstWithId(nodes[1..], id)
      case None => None
      case Some(k) => Some(k + 1)
  }

  /** The name under which node id `id` is filed, if any node carries it. */
  function Resolve(nodes: seq<Node>, id: NodeId): (r: Option<Name>)
    ensures r.Some? ==> r.value in Names(nodes)
    ensures r.Some? ==> exists k ::
      && 0 <= k < |nodes| && nodes[k].nodeId == id && r.value == nodes[k].name
      && forall j :: 0 <= j < k ==> nodes[j].nodeId != id
    ensures r.None? <==> forall j :: 0 <= j < |nodes| ==> nodes[j].nodeId != id
  {
    match FirstWithId(nodes, id)
    case None => None
    case Some(k) => Some(nodes[k].name)
  }

  function EmptyGraph(nodes: seq<Node>): Graph {
    map n | n in Names(nodes) :: []
  }

  /** A link with exactly two endpoints at least one of which resolves to no node. */
  predicate Broken(nodes: seq<Node>, link: Link) {
    |link.endpoints| == 2
    && (Resolve(nodes, link.endpoints[0]).None? || Resolve(nodes, link.endpoints[1]).None?)
  }

  /** The id reported when `link` is broken: the first endpoint is resolved first. */
  function BrokenId(nodes: seq<Node>, link: Link): NodeId
    requires Broken(nodes, link)
  {
    if Resolve(nodes, link.endpoints[0]).None? then link.endpoints[0] else link.endpoints[1]
  }

  /** One iteration of the loop over links. */
  function AddLink(nodes: seq<Node>, g: Graph, link: Link): (r: Result<Graph, GraphError>)
    requires g.Keys == Names(nodes)
    ensures r.Success? ==> r.value.Keys == g.Keys
    ensures r.Success? ==> forall a, b :: Adjacent(r.value, a, b) ==> Adjacent(g, a, b) || b in Names(nodes)
    ensures r.Success? ==> forall a :: a in g ==> g[a] <= r.value[a] && |r.value[a]| <= |g[a]| + 2
  {
    if |link.endpoints| != 2 then Success(g)
    else match Resolve(nodes, link.endpoints[0])
      case None => Failure(UnresolvedEndpoint(link.endpoints[0]))
      case Some(n1) =>
        match Resolve(nodes, link.endpoints[1])
        case None => Failure(UnresolvedEndpoint(link.endpoints[1]))
        case Some(n2) =>
          var g1 := g[n1 := g[n1] + [n2]];
          Success(g1[n2 := g1[n2] + [n1]])
  }

  /** `build_graph`: the keys are exactly the node names and every neighbour
      entry is a node name. */
  function BuildGraph(nodes: seq<Node>, links: seq<Link>): (r: Result<Graph, GraphError>)
    ensures r.Success? ==> r.value.Keys == Names(nodes)
    ensures r.Success? ==> forall a, b :: Adjacent(r.value, a, b) ==> b in Names(nodes)
    decreases |links|
  {
    if |links| == 0 then Success(EmptyGraph(nodes))
    else
      match BuildGraph(nodes, links[..|links| - 1])
      case Failure(e) => Failure(e)
      case Success(g) => AddLink(nodes, g, links[|links| - 1])
  }

  /** How many entries `b` gains in `a`'s list from one link: one per
      orientation in which the link joins `a` to `b` (so two for a self-loop). */
  function Contribution(nodes: seq<Node>, link: Link, a: Name, b: Name): nat {
    if |link.endpoints| != 2 then 0
    else match (Resolve(nodes, link.endpoints[0]), Resolve(nodes, link.endpoints[1]))
      case (Some(n1), Some(n2)) =>
        (if n1 == a && n2 == b then 1 else 0) + (if n2 == a && n1 == b then 1 else 0)
      case _ => 0
  }

  /** Reference count of the link ends joining `a` to `b`, over all links. */
  function EdgeCount(nodes: seq<Node>, links: seq<Link>, a: Name, b: Name): nat
    decreases |links|
  {
    if |links| == 0 then 0
    else EdgeCount(nodes, links[..|links| - 1], a, b) + Contribution(nodes, links[|links| - 1], a, b)
  }

  lemma {:induction false} AddLinkCount(nodes: seq<Node>, g: Graph, link: Link, a: Name, b: Name)
    requires g.Keys == Names(nodes)
    requires AddLink(nodes, g, link).Success?
    requires a in g
    ensures multiset(AddLink(nodes, g, link).value[a])[b] == multiset(g[a])[b] + Contribution(nodes, link, a, b)
  {
    if |link.endpoints| == 2 {
      var n1 := Resolve(nodes, link.endpoints[0]).value;
      var n2 := Resolve(nodes, link.endpoints[1]).value;
      var g1 := g[n1 := g[n1] + [n2]];
      assert multiset(g1[a])[b] == multiset(g[a])[b] + (if n1 == a && n2 == b then 1 else 0);
    }
  }

  /** Each neighbour list holds, for every name, exactly as many entries as
      there are link ends joining the two nodes. */
  lemma {:induction false} NeighbourCounts(nodes: seq<Node>, links: seq<Link>, a: Name, b: Name)
    requires BuildGraph(nodes, links).Success?
    requires a in Names(nodes)
    ensures multiset(BuildGraph(nodes, links).value[a])[b] == EdgeCount(nodes, links, a, b)
    decreases |links|
  {
    if |links| > 0 {
      var prefix := links[..|links| - 1];
      NeighbourCounts(nodes, prefix, a, b);
      AddLinkCount(nodes, BuildGraph(nodes, prefix).value, links[|links| - 1], a, b);
    }
  }

  lemma {:induction false} EdgeCountSymmetric(nodes: seq<Node>, links: seq<Link>, a: Name, b: Name)
    ensures EdgeCount(nodes, links, a, b) == EdgeCount(nodes, links, b, a)
    decreases |links|
  {
    if |links| > 0 {
      EdgeCountSymmetric(nodes, links[..|links| - 1], a, b);
    }
  }

  /** The built graph is symmetric, duplicates from parallel links counted. */
  lemma {:induction false} GraphSymmetric(nodes: seq<Node>, links: seq<Link>)
    requires BuildGraph(nodes, links).Success?
    ensures Symmetric(BuildGraph(nodes, links).value)
  {
    var g := BuildGraph(nodes, links).value;
    forall a, b | a in g && b in g
      ensures multiset(g[a])[b] == multiset(g[b])[a]
    {
      NeighbourCounts(nodes, links, a, b);
      NeighbourCounts(nodes, links, b, a);
      EdgeCountSymmetric(nodes, links, a, b);
    }
  }

  /** Construction fails exactly when some link is broken, and then it reports
      the first endpoint that failed to resolve in the first broken link. */
  lemma {:induction false} BuildGraphFailure(nodes: seq<Node>, links: seq<Link>)
    ensures BuildGraph(nodes, links).Failure?
      <==> exists k :: 0 <= k < |links| && Broken(nodes, links[k])
    ensures BuildGraph(nodes, links).Failure? ==>
      exists k :: 0 <= k < |links| && Broken(nodes, links[k])
        && (forall j :: 0 <= j < k ==> !Broken(nodes, links[j]))
        && BuildGraph(nodes, links).error == UnresolvedEndpoint(BrokenId(nodes, links[k]))
    decreases |links|
  {
    if |links| > 0 {
      var prefix := links[..|links| - 1];
      var last := |links| - 1;
      BuildGraphFailure(nodes, prefix);
      assert forall k :: 0 <= k < last ==> links[k] == prefix[k];
      if BuildGraph(nodes, prefix).Success? {
        assert forall k :: 0 <= k < last ==> !Broken(nodes, links[k]);
      }
    }
  }

  /** A link whose endpoint list does not have exactly two entries changes
      nothing: removing it gives the same outcome. */
  lemma {:induction false} MalformedLinkIgnored(nodes: seq<Node>, links: seq<Link>, i: nat)
    requires i < |links|
    requires |links[i].endpoints| != 2
    ensures BuildGraph(nodes, links) == BuildGraph(nodes, links[..i] + links[i + 1..])
    decreases |links|
  {
    var rest := links[..i] + links[i + 1..];
    var last := |links| - 1;
    if i == last {
      assert rest == links[..last];
    } else {
      var prefix := links[..last];
      MalformedLinkIgnored(nodes, prefix, i);
      assert rest[..|rest| - 1] == prefix[..i] + prefix[i + 1..];
      assert rest[|rest| - 1] == links[last];
      SameLastLink(nodes, links, rest);
    }
  }

  /** Two link lists that end in the same link and whose prefixes build the
      same outcome build the same outcome. */
  lemma SameLastLink(nodes: seq<Node>, a: seq<Link>, b: seq<Link>)
    requires |a| > 0 && |b| > 0 && a[|a| - 1] == b[|b| - 1]
    requires BuildGraph(nodes, a[..|a| - 1]) == BuildGraph(nodes, b[..|b| - 1])
    ensures BuildGraph(nodes, a) == BuildGraph(nodes, b)
  {
  }
}
