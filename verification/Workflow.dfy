/** Workflow nodes as the editor sees them, and the dependency graph it reads off them. */
module Workflow {
  import opened Graph
  import opened Contraction

  /** One reference inside a node's text. The path is what follows the id, field by field. */
  datatype Ref =
    | NodeRef(id: Id, path: seq<string>)      // $node.<id>.<field>...
    | ParentRef(id: Id, path: seq<string>)    // $parent.node.<id>.<field>...
    // $parent.parent.node.<id>... with `up` parents, and node["<id>"] in Python code under `up` parents:
    // read at run time, but matched by none of the editor's patterns.
    | HiddenRef(up: nat, id: Id, path: seq<string>)
    | StateRef(field: string)                 // $state.<field>
    | OtherRef(text: string)

  /** A workflow node. A plain node keeps all its text in `refs` and `bestTex`; a repeat zone keeps
      there only the text of the keys that count as dependencies. Besides these it has outputs, the state
      updates and nodes of its body, its `max_iterations` in `rounds`, and its `condition`. */
  datatype Node = Node(
    id: Id,
    repeat: bool,
    needs: seq<Id>,
    managed: set<Id>,
    refs: seq<Ref>,
    bestTex: seq<Ref>,
    outputs: seq<Ref>,
    updates: seq<Ref>,
    rounds: seq<Ref>,
    condition: seq<Ref>,
    body: seq<Node>)

  function Plain(id: Id, needs: seq<Id>, refs: seq<Ref>): Node {
    Node(id, false, needs, {}, refs, [], [], [], [], [], [])
  }

  function Zone(id: Id, needs: seq<Id>, body: seq<Node>): Node {
    Node(id, true, needs, {}, [], [], [], [], [], [], body)
  }

  datatype Error =
    | StartNotFound | EndNotFound | NoPath | NestedRepeat | NothingToMove
    | EmptyRequest | NodeNotFound

  datatype Result<+T> = Success(value: T) | Failure(error: Error)

  function NodeIds(refs: seq<Ref>): set<Id> {
    set r | r in refs && r.NodeRef? :: r.id
  }

  function ParentIds(refs: seq<Ref>): set<Id> {
    set r | r in refs && r.ParentRef? :: r.id
  }

  /** Every id a node's order depends on: its `needs` and the nodes its text names. */
  function DepIds(n: Node): set<Id> {
    Elems(n.needs) + NodeIds(n.refs) + NodeIds(n.bestTex)
  }

  function Ids(nodes: seq<Node>): set<Id> {
    set n | n in nodes :: n.id
  }

  // ---- Which top-level nodes text names, when it is evaluated ----

  /** A reference in text that stands `depth` bodies deep reads a top-level node. */
  predicate Means(r: Ref, depth: nat) {
    match r
    case NodeRef(_, _) => depth == 0
    case ParentRef(_, _) => depth == 1
    case HiddenRef(up, _, _) => depth == up
    case _ => false
  }

  /** The top-level ids that text names. */
  function TopIds(refs: seq<Ref>, depth: nat): set<Id> {
    set r | r in refs && Means(r, depth) :: r.id
  }

  /** The top-level ids that a node's text names, the node standing `depth` bodies deep. A zone's condition,
      outputs, state updates and body are evaluated inside it; so is its `best_tex` after every round, and
      once more beside it when it is done. */
  function TextNames(n: Node, depth: nat): set<Id>
    decreases n
  {
    TopIds(n.refs, depth) + TopIds(n.bestTex, depth) + TopIds(n.rounds, depth)
    + (if n.repeat then TopIds(n.bestTex, depth + 1) else {})
    + TopIds(n.condition, depth + 1) + TopIds(n.outputs, depth + 1) + TopIds(n.updates, depth + 1)
    + BodyNames(n.body, depth + 1)
  }

  function BodyNames(body: seq<Node>, depth: nat): set<Id>
    decreases body
  {
    if body == [] then {} else TextNames(body[0], depth) + BodyNames(body[1..], depth)
  }

  // ---- The graph ----

  function IdList(nodes: seq<Node>): seq<Id> {
    seq(|nodes|, i requires 0 <= i < |nodes| => nodes[i].id)
  }

  lemma IdListElems(nodes: seq<Node>)
    ensures Elems(IdList(nodes)) == Ids(nodes)
  {
    forall v | v in Ids(nodes) ensures v in IdList(nodes) {
      var n :| n in nodes && n.id == v;
      var i :| 0 <= i < |nodes| && nodes[i] == n;
      assert IdList(nodes)[i] == v;
    }
  }

  /** Some listed node `t` names `d`. */
  ghost predicate Names(nodes: seq<Node>, t: Id, d: Id) {
    exists n :: n in nodes && n.id == t && d in DepIds(n)
  }

  lemma NamesSnoc(nodes: seq<Node>, i: nat, t: Id, d: Id)
    requires i < |nodes|
    ensures Names(nodes[..i + 1], t, d) <==>
              Names(nodes[..i], t, d) || (t == nodes[i].id && d in DepIds(nodes[i]))
  {
    assert nodes[..i + 1] == nodes[..i] + [nodes[i]];
    if n :| n in nodes[..i] && n.id == t && d in DepIds(n) {
      assert n in nodes[..i + 1];
    }
    assert nodes[i] in nodes[..i + 1];
  }

  /** `t` waits for `d`: the edge d -> t of the top-level graph. */
  ghost predicate Depends(nodes: seq<Node>, d: Id, t: Id) {
    d in Ids(nodes) && d != t && Names(nodes, t, d)
  }

  /** The graph of a node list holds exactly the dependency edges between listed nodes. */
  ghost predicate IsAdjacency(nodes: seq<Node>, g: Adjacency) {
    g.Keys == Ids(nodes) && forall d, t :: Edge(g, d, t) <==> Depends(nodes, d, t)
  }

  lemma AdjacencyNodes(nodes: seq<Node>, g: Adjacency)
    requires IsAdjacency(nodes, g)
    ensures Nodes(g) == Ids(nodes)
  {
    forall v | v in Nodes(g) ensures v in Ids(nodes) {
      if v !in g {
        var a :| a in g && v in g[a];
        assert Edge(g, a, v);
      }
    }
  }

  /** Both graphs of one node list have the same edges. */
  lemma AdjacencyUnique(nodes: seq<Node>, g: Adjacency, h: Adjacency)
    requires IsAdjacency(nodes, g) && IsAdjacency(nodes, h)
    ensures g == h
  {
    forall d | d in g ensures g[d] == h[d] {
      forall t ensures t in g[d] <==> t in h[d] {
        assert Edge(g, d, t) <==> Edge(h, d, t);
      }
    }
  }

  method TopLevelAdjacency(nodes: seq<Node>) returns (adjacency: Adjacency)
    ensures IsAdjacency(nodes, adjacency)
  {
    var ids := Ids(nodes);
    adjacency := map v | v in ids :: {};
    for i := 0 to |nodes|
      invariant adjacency.Keys == ids
      invariant forall d, t :: Edge(adjacency, d, t) <==>
        d in ids && d != t && Names(nodes[..i], t, d)
    {
      var target := nodes[i].id;
      var deps := SomeOrder(DepIds(nodes[i]));
      assert nodes[..i + 1] == nodes[..i] + [nodes[i]];
      for j := 0 to |deps|
        invariant adjacency.Keys == ids
        invariant forall d, t :: Edge(adjacency, d, t) <==>
          && d in ids && d != t
          && (Names(nodes[..i], t, d) || (t == target && d in deps[..j]))
      {
        var dep := deps[j];
        assert deps[..j + 1] == deps[..j] + [dep];
        ghost var before := adjacency;
        if dep in ids && dep != target {
          adjacency := adjacency[dep := adjacency[dep] + {target}];
        }
        forall d, t ensures Edge(adjacency, d, t) <==>
          Edge(before, d, t) || (d == dep && t == target && dep in ids && dep != target) {}
      }
      assert deps[..|deps|] == deps;
      forall d, t ensures Edge(adjacency, d, t) <==> d in ids && d != t && Names(nodes[..i + 1], t, d) {
        NamesSnoc(nodes, i, t, d);
      }
    }
    assert nodes[..|nodes|] == nodes;
  }

  /** The ids on some directed walk from `startId` to `endId`, or why there are none. */
  method NodeIdsOnPaths(nodes: seq<Node>, startId: Id, endId: Id, ghost g: Adjacency) returns (r: Result<set<Id>>)
    requires IsAdjacency(nodes, g)
    ensures startId !in Ids(nodes) ==> r == Failure(StartNotFound)
    ensures startId in Ids(nodes) && endId !in Ids(nodes) ==> r == Failure(EndNotFound)
    ensures startId in Ids(nodes) && endId in Ids(nodes) ==>
              if startId == endId then r == Success({startId})
              else if !Leads(g, startId, endId) then r == Failure(NoPath)
              else r.Success? && OnPaths(g, startId, endId, r.value)
  {
    var ids := Ids(nodes);
    if startId !in ids { return Failure(StartNotFound); }
    if endId !in ids { return Failure(EndNotFound); }
    if startId == endId { return Success({startId}); }
    var adjacency := TopLevelAdjacency(nodes);
    AdjacencyUnique(nodes, adjacency, g);
    var reverse := Reverse(adjacency, ids);
    var forward := Reachable(adjacency, startId);
    if endId !in forward { return Failure(NoPath); }
    var backward := Reachable(reverse, endId);
    forall v ensures v in backward <==> Leads(g, v, endId) {
      ReverseLeads(g, reverse, endId, v);
    }
    return Success(forward * backward);
  }
}
