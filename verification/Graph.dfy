/** Directed graphs given as adjacency maps, the form `_top_level_adjacency` returns:
    `g[a]` holds the targets of the edges leaving `a`. */
module Graph {

  type Id = string
  type Adjacency = map<Id, set<Id>>

  function Elems<T(==)>(xs: seq<T>): set<T> {
    set x | x in xs
  }

  predicate Edge(g: Adjacency, a: Id, b: Id) {
    a in g && b in g[a]
  }

  ghost predicate IsWalk(g: Adjacency, p: seq<Id>) {
    p != [] && forall i :: 0 <= i < |p| - 1 ==> Edge(g, p[i], p[i + 1])
  }

  /** There is a walk of zero or more edges from `a` to `b`. */
  ghost predicate Leads(g: Adjacency, a: Id, b: Id) {
    exists p :: IsWalk(g, p) && p[0] == a && p[|p| - 1] == b
  }

  /** There is a walk of one or more edges from `a` to `b`. */
  ghost predicate Precedes(g: Adjacency, a: Id, b: Id) {
    exists p :: IsWalk(g, p) && |p| > 1 && p[0] == a && p[|p| - 1] == b
  }

  ghost predicate Acyclic(g: Adjacency) {
    forall v :: !Precedes(g, v, v)
  }

  lemma LeadsRefl(g: Adjacency, a: Id)
    ensures Leads(g, a, a)
  {
    assert IsWalk(g, [a]);
  }

  lemma LeadsEdge(g: Adjacency, a: Id, b: Id)
    requires Edge(g, a, b)
    ensures Precedes(g, a, b) && Leads(g, a, b)
  {
    var p := [a, b];
    assert IsWalk(g, p) && |p| > 1 && p[0] == a && p[|p| - 1] == b;
  }

  lemma LeadsSplit(g: Adjacency, a: Id, b: Id)
    ensures Leads(g, a, b) <==> a == b || Precedes(g, a, b)
  {
    if Leads(g, a, b) && a != b {
      var p :| IsWalk(g, p) && p[0] == a && p[|p| - 1] == b;
      assert |p| > 1;
    }
    if a == b { LeadsRefl(g, a); }
  }

  lemma WalkAppend(g: Adjacency, p: seq<Id>, q: seq<Id>)
    requires IsWalk(g, p) && IsWalk(g, q) && p[|p| - 1] == q[0]
    ensures var r := p + q[1..];
            IsWalk(g, r) && r[0] == p[0] && r[|r| - 1] == q[|q| - 1] && |r| == |p| + |q| - 1
  {
    var r := p + q[1..];
    forall i | 0 <= i < |r| - 1 ensures Edge(g, r[i], r[i + 1]) {
      if i >= |p| - 1 {
        var j := i - (|p| - 1);
        assert r[i] == q[j] && r[i + 1] == q[j + 1];
      }
    }
  }

  lemma LeadsTrans(g: Adjacency, a: Id, b: Id, c: Id)
    requires Leads(g, a, b) && Leads(g, b, c)
    ensures Leads(g, a, c)
    ensures Precedes(g, a, b) || Precedes(g, b, c) ==> Precedes(g, a, c)
  {
    var p :| IsWalk(g, p) && p[0] == a && p[|p| - 1] == b && (Precedes(g, a, b) ==> |p| > 1);
    var q :| IsWalk(g, q) && q[0] == b && q[|q| - 1] == c && (Precedes(g, b, c) ==> |q| > 1);
    WalkAppend(g, p, q);
  }

  lemma PrecedesTrans(g: Adjacency, a: Id, b: Id, c: Id)
    requires Precedes(g, a, b) && Precedes(g, b, c)
    ensures Precedes(g, a, c)
  {
    LeadsSplit(g, a, b);
    LeadsSplit(g, b, c);
    LeadsTrans(g, a, b, c);
  }

  ghost predicate ContainsEdges(g: Adjacency, r: (Id, Id) -> bool) {
    forall a, b :: Edge(g, a, b) ==> r(a, b)
  }

  ghost predicate Transitive(r: (Id, Id) -> bool) {
    forall a, b, c :: r(a, b) && r(b, c) ==> r(a, c)
  }

  /** A transitive relation that holds of every edge holds of every walk. */
  lemma {:induction false} WalkWithin(g: Adjacency, r: (Id, Id) -> bool, p: seq<Id>)
    requires ContainsEdges(g, r) && Transitive(r) && IsWalk(g, p) && |p| > 1
    ensures r(p[0], p[|p| - 1])
  {
    assert Edge(g, p[0], p[1]);
    if |p| > 2 {
      assert IsWalk(g, p[1..]) by {
        forall i | 0 <= i < |p[1..]| - 1 ensures Edge(g, p[1..][i], p[1..][i + 1]) {
          assert Edge(g, p[i + 1], p[i + 2]);
        }
      }
      WalkWithin(g, r, p[1..]);
    }
  }

  lemma PrecedesWithin(g: Adjacency, r: (Id, Id) -> bool, a: Id, b: Id)
    requires ContainsEdges(g, r) && Transitive(r) && Precedes(g, a, b)
    ensures r(a, b)
  {
    var p :| IsWalk(g, p) && |p| > 1 && p[0] == a && p[|p| - 1] == b;
    WalkWithin(g, r, p);
  }

  /** A map of nodes that sends every edge of `g` to an edge of `h` keeps acyclicity. */
  lemma AcyclicByImage(g: Adjacency, h: Adjacency, f: Id -> Id)
    requires Acyclic(h)
    requires forall a, b :: Edge(g, a, b) ==> Edge(h, f(a), f(b))
    ensures Acyclic(g)
  {
    forall v ensures !Precedes(g, v, v) {
      if Precedes(g, v, v) {
        var p :| IsWalk(g, p) && |p| > 1 && p[0] == v && p[|p| - 1] == v;
        var q := seq(|p|, i requires 0 <= i < |p| => f(p[i]));
        assert IsWalk(h, q) by {
          forall i | 0 <= i < |q| - 1 ensures Edge(h, q[i], q[i + 1]) {
            assert Edge(g, p[i], p[i + 1]);
          }
        }
        assert Precedes(h, f(v), f(v));
      }
    }
  }

  /** A set that holds `a` and is closed under edges holds all that `a` leads to. */
  lemma {:induction false} ClosedSet(g: Adjacency, s: set<Id>, p: seq<Id>)
    requires IsWalk(g, p) && p[0] in s
    requires forall a, b :: a in s && Edge(g, a, b) ==> b in s
    ensures p[|p| - 1] in s
  {
    if |p| > 1 {
      assert Edge(g, p[0], p[1]);
      assert IsWalk(g, p[1..]) by {
        forall i | 0 <= i < |p[1..]| - 1 ensures Edge(g, p[1..][i], p[1..][i + 1]) {
          assert Edge(g, p[i + 1], p[i + 2]);
        }
      }
      ClosedSet(g, s, p[1..]);
    }
  }

  /** The order in which a set is walked; the source sorts, and no result here depends on it. */
  method SomeOrder(s: set<Id>) returns (xs: seq<Id>)
    ensures forall x :: x in xs <==> x in s
    ensures forall i, j :: 0 <= i < j < |xs| ==> xs[i] != xs[j]
  {
    xs := [];
    var rest := s;
    while rest != {}
      invariant rest <= s
      invariant forall x :: x in xs <==> x in s && x !in rest
      invariant forall i, j :: 0 <= i < j < |xs| ==> xs[i] != xs[j]
      decreases rest
    {
      var x :| x in rest;
      assert x !in xs;
      xs, rest := xs + [x], rest - {x};
    }
  }

  ghost function Nodes(g: Adjacency): set<Id> {
    g.Keys + set a, b | a in g && b in g[a] :: b
  }

  /** Depth-first search with an explicit stack. Each pass either shrinks the unseen nodes or,
      when the popped node was seen, the stack. */
  method Reachable(g: Adjacency, start: Id) returns (seen: set<Id>)
    ensures forall v :: v in seen <==> Leads(g, start, v)
  {
    seen := {};
    var stack := [start];
    ghost var universe := Nodes(g) + {start};
    LeadsRefl(g, start);
    while stack != []
      invariant forall v :: v in stack ==> v in universe && Leads(g, start, v)
      invariant forall v :: v in seen ==> Leads(g, start, v)
      invariant start in seen || start in stack
      invariant forall a, b :: a in seen && Edge(g, a, b) ==> b in seen || b in stack
      decreases universe - seen, |stack|
    {
      var nodeId := stack[|stack| - 1];
      ghost var before := stack;
      stack := stack[..|stack| - 1];
      assert before == stack + [nodeId];
      if nodeId in seen { continue; }
      seen := seen + {nodeId};
      var next := SomeOrder((if nodeId in g then g[nodeId] else {}) - seen);
      forall v | v in next ensures Leads(g, start, v) && v in universe {
        LeadsEdge(g, nodeId, v);
        LeadsTrans(g, start, nodeId, v);
      }
      stack := stack + next;
    }
    forall v | Leads(g, start, v) ensures v in seen {
      var p :| IsWalk(g, p) && p[0] == start && p[|p| - 1] == v;
      ClosedSet(g, seen, p);
    }
  }

  /** The same graph with every edge turned round, over the node ids `ids`. */
  ghost predicate IsReverse(g: Adjacency, r: Adjacency) {
    forall a, b :: Edge(r, a, b) <==> Edge(g, b, a)
  }

  method Reverse(g: Adjacency, ids: set<Id>) returns (r: Adjacency)
    ensures IsReverse(g, r)
  {
    r := map v | v in ids :: {};
    var sources := SomeOrder(g.Keys);
    for i := 0 to |sources|
      invariant forall a, b :: Edge(r, a, b) <==> Edge(g, b, a) && b in sources[..i]
    {
      var source := sources[i];
      var targets := SomeOrder(g[source]);
      assert sources[..i + 1] == sources[..i] + [source];
      for j := 0 to |targets|
        invariant forall a, b :: Edge(r, a, b) <==>
          Edge(g, b, a) && (b in sources[..i] || (b == source && a in targets[..j]))
      {
        var target := targets[j];
        assert targets[..j + 1] == targets[..j] + [target];
        r := r[target := (if target in r then r[target] else {}) + {source}];
      }
      assert targets[..|targets|] == targets;
    }
    assert sources[..|sources|] == sources;
  }

  lemma {:induction false} ReverseWalk(g: Adjacency, r: Adjacency, p: seq<Id>) returns (q: seq<Id>)
    requires IsReverse(g, r) && IsWalk(r, p)
    ensures IsWalk(g, q) && q[0] == p[|p| - 1] && q[|q| - 1] == p[0]
  {
    q := seq(|p|, i requires 0 <= i < |p| => p[|p| - 1 - i]);
    forall i | 0 <= i < |q| - 1 ensures Edge(g, q[i], q[i + 1]) {
      assert Edge(r, p[|p| - 2 - i], p[|p| - 1 - i]);
    }
  }

  lemma ReverseLeads(g: Adjacency, r: Adjacency, a: Id, b: Id)
    requires IsReverse(g, r)
    ensures Leads(r, a, b) <==> Leads(g, b, a)
  {
    if Leads(r, a, b) {
      var p :| IsWalk(r, p) && p[0] == a && p[|p| - 1] == b;
      var q := ReverseWalk(g, r, p);
    }
    if Leads(g, b, a) {
      var p :| IsWalk(g, p) && p[0] == b && p[|p| - 1] == a;
      assert IsReverse(r, g);
      var q := ReverseWalk(r, g, p);
    }
  }
}
