/** Contracting a set `sel` of nodes of an acyclic graph to one fresh node `zone`. */
module Contraction {
  import opened Graph

  /** All nodes on a walk from `start` to `end`, as `_node_ids_on_paths` promises. */
  ghost predicate OnPaths(g: Adjacency, start: Id, end: Id, sel: set<Id>) {
    forall v :: v in sel <==> Leads(g, start, v) && Leads(g, v, end)
  }

  /** No walk leaves the set and comes back. */
  ghost predicate Convex(g: Adjacency, sel: set<Id>) {
    forall a, x, b :: a in sel && b in sel && Leads(g, a, x) && Leads(g, x, b) ==> x in sel
  }

  lemma OnPathsConvex(g: Adjacency, start: Id, end: Id, sel: set<Id>)
    requires OnPaths(g, start, end, sel)
    ensures Convex(g, sel)
  {
    forall a, x, b | a in sel && b in sel && Leads(g, a, x) && Leads(g, x, b) ensures x in sel {
      LeadsTrans(g, start, a, x);
      LeadsTrans(g, x, b, end);
    }
  }

  /** In an acyclic graph the paths from a node to itself hold that node alone. */
  lemma OnPathsSingle(g: Adjacency, v: Id)
    requires Acyclic(g)
    ensures OnPaths(g, v, v, {v})
  {
    LeadsRefl(g, v);
    forall x | Leads(g, v, x) && Leads(g, x, v) ensures x == v {
      LeadsSplit(g, v, x);
      LeadsTrans(g, v, x, v);
    }
  }

  /** `h` is `g` with `sel` contracted to `zone`, plus edges from `zone` to the nodes of `extra`. */
  ghost predicate IsContraction(g: Adjacency, h: Adjacency, sel: set<Id>, zone: Id, extra: set<Id>) {
    && zone !in Nodes(g) && zone !in sel && sel !! extra && zone !in extra
    && forall a, b :: Edge(h, a, b) <==>
         || (a !in sel && b !in sel && Edge(g, a, b))
         || (a == zone && b !in sel && (b in extra || LeavesTo(g, sel, b)))
         || (a !in sel && b == zone && EntersFrom(g, a, sel))
  }

  ghost predicate LeavesTo(g: Adjacency, sel: set<Id>, b: Id) {
    exists s :: s in sel && Edge(g, s, b)
  }

  ghost predicate EntersFrom(g: Adjacency, a: Id, sel: set<Id>) {
    exists s :: s in sel && Edge(g, a, s)
  }

  /** `x` precedes some node of `sel`. */
  ghost predicate Up(g: Adjacency, sel: set<Id>, x: Id) {
    exists s :: s in sel && Precedes(g, x, s)
  }

  /** `y` follows some node of `sel`, or a node that hangs on `zone` by an extra edge. */
  ghost predicate Down(g: Adjacency, sel: set<Id>, extra: set<Id>, y: Id) {
    || (exists s :: s in sel && Precedes(g, s, y))
    || (exists d :: d in extra && Leads(g, d, y))
  }

  /** The order of the contracted graph, told from the old graph alone. */
  ghost predicate After(g: Adjacency, sel: set<Id>, zone: Id, extra: set<Id>, x: Id, y: Id) {
    && x !in sel && y !in sel
    && if x == zone then y != zone && Down(g, sel, extra, y)
       else if y == zone then Up(g, sel, x)
       else Precedes(g, x, y) || (Up(g, sel, x) && Down(g, sel, extra, y))
  }

  ghost predicate NoReturn(g: Adjacency, sel: set<Id>, extra: set<Id>) {
    forall d :: d in extra ==> !Up(g, sel, d)
  }

  lemma UpDownApart(g: Adjacency, sel: set<Id>, extra: set<Id>, y: Id)
    requires Convex(g, sel) && NoReturn(g, sel, extra) && y !in sel
    ensures !(Up(g, sel, y) && Down(g, sel, extra, y))
  {
    if Up(g, sel, y) && Down(g, sel, extra, y) {
      var t :| t in sel && Precedes(g, y, t);
      LeadsSplit(g, y, t);
      if s :| s in sel && Precedes(g, s, y) {
        LeadsSplit(g, s, y);
      } else {
        var d :| d in extra && Leads(g, d, y);
        LeadsTrans(g, d, y, t);
        assert Up(g, sel, d);
      }
    }
  }

  lemma UpBack(g: Adjacency, sel: set<Id>, x: Id, y: Id)
    requires Precedes(g, x, y) && Up(g, sel, y)
    ensures Up(g, sel, x)
  {
    var s :| s in sel && Precedes(g, y, s);
    PrecedesTrans(g, x, y, s);
  }

  lemma DownOn(g: Adjacency, sel: set<Id>, extra: set<Id>, x: Id, y: Id)
    requires Down(g, sel, extra, x) && Precedes(g, x, y)
    ensures Down(g, sel, extra, y)
  {
    if s :| s in sel && Precedes(g, s, x) {
      PrecedesTrans(g, s, x, y);
    } else {
      var d :| d in extra && Leads(g, d, x);
      LeadsSplit(g, x, y);
      LeadsTrans(g, d, x, y);
    }
  }

  lemma AfterTransitive(g: Adjacency, sel: set<Id>, zone: Id, extra: set<Id>, x: Id, y: Id, z: Id)
    requires Convex(g, sel) && NoReturn(g, sel, extra)
    requires After(g, sel, zone, extra, x, y) && After(g, sel, zone, extra, y, z)
    ensures After(g, sel, zone, extra, x, z)
  {
    UpDownApart(g, sel, extra, y);
    if x != zone && y != zone && Precedes(g, x, y) {
      if Up(g, sel, y) { UpBack(g, sel, x, y); }
      if z != zone && Precedes(g, y, z) { PrecedesTrans(g, x, y, z); }
    }
    if y != zone && z != zone && Precedes(g, y, z) && Down(g, sel, extra, y) {
      DownOn(g, sel, extra, y, z);
    }
  }

  lemma EdgesWithinAfter(g: Adjacency, h: Adjacency, sel: set<Id>, zone: Id, extra: set<Id>, a: Id, b: Id)
    requires IsContraction(g, h, sel, zone, extra) && Edge(h, a, b)
    ensures After(g, sel, zone, extra, a, b)
  {
    if Edge(g, a, b) { LeadsEdge(g, a, b); }
    if a == zone {
      if b in extra { LeadsRefl(g, b); }
      if s :| s in sel && Edge(g, s, b) { LeadsEdge(g, s, b); }
    } else if b == zone {
      var s :| s in sel && Edge(g, a, s);
      LeadsEdge(g, a, s);
    }
  }

  function Collapse(sel: set<Id>, zone: Id, x: Id): Id {
    if x in sel then zone else x
  }

  /** Every walk of the old graph is a walk of the contracted one, with the steps inside `sel` dropped. */
  lemma {:induction false} WalkCollapses(g: Adjacency, h: Adjacency, sel: set<Id>, zone: Id, extra: set<Id>, p: seq<Id>)
    requires IsContraction(g, h, sel, zone, extra) && IsWalk(g, p)
    ensures Leads(h, Collapse(sel, zone, p[0]), Collapse(sel, zone, p[|p| - 1]))
  {
    var a := Collapse(sel, zone, p[0]);
    LeadsRefl(h, a);
    if |p| > 1 {
      assert Edge(g, p[0], p[1]);
      assert IsWalk(g, p[1..]) by {
        forall i | 0 <= i < |p[1..]| - 1 ensures Edge(g, p[1..][i], p[1..][i + 1]) {
          assert Edge(g, p[i + 1], p[i + 2]);
        }
      }
      WalkCollapses(g, h, sel, zone, extra, p[1..]);
      var b := Collapse(sel, zone, p[1]);
      if a != b {
        assert p[0] in sel ==> LeavesTo(g, sel, p[1]);
        assert p[1] in sel ==> EntersFrom(g, p[0], sel);
        assert Edge(h, a, b);
        LeadsEdge(h, a, b);
        LeadsTrans(h, a, b, Collapse(sel, zone, p[|p| - 1]));
      }
    }
  }

  lemma LeadsCollapses(g: Adjacency, h: Adjacency, sel: set<Id>, zone: Id, extra: set<Id>, x: Id, y: Id)
    requires IsContraction(g, h, sel, zone, extra) && Leads(g, x, y)
    ensures Leads(h, Collapse(sel, zone, x), Collapse(sel, zone, y))
    ensures Collapse(sel, zone, x) != Collapse(sel, zone, y) ==>
              Precedes(h, Collapse(sel, zone, x), Collapse(sel, zone, y))
  {
    var p :| IsWalk(g, p) && p[0] == x && p[|p| - 1] == y;
    WalkCollapses(g, h, sel, zone, extra, p);
    LeadsSplit(h, Collapse(sel, zone, x), Collapse(sel, zone, y));
  }

  lemma ZoneLeadsDown(g: Adjacency, h: Adjacency, sel: set<Id>, zone: Id, extra: set<Id>, y: Id)
    requires IsContraction(g, h, sel, zone, extra) && Down(g, sel, extra, y) && y !in sel && y != zone
    ensures Precedes(h, zone, y)
  {
    if s :| s in sel && Precedes(g, s, y) {
      LeadsSplit(g, s, y);
      LeadsCollapses(g, h, sel, zone, extra, s, y);
    } else {
      var d :| d in extra && Leads(g, d, y);
      LeadsCollapses(g, h, sel, zone, extra, d, y);
      LeadsEdge(h, zone, d);
      LeadsTrans(h, zone, d, y);
    }
  }

  lemma UpLeadsZone(g: Adjacency, h: Adjacency, sel: set<Id>, zone: Id, extra: set<Id>, x: Id)
    requires IsContraction(g, h, sel, zone, extra) && Up(g, sel, x) && x !in sel && x != zone
    ensures Precedes(h, x, zone)
  {
    var s :| s in sel && Precedes(g, x, s);
    LeadsSplit(g, x, s);
    LeadsCollapses(g, h, sel, zone, extra, x, s);
  }

  /** The order of the contracted graph, exactly: what held between outside nodes still holds, and the
      only new pairs lead through the zone. */
  lemma ContractedOrder(g: Adjacency, h: Adjacency, sel: set<Id>, zone: Id, extra: set<Id>, x: Id, y: Id)
    requires IsContraction(g, h, sel, zone, extra) && Acyclic(g) && Convex(g, sel) && NoReturn(g, sel, extra)
    ensures Precedes(h, x, y) <==> After(g, sel, zone, extra, x, y)
  {
    var r := (a, b) => After(g, sel, zone, extra, a, b);
    if Precedes(h, x, y) {
      forall a, b | Edge(h, a, b) ensures r(a, b) { EdgesWithinAfter(g, h, sel, zone, extra, a, b); }
      forall a, b, c | r(a, b) && r(b, c) ensures r(a, c) {
        AfterTransitive(g, sel, zone, extra, a, b, c);
      }
      PrecedesWithin(h, r, x, y);
    }
    if After(g, sel, zone, extra, x, y) {
      if x == zone {
        ZoneLeadsDown(g, h, sel, zone, extra, y);
      } else if y == zone {
        UpLeadsZone(g, h, sel, zone, extra, x);
      } else if Precedes(g, x, y) {
        LeadsSplit(g, x, y);
        LeadsCollapses(g, h, sel, zone, extra, x, y);
      } else {
        UpLeadsZone(g, h, sel, zone, extra, x);
        ZoneLeadsDown(g, h, sel, zone, extra, y);
        PrecedesTrans(h, x, zone, y);
      }
    }
  }

  /** Contracting a convex set of an acyclic graph makes a cycle exactly when an extra edge leads
      from the zone to a node that precedes the set. */
  lemma ContractionAcyclic(g: Adjacency, h: Adjacency, sel: set<Id>, zone: Id, extra: set<Id>)
    requires IsContraction(g, h, sel, zone, extra) && Acyclic(g) && Convex(g, sel)
    ensures Acyclic(h) <==> NoReturn(g, sel, extra)
  {
    if NoReturn(g, sel, extra) {
      forall v ensures !Precedes(h, v, v) {
        ContractedOrder(g, h, sel, zone, extra, v, v);
        if v !in sel { UpDownApart(g, sel, extra, v); }
      }
    } else {
      var d :| d in extra && Up(g, sel, d);
      UpLeadsZone(g, h, sel, zone, extra, d);
      LeadsEdge(h, zone, d);
      PrecedesTrans(h, zone, d, zone);
    }
  }
}
