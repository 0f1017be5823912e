/** The tree of calls rebuilt from the flat event log, with what each call and its subtree used. */
module CallTree {
  import opened Wrappers

  /** A call's id; only which ids are equal matters here. */
  type Id = int

  datatype Usage = Usage(cost: real, input: int, output: int) {
    function Plus(u: Usage): Usage { Usage(cost + u.cost, input + u.input, output + u.output) }
  }

  const ZERO := Usage(0.0, 0, 0)

  /** The events the tree is built from. An absent id is None, and so is an empty one. */
  datatype Event =
    | Start(call: Option<Id>, parent: Option<Id>, ts: Option<int>)
    | CacheHit(call: Option<Id>, parent: Option<Id>, ts: Option<int>)
    | End(call: Option<Id>)
    | ModelCall(call: Option<Id>, parent: Option<Id>, usage: Usage)
    | Touch(call: Option<Id>, parent: Option<Id>)
    | Ignored

  datatype Node = Node(parent: Option<Id>, start: Option<int>, own: Usage)

  const NEW_NODE := Node(None, None, ZERO)

  ghost predicate Distinct(s: seq<Id>) {
    forall i, j :: 0 <= i < j < |s| ==> s[i] != s[j]
  }

  /** The calls in the order first seen. */
  datatype Calls = Calls(order: seq<Id>, nodes: map<Id, Node>) {
    ghost predicate Valid() {
      && Distinct(order)
      && (forall n :: n in order <==> n in nodes)
    }

    function At(n: Id): Node { if n in nodes then nodes[n] else NEW_NODE }

    function Put(n: Id, node: Node): Calls {
      Calls(if n in nodes then order else order + [n], nodes[n := node])
    }

    /** The parent, if it is one of the calls. */
    function Parent(n: Id): Option<Id> {
      if n in nodes && nodes[n].parent.Some? && nodes[n].parent.value in nodes then nodes[n].parent else None
    }
  }

  function Or<T>(a: Option<T>, b: Option<T>): Option<T> { if a.Some? then a else b }

  /** The call that an event of this kind is put down to. */
  function Target(e: Event): Option<Id> {
    match e
    case ModelCall(call, parent, _) => Or(parent, call)
    case Touch(call, parent) => Or(parent, call)
    case Start(call, _, _) => call
    case CacheHit(call, _, _) => call
    case End(call) => call
    case Ignored => None
  }

  function Changed(node: Node, e: Event): Node {
    match e
    case Start(_, parent, ts) => node.(parent := parent, start := ts)
    case CacheHit(_, parent, ts) => node.(parent := Or(node.parent, parent), start := Or(node.start, ts))
    case ModelCall(_, _, usage) => node.(own := node.own.Plus(usage))
    case _ => node
  }

  function After(c: Calls, e: Event): Calls {
    if Target(e).None? then c else c.Put(Target(e).value, Changed(c.At(Target(e).value), e))
  }

  function Read(events: seq<Event>): Calls {
    if events == [] then Calls([], map[]) else After(Read(events[..|events| - 1]), events[|events| - 1])
  }

  /** Stable order by start; a call without a start comes first. */
  predicate Before(a: Option<int>, b: Option<int>) {
    b.Some? && (a.None? || a.value < b.value)
  }

  function Inserted(c: Calls, n: Id, sorted: seq<Id>): seq<Id> {
    if sorted == [] || Before(c.At(n).start, c.At(sorted[|sorted| - 1]).start) == false then sorted + [n]
    else Inserted(c, n, sorted[..|sorted| - 1]) + [sorted[|sorted| - 1]]
  }

  function Sorted(c: Calls, ids: seq<Id>): seq<Id> {
    if ids == [] then [] else Inserted(c, ids[|ids| - 1], Sorted(c, ids[..|ids| - 1]))
  }

  /** The calls of a list whose parent is `parent`, in the list's order. */
  function WithParent(c: Calls, ids: seq<Id>, parent: Option<Id>): seq<Id> {
    if ids == [] then []
    else
      var before := WithParent(c, ids[..|ids| - 1], parent);
      if c.Parent(ids[|ids| - 1]) == parent then before + [ids[|ids| - 1]] else before
  }

  function Children(c: Calls, n: Id): seq<Id> { Sorted(c, WithParent(c, c.order, Some(n))) }

  function Roots(c: Calls): seq<Id> { Sorted(c, WithParent(c, c.order, None)) }

  // ---- Calls above and below ----

  /** `k` parents up. */
  ghost function Up(c: Calls, n: Id, k: nat): Option<Id>
    decreases k
  {
    if k == 0 then Some(n)
    else
      var p := c.Parent(n);
      if p.None? then None else Up(c, p.value, k - 1)
  }

  /** The parents lead to a root, not round a cycle. */
  ghost predicate Grounded(c: Calls, n: Id) {
    exists k: nat :: Up(c, n, k).None?
  }

  ghost function GroundedCalls(c: Calls): set<Id> {
    set m | m in c.nodes && Grounded(c, m)
  }

  ghost predicate Above(c: Calls, n: Id, m: Id) {
    exists k: nat :: Up(c, m, k) == Some(n)
  }

  /** The call and all below it. */
  ghost function Below(c: Calls, n: Id): set<Id> {
    set m | m in c.nodes && Above(c, n, m)
  }

  lemma {:induction false} UpPlus(c: Calls, n: Id, j: nat, k: nat)
    ensures Up(c, n, j + k) == if Up(c, n, j).None? then None else Up(c, Up(c, n, j).value, k)
    decreases j
  {
    if j > 0 && c.Parent(n).Some? { UpPlus(c, c.Parent(n).value, j - 1, k); }
  }

  /** A grounded call is on no cycle. */
  lemma {:induction false} NoCycle(c: Calls, n: Id, end: nat, k: nat)
    requires Up(c, n, end).None? && k > 0
    ensures Up(c, n, k) != Some(n)
    decreases end
  {
    if Up(c, n, k) == Some(n) {
      if k <= end {
        UpPlus(c, n, k, end - k);
        NoCycle(c, n, end - k, k);
      } else {
        UpPlus(c, n, end, k - end);
      }
    }
  }

  lemma ChildBelow(c: Calls, n: Id, child: Id)
    requires c.Valid() && Grounded(c, n) && c.Parent(child) == Some(n)
    ensures Grounded(c, child) && Below(c, child) < Below(c, n) && n !in Below(c, child)
  {
    var end: nat :| Up(c, n, end).None?;
    assert Up(c, child, end + 1).None?;
    assert Up(c, child, 1) == Some(n) by { assert Up(c, n, 0) == Some(n); }
    forall m | m in Below(c, child) ensures m in Below(c, n) {
      var k: nat :| Up(c, m, k) == Some(child);
      UpPlus(c, m, k, 1);
      assert Up(c, m, k + 1) == Some(n);
    }
    if n in Below(c, child) {
      var k: nat :| Up(c, n, k) == Some(child);
      UpPlus(c, n, k, 1);
      NoCycle(c, n, end, k + 1);
    }
    assert Up(c, n, 0) == Some(n);
    assert n in Below(c, n);
  }

  lemma {:induction false} InsertedIs(c: Calls, n: Id, sorted: seq<Id>)
    ensures multiset(Inserted(c, n, sorted)) == multiset(sorted) + multiset{n}
    ensures forall m :: m in Inserted(c, n, sorted) <==> m == n || m in sorted
  {
    if sorted != [] && Before(c.At(n).start, c.At(sorted[|sorted| - 1]).start) {
      InsertedIs(c, n, sorted[..|sorted| - 1]);
      assert sorted == sorted[..|sorted| - 1] + [sorted[|sorted| - 1]];
    }
    var r := Inserted(c, n, sorted);
    assert forall m :: m in r <==> m in multiset(r);
    assert forall m :: m in sorted <==> m in multiset(sorted);
  }

  lemma {:induction false} SortedIs(c: Calls, ids: seq<Id>)
    ensures multiset(Sorted(c, ids)) == multiset(ids)
    ensures forall m :: m in Sorted(c, ids) <==> m in ids
  {
    if ids != [] {
      SortedIs(c, ids[..|ids| - 1]);
      InsertedIs(c, ids[|ids| - 1], Sorted(c, ids[..|ids| - 1]));
      assert ids == ids[..|ids| - 1] + [ids[|ids| - 1]];
    }
  }

  lemma {:induction false} WithParentIs(c: Calls, ids: seq<Id>, parent: Option<Id>)
    ensures forall m :: m in WithParent(c, ids, parent) <==> m in ids && c.Parent(m) == parent
  {
    if ids != [] { WithParentIs(c, ids[..|ids| - 1], parent); }
  }

  lemma ChildrenAre(c: Calls, n: Id)
    requires c.Valid()
    ensures forall m :: m in Children(c, n) <==> m in c.nodes && c.Parent(m) == Some(n)
  {
    WithParentIs(c, c.order, Some(n));
    SortedIs(c, WithParent(c, c.order, Some(n)));
  }

  lemma RootsAre(c: Calls)
    requires c.Valid()
    ensures forall m :: m in Roots(c) <==> m in c.nodes && c.Parent(m) == None
  {
    WithParentIs(c, c.order, None);
    SortedIs(c, WithParent(c, c.order, None));
  }

  // ---- Subtree totals and display order ----

  /** What a call and its subtree used. */
  ghost function Rolled(c: Calls, n: Id): Usage
    requires c.Valid() && Grounded(c, n)
    decreases Below(c, n), 1, 0
  {
    RolledList(c, n, |Children(c, n)|)
  }

  /** The call's own usage and that of its first `k` children's subtrees. */
  ghost function RolledList(c: Calls, n: Id, k: nat): Usage
    requires c.Valid() && Grounded(c, n) && k <= |Children(c, n)|
    decreases Below(c, n), 0, k
  {
    if k == 0 then c.At(n).own
    else
      var child := Children(c, n)[k - 1];
      ChildrenAre(c, n);
      ChildBelow(c, n, child);
      RolledList(c, n, k - 1).Plus(Rolled(c, child))
  }

  ghost function Preorder(c: Calls, n: Id): seq<Id>
    requires c.Valid() && Grounded(c, n)
    decreases Below(c, n), 1, 0
  {
    PreorderList(c, n, |Children(c, n)|)
  }

  ghost function PreorderList(c: Calls, n: Id, k: nat): seq<Id>
    requires c.Valid() && Grounded(c, n) && k <= |Children(c, n)|
    decreases Below(c, n), 0, k
  {
    if k == 0 then [n]
    else
      var child := Children(c, n)[k - 1];
      ChildrenAre(c, n);
      ChildBelow(c, n, child);
      PreorderList(c, n, k - 1) + Preorder(c, child)
  }

  /** All calls below the first `k` roots, in display order. */
  ghost function Shown(c: Calls, k: nat): seq<Id>
    requires c.Valid() && k <= |Roots(c)|
  {
    if k == 0 then []
    else
      RootsAre(c);
      RootGrounded(c, Roots(c)[k - 1]);
      Shown(c, k - 1) + Preorder(c, Roots(c)[k - 1])
  }

  ghost function RootsUsed(c: Calls, k: nat): Usage
    requires c.Valid() && k <= |Roots(c)|
  {
    if k == 0 then ZERO
    else
      RootsAre(c);
      RootGrounded(c, Roots(c)[k - 1]);
      RootsUsed(c, k - 1).Plus(Rolled(c, Roots(c)[k - 1]))
  }

  lemma RootGrounded(c: Calls, n: Id)
    requires c.Parent(n).None?
    ensures Grounded(c, n)
  {
    assert Up(c, n, 1).None?;
  }

  // ---- The objects ----

  class Tree {
    var calls: Calls
    var children: map<Id, seq<Id>>
    var roots: seq<Id>
    var subtotals: map<Id, Usage>
    var refs: seq<Id>

    constructor ()
      ensures calls == Calls([], map[]) && subtotals == map[] && refs == []
    {
      calls, children, roots, subtotals, refs := Calls([], map[]), map[], [], map[], [];
    }

    method ReadEvents(events: seq<Event>)
      requires calls == Calls([], map[])
      modifies this`calls
      ensures calls == Read(events)
    {
      for i := 0 to |events|
        invariant calls == Read(events[..i])
      {
        assert events[..i + 1][..i] == events[..i];
        var e := events[i];
        var target := Target(e);
        if target.Some? {
          var node := if target.value in calls.nodes then calls.nodes[target.value] else NEW_NODE;
          calls := calls.Put(target.value, Changed(node, e));
        }
      }
      assert events[..|events|] == events;
    }

    /** Each call goes to its parent's children, or to the roots; then both are sorted. */
    method Link()
      requires calls.Valid()
      modifies this`children, this`roots
      ensures Linked()
    {
      children, roots := map n | n in calls.nodes :: [], [];
      for i := 0 to |calls.order|
        invariant children.Keys == calls.nodes.Keys
        invariant roots == WithParent(calls, calls.order[..i], None)
        invariant forall n :: n in children ==> children[n] == WithParent(calls, calls.order[..i], Some(n))
      {
        var n := calls.order[i];
        assert calls.order[..i + 1][..i] == calls.order[..i];
        var parent := calls.Parent(n);
        if parent.Some? {
          children := children[parent.value := children[parent.value] + [n]];
        } else {
          roots := roots + [n];
        }
      }
      assert calls.order[..|calls.order|] == calls.order;
      children := map n | n in children :: Sorted(calls, children[n]);
      roots := Sorted(calls, roots);
    }

    ghost predicate Linked()
      reads this`calls, this`children, this`roots
    {
      && calls.Valid() && children.Keys == calls.nodes.Keys && roots == Roots(calls)
      && forall n :: n in children ==> children[n] == Children(calls, n)
    }

    method RollupCost(n: Id) returns (total: Usage)
      requires Linked() && n in calls.nodes && Grounded(calls, n)
      modifies this`subtotals
      ensures total == Rolled(calls, n) && subtotals == old(subtotals) + TotalsOf(calls, Below(calls, n))
      decreases Below(calls, n)
    {
      total := calls.nodes[n].own;
      var list := children[n];
      ghost var before, done: set<Id> := subtotals, {};
      for i := 0 to |list|
        invariant total == RolledList(calls, n, i)
        invariant done == BelowFirst(calls, list, i) && subtotals == before + TotalsOf(calls, done)
      {
        ChildAt(calls, n, i);
        var used := RollupCost(list[i]);
        TotalsUnion(calls, before, done, Below(calls, list[i]));
        total := total.Plus(used);
        done := done + Below(calls, list[i]);
      }
      BelowIs(calls, n);
      TotalsWith(calls, before, done, n);
      subtotals := subtotals[n := total];
    }

    method AssignCallRefs(n: Id)
      requires Linked() && n in calls.nodes && Grounded(calls, n)
      modifies this`refs
      ensures refs == old(refs) + Preorder(calls, n)
      decreases Below(calls, n)
    {
      refs := refs + [n];
      var list := children[n];
      assert list == Children(calls, n);
      ghost var before, shown := old(refs), [n];
      for i := 0 to |list|
        invariant shown == PreorderList(calls, n, i) && refs == before + shown
      {
        var child := list[i];
        ChildAt(calls, n, i);
        AssignCallRefs(child);
        Assoc(before, shown, Preorder(calls, child));
        shown := shown + Preorder(calls, child);
      }
    }

    method RollupRoots() returns (total: Usage)
      requires Linked() && subtotals == map[]
      modifies this`subtotals
      ensures total == RootsUsed(calls, |roots|) && subtotals == TotalsOf(calls, BelowFirst(calls, roots, |roots|))
    {
      total := ZERO;
      ghost var done: set<Id> := {};
      for i := 0 to |roots|
        invariant total == RootsUsed(calls, i)
        invariant done == BelowFirst(calls, roots, i) && subtotals == TotalsOf(calls, done)
      {
        RootAt(calls, i);
        var used := RollupCost(roots[i]);
        TotalsUnion(calls, map[], done, Below(calls, roots[i]));
        total := total.Plus(used);
        done := done + Below(calls, roots[i]);
      }
    }

    method AssignRootRefs()
      requires Linked() && refs == []
      modifies this`refs
      ensures refs == Shown(calls, |roots|)
    {
      for i := 0 to |roots|
        invariant refs == Shown(calls, i)
      {
        RootAt(calls, i);
        AssignCallRefs(roots[i]);
      }
    }

    /** The whole of `load_event_tree`. */
    method Load(events: seq<Event>) returns (total: Usage)
      requires calls == Calls([], map[]) && subtotals == map[] && refs == []
      modifies this
      ensures Linked() && calls == Read(events)
      ensures total == RootsUsed(calls, |roots|)
      ensures subtotals == TotalsOf(calls, GroundedCalls(calls))
      ensures refs == Shown(calls, |roots|)
    {
      ReadEvents(events);
      ReadValid(events);
      Link();
      total := RollupRoots();
      BelowRootsIs(calls);
      AssignRootRefs();
    }
  }

  /** The subtree totals of the calls that have one. */
  ghost function TotalsOf(c: Calls, ids: set<Id>): map<Id, Usage>
    requires c.Valid()
  {
    map m | m in ids && Grounded(c, m) :: Rolled(c, m)
  }

  lemma TotalsUnion(c: Calls, before: map<Id, Usage>, a: set<Id>, b: set<Id>)
    requires c.Valid()
    ensures before + TotalsOf(c, a) + TotalsOf(c, b) == before + TotalsOf(c, a + b)
    ensures before == map[] ==> before + TotalsOf(c, a) == TotalsOf(c, a)
    ensures before == map[] ==> before + TotalsOf(c, a + b) == TotalsOf(c, a + b)
  {
  }

  lemma TotalsWith(c: Calls, before: map<Id, Usage>, a: set<Id>, n: Id)
    requires c.Valid() && Grounded(c, n)
    ensures (before + TotalsOf(c, a))[n := Rolled(c, n)] == before + TotalsOf(c, {n} + a)
  {
  }

  ghost function BelowFirst(c: Calls, list: seq<Id>, k: nat): set<Id>
    requires k <= |list|
  {
    if k == 0 then {} else BelowFirst(c, list, k - 1) + Below(c, list[k - 1])
  }

  lemma {:induction false} BelowFirstIs(c: Calls, list: seq<Id>, k: nat)
    requires k <= |list|
    ensures forall m :: m in BelowFirst(c, list, k) <==> exists j :: 0 <= j < k && m in Below(c, list[j])
  {
    if k > 0 { BelowFirstIs(c, list, k - 1); }
  }

  lemma Assoc(a: seq<Id>, b: seq<Id>, c: seq<Id>)
    ensures a + b + c == a + (b + c)
  {
  }

  lemma ChildAt(c: Calls, n: Id, i: nat)
    requires c.Valid() && Grounded(c, n) && i < |Children(c, n)|
    ensures var child := Children(c, n)[i];
            child in c.nodes && Grounded(c, child) && Below(c, child) < Below(c, n) && n !in Below(c, child)
  {
    ChildrenAre(c, n);
    ChildBelow(c, n, Children(c, n)[i]);
  }

  lemma RootAt(c: Calls, i: nat)
    requires c.Valid() && i < |Roots(c)|
    ensures Roots(c)[i] in c.nodes && Grounded(c, Roots(c)[i])
  {
    RootsAre(c);
    RootGrounded(c, Roots(c)[i]);
  }

  /** The calls below the roots are the grounded ones. */
  lemma BelowRootsIs(c: Calls)
    requires c.Valid()
    ensures BelowFirst(c, Roots(c), |Roots(c)|) == GroundedCalls(c)
  {
    var roots := Roots(c);
    BelowFirstIs(c, roots, |roots|);
    forall m | m in GroundedCalls(c) ensures m in BelowFirst(c, roots, |roots|) { UnderSomeRoot(c, m); }
    forall m | m in BelowFirst(c, roots, |roots|) ensures m in GroundedCalls(c) {
      var j :| 0 <= j < |roots| && m in Below(c, roots[j]);
      BelowGrounded(c, roots[j], m);
    }
  }

  lemma BelowGrounded(c: Calls, root: Id, m: Id)
    requires c.Valid() && root in Roots(c) && m in Below(c, root)
    ensures Grounded(c, m)
  {
    var k: nat :| Up(c, m, k) == Some(root);
    RootsAre(c);
    UpPlus(c, m, k, 1);
    assert Up(c, root, 1).None?;
    assert Up(c, m, k + 1).None?;
  }

  /** Below a call are itself and what is below its children. */
  lemma BelowIs(c: Calls, n: Id)
    requires c.Valid() && n in c.nodes && Grounded(c, n)
    ensures Below(c, n) == {n} + BelowFirst(c, Children(c, n), |Children(c, n)|)
  {
    var list := Children(c, n);
    BelowFirstIs(c, list, |list|);
    assert Up(c, n, 0) == Some(n);
    forall m | m in Below(c, n) && m != n ensures m in BelowFirst(c, list, |list|) {
      var k: nat :| Up(c, m, k) == Some(n);
      UpPlus(c, m, k - 1, 1);
      var child := Up(c, m, k - 1).value;
      ParentOf(c, child, n);
      ChildrenAre(c, n);
      var j :| 0 <= j < |list| && list[j] == child;
      assert m in Below(c, list[j]);
    }
    forall m | m in BelowFirst(c, list, |list|) ensures m in Below(c, n) {
      var j :| 0 <= j < |list| && m in Below(c, list[j]);
      ChildAt(c, n, j);
    }
  }

  lemma ParentOf(c: Calls, child: Id, n: Id)
    requires Up(c, child, 1) == Some(n)
    ensures c.Parent(child) == Some(n) && child in c.nodes
  {
    assert Up(c, n, 0) == Some(n);
    if c.Parent(child).Some? { assert Up(c, child, 1) == Up(c, c.Parent(child).value, 0); }
  }

  lemma {:induction false} ReadValid(events: seq<Event>)
    ensures Read(events).Valid()
  {
    if events != [] { ReadValid(events[..|events| - 1]); }
  }

  /** A grounded call is below a root. */
  lemma UnderSomeRoot(c: Calls, m: Id)
    requires c.Valid() && m in c.nodes && Grounded(c, m)
    ensures exists j :: 0 <= j < |Roots(c)| && m in Below(c, Roots(c)[j])
  {
    var end: nat :| Up(c, m, end).None?;
    var top := TopOf(c, m, end);
    RootsAre(c);
    var j :| 0 <= j < |Roots(c)| && Roots(c)[j] == top;
  }

  lemma {:induction false} TopOf(c: Calls, m: Id, end: nat) returns (top: Id)
    requires m in c.nodes && Up(c, m, end).None?
    ensures top in c.nodes && c.Parent(top).None? && Above(c, top, m)
    decreases end
  {
    if c.Parent(m).None? {
      top := m;
      assert Up(c, m, 0) == Some(m);
    } else {
      top := TopOf(c, c.Parent(m).value, end - 1);
      var k: nat :| Up(c, c.Parent(m).value, k) == Some(top);
      assert Up(c, m, k + 1) == Some(top);
    }
  }
}
