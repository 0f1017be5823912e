/** Wrapping every node on the paths from one node to another into a new repeat zone. */
module RepeatZone {
  import opened Graph
  import opened Contraction
  import opened Sequences
  import opened UniqueIds
  import opened Workflow

  // ---- Which nodes move, and their ids inside the zone ----

  function Selected(nodes: seq<Node>, sel: set<Id>): seq<Node> {
    if nodes == [] then []
    else
      var last := nodes[|nodes| - 1];
      Selected(nodes[..|nodes| - 1], sel) + if last.id in sel then [last] else []
  }

  function Outside(nodes: seq<Node>, sel: set<Id>): seq<Node> {
    if nodes == [] then []
    else
      var last := nodes[|nodes| - 1];
      Outside(nodes[..|nodes| - 1], sel) + if last.id in sel then [] else [last]
  }

  lemma {:induction false} PartitionMembers(nodes: seq<Node>, sel: set<Id>, n: Node)
    ensures n in Selected(nodes, sel) <==> n in nodes && n.id in sel
    ensures n in Outside(nodes, sel) <==> n in nodes && n.id !in sel
  {
    if nodes != [] {
      var init := nodes[..|nodes| - 1];
      assert nodes == init + [nodes[|nodes| - 1]];
      PartitionMembers(init, sel, n);
    }
  }

  /** Both halves keep the order of the nodes. */
  lemma {:induction false} PartitionOrder(nodes: seq<Node>, sel: set<Id>, moves: Node -> bool, stays: Node -> bool)
    requires forall n :: (moves(n) <==> n.id in sel) && (stays(n) <==> n.id !in sel)
    ensures Kept(nodes, Selected(nodes, sel), moves) && Kept(nodes, Outside(nodes, sel), stays)
  {
    if nodes == [] {
      KeptNone(moves);
      KeptNone(stays);
    } else {
      var init, last := nodes[..|nodes| - 1], nodes[|nodes| - 1];
      PartitionOrder(init, sel, moves, stays);
      KeptSnoc(init, Selected(init, sel), moves, last);
      KeptSnoc(init, Outside(init, sel), stays, last);
      assert nodes == init + [last];
      assert Selected(nodes, sel) == if moves(last) then Selected(init, sel) + [last] else Selected(init, sel);
      assert Outside(nodes, sel) == if stays(last) then Outside(init, sel) + [last] else Outside(init, sel);
    }
  }

  lemma {:induction false} OutsidePrefix(nodes: seq<Node>, sel: set<Id>, at: nat)
    requires at <= |nodes| && forall i :: 0 <= i < at ==> nodes[i].id !in sel
    ensures at <= |Outside(nodes, sel)| && Outside(nodes, sel)[..at] == nodes[..at]
  {
    if at < |nodes| {
      OutsidePrefix(nodes[..|nodes| - 1], sel, at);
    } else if nodes != [] {
      var init := nodes[..|nodes| - 1];
      OutsidePrefix(init, sel, at - 1);
      assert init[..at - 1] == init && |Outside(init, sel)| == |init| by { OutsideLength(init, sel); }
    }
  }

  lemma {:induction false} OutsideLength(nodes: seq<Node>, sel: set<Id>)
    ensures |Outside(nodes, sel)| <= |nodes|
  {
    if nodes != [] { OutsideLength(nodes[..|nodes| - 1], sel); }
  }

  method SelectForRepeat(nodes: seq<Node>, sel: set<Id>) returns (r: Result<seq<Node>>)
    ensures r == if exists n :: n in nodes && n.id in sel && n.repeat then Failure(NestedRepeat)
                 else Success(Selected(nodes, sel))
  {
    var selected: seq<Node> := [];
    for i := 0 to |nodes|
      invariant selected == Selected(nodes[..i], sel)
      invariant forall n :: n in nodes[..i] && n.id in sel ==> !n.repeat
    {
      assert nodes[..i + 1][..i] == nodes[..i];
      if nodes[i].id in sel {
        if nodes[i].repeat { return Failure(NestedRepeat); }
        selected := selected + [nodes[i]];
      }
    }
    assert nodes[..|nodes|] == nodes;
    return Success(selected);
  }

  /** The names tried first for the moved nodes: their own ids, cleaned. */
  function Bases(selected: seq<Node>, clean: Id -> Id): seq<Id> {
    seq(|selected|, i requires 0 <= i < |selected| => clean(selected[i].id))
  }

  // ---- The moved nodes ----

  function Localized(r: Ref, m: map<Id, Id>): Ref {
    if r.NodeRef? then
      if r.id in m then NodeRef(m[r.id], r.path) else ParentRef(r.id, r.path)
    else r
  }

  function LocalizeRefs(refs: seq<Ref>, m: map<Id, Id>): seq<Ref> {
    seq(|refs|, i requires 0 <= i < |refs| => Localized(refs[i], m))
  }

  function LocalNeeds(needs: seq<Id>, m: map<Id, Id>): seq<Id> {
    if needs == [] then []
    else (if needs[0] in m then [m[needs[0]]] else []) + LocalNeeds(needs[1..], m)
  }

  /** A node prepared for the zone's body. Its `best_tex` text is dropped, with the references in it. */
  function Moved(n: Node, m: map<Id, Id>): Node
    requires n.id in m
  {
    n.(id := m[n.id], needs := LocalNeeds(n.needs, m), managed := {}, refs := LocalizeRefs(n.refs, m), bestTex := [])
  }

  lemma {:induction false} LocalNeedsElems(needs: seq<Id>, m: map<Id, Id>, y: Id)
    ensures y in LocalNeeds(needs, m) <==> exists d :: d in needs && d in m && m[d] == y
  {
    if needs != [] {
      LocalNeedsElems(needs[1..], m, y);
      assert needs == [needs[0]] + needs[1..];
      if d :| d in needs && d in m && m[d] == y {
        assert d == needs[0] || d in needs[1..];
      }
    }
  }

  lemma LocalizedIds(refs: seq<Ref>, m: map<Id, Id>, y: Id)
    ensures y in NodeIds(LocalizeRefs(refs, m)) <==> exists d :: d in NodeIds(refs) && d in m && m[d] == y
  {
    var out := LocalizeRefs(refs, m);
    if r :| r in out && r.NodeRef? && r.id == y {
      var i :| 0 <= i < |refs| && out[i] == r;
      assert refs[i] in refs && refs[i].NodeRef?;
      assert refs[i].id in NodeIds(refs);
    }
    if d :| d in NodeIds(refs) && d in m && m[d] == y {
      var r :| r in refs && r.NodeRef? && r.id == d;
      var i :| 0 <= i < |refs| && refs[i] == r;
      assert out[i] in out && out[i] == NodeRef(y, r.path);
    }
  }

  // ---- `needs` lists ----

  function KeepKnown(needs: seq<Id>, known: set<Id>, self: Id): seq<Id> {
    if needs == [] then []
    else
      var d := needs[|needs| - 1];
      KeepKnown(needs[..|needs| - 1], known, self) + if d in known && d != self then [d] else []
  }

  lemma {:induction false} KeepKnownElems(needs: seq<Id>, known: set<Id>, self: Id, d: Id)
    ensures d in KeepKnown(needs, known, self) <==> d in needs && d in known && d != self
  {
    if needs != [] {
      KeepKnownElems(needs[..|needs| - 1], known, self, d);
      assert needs == needs[..|needs| - 1] + [needs[|needs| - 1]];
    }
  }

  /** `after` is `before` with the missing ones of `refs` added, in whatever order. */
  ghost predicate Extended(before: seq<Id>, after: seq<Id>, refs: set<Id>) {
    before <= after && multiset(after) == multiset(before) + multiset(refs - Elems(before))
  }

  lemma ExtendedElems(before: seq<Id>, after: seq<Id>, refs: set<Id>)
    requires Extended(before, after, refs)
    ensures Elems(after) == Elems(before) + refs
  {
    forall d ensures d in after <==> d in before || d in refs {
      assert d in after <==> multiset(after)[d] > 0;
      assert d in before <==> multiset(before)[d] > 0;
      assert d in refs - Elems(before) <==> multiset(refs - Elems(before))[d] > 0;
    }
  }

  lemma AddOneMissing(before: seq<Id>, after: seq<Id>, added: set<Id>, x: Id)
    requires before <= after && added !! Elems(before)
    requires multiset(after) == multiset(before) + multiset(added)
    ensures x in after <==> x in before || x in added
    ensures x !in after ==> before <= after + [x] && x !in added &&
                            multiset(after + [x]) == multiset(before) + multiset(added + {x})
  {
    assert x in after <==> x in multiset(after);
    assert x in before <==> x in multiset(before);
    assert x in added <==> x in multiset(added);
    if x !in after {
      assert multiset(added + {x}) == multiset(added) + multiset{x};
    }
  }

  method AddMissing(before: seq<Id>, refs: set<Id>) returns (after: seq<Id>)
    ensures Extended(before, after, refs)
  {
    after := before;
    var todo := SomeOrder(refs);
    ghost var added: set<Id> := {};
    for i := 0 to |todo|
      invariant before <= after
      invariant added == Elems(todo[..i]) - Elems(before)
      invariant multiset(after) == multiset(before) + multiset(added)
    {
      AddOneMissing(before, after, added, todo[i]);
      assert Elems(todo[..i + 1]) == Elems(todo[..i]) + {todo[i]};
      if todo[i] !in after {
        after := after + [todo[i]];
        added := added + {todo[i]};
      }
    }
    assert Elems(todo[..|todo|]) == refs;
  }

  // ---- The synced zone body ----

  ghost predicate StepSynced(step: Node, out: Node, known: set<Id>) {
    && out == step.(needs := out.needs)
    && Extended(KeepKnown(step.needs, known, step.id), out.needs,
                (NodeIds(step.refs) + NodeIds(step.bestTex)) * known - {step.id})
  }

  ghost predicate BodySynced(body: seq<Node>, out: seq<Node>) {
    |out| == |body| && forall i :: 0 <= i < |body| ==> StepSynced(body[i], out[i], Ids(body))
  }

  method SyncLoopBodyNeeds(body: seq<Node>) returns (out: seq<Node>)
    ensures BodySynced(body, out)
  {
    var known := Ids(body);
    out := body;
    for i := 0 to |body|
      invariant |out| == |body|
      invariant forall k :: 0 <= k < i ==> StepSynced(body[k], out[k], known)
      invariant forall k :: i <= k < |body| ==> out[k] == body[k]
    {
      var step := out[i];
      var needs := KeepKnown(step.needs, known, step.id);
      var refs := (NodeIds(step.refs) + NodeIds(step.bestTex)) * known - {step.id};
      var extended := AddMissing(needs, refs);
      out := out[i := step.(needs := extended)];
    }
  }

  // ---- What stays at the top level ----

  function KeepFirst(needs: seq<Id>, removed: set<Id>): seq<Id> {
    if needs == [] then []
    else
      var kept := KeepFirst(needs[..|needs| - 1], removed);
      var d := needs[|needs| - 1];
      if d in removed || d in kept then kept else kept + [d]
  }

  lemma {:induction false} KeepFirstElems(needs: seq<Id>, removed: set<Id>)
    ensures Elems(KeepFirst(needs, removed)) == Elems(needs) - removed
    ensures forall i, j :: 0 <= i < j < |KeepFirst(needs, removed)| ==>
      KeepFirst(needs, removed)[i] != KeepFirst(needs, removed)[j]
  {
    if needs != [] {
      KeepFirstElems(needs[..|needs| - 1], removed);
      assert needs == needs[..|needs| - 1] + [needs[|needs| - 1]];
      var kept := KeepFirst(needs[..|needs| - 1], removed);
      assert forall d :: d in kept <==> d in Elems(kept);
    }
  }

  function RewiredNeeds(needs: seq<Id>, removed: set<Id>, loopId: Id): seq<Id> {
    var kept := KeepFirst(needs, removed);
    if Elems(needs) * removed != {} && loopId !in kept then kept + [loopId] else kept
  }

  function Repointed(r: Ref, loopId: Id, m: map<Id, Id>, endId: Id): Ref {
    if !r.NodeRef? || r.id !in m then r
    else if r.id == endId then NodeRef(loopId, r.path)
    else if r.path == [] then NodeRef(loopId, ["state", m[r.id]])
    else NodeRef(loopId, ["state", m[r.id] + "_" + r.path[0]] + r.path[1..])
  }

  function RepointRefs(refs: seq<Ref>, loopId: Id, m: map<Id, Id>, endId: Id): seq<Ref> {
    seq(|refs|, i requires 0 <= i < |refs| => Repointed(refs[i], loopId, m, endId))
  }

  function WithNeeds(n: Node, removed: set<Id>, loopId: Id): Node {
    n.(needs := RewiredNeeds(n.needs, removed, loopId), managed := n.managed - removed)
  }

  function WithRefs(n: Node, loopId: Id, m: map<Id, Id>, endId: Id): Node {
    n.(refs := RepointRefs(n.refs, loopId, m, endId),
       bestTex := RepointRefs(n.bestTex, loopId, m, endId),
       outputs := RepointRefs(n.outputs, loopId, m, endId))
  }

  /** An outside node after the wrap: every mention of a moved node now names the zone. */
  function Rewired(n: Node, removed: set<Id>, loopId: Id, m: map<Id, Id>, endId: Id): Node {
    WithRefs(WithNeeds(n, removed, loopId), loopId, m, endId)
  }

  method ReplaceNeeds(needs: seq<Id>, removed: set<Id>, loopId: Id) returns (out: seq<Id>)
    ensures out == RewiredNeeds(needs, removed, loopId)
  {
    out := [];
    var sawRemoved := false;
    for i := 0 to |needs|
      invariant out == KeepFirst(needs[..i], removed)
      invariant sawRemoved <==> Elems(needs[..i]) * removed != {}
    {
      assert needs[..i + 1][..i] == needs[..i];
      assert Elems(needs[..i + 1]) == Elems(needs[..i]) + {needs[i]};
      if needs[i] in removed {
        assert needs[i] in Elems(needs[..i + 1]) * removed;
        sawRemoved := true;
      } else if needs[i] !in out {
        out := out + [needs[i]];
      }
      assert needs[i] !in removed ==> Elems(needs[..i + 1]) * removed == Elems(needs[..i]) * removed;
    }
    assert needs[..|needs|] == needs;
    if sawRemoved && loopId !in out { out := out + [loopId]; }
  }

  lemma RepointedIds(refs: seq<Ref>, loopId: Id, m: map<Id, Id>, endId: Id)
    ensures NodeIds(RepointRefs(refs, loopId, m, endId)) ==
            NodeIds(refs) - m.Keys + if NodeIds(refs) * m.Keys != {} then {loopId} else {}
  {
    var out := RepointRefs(refs, loopId, m, endId);
    forall d | d in NodeIds(out)
      ensures (d in NodeIds(refs) && d !in m) || (d == loopId && NodeIds(refs) * m.Keys != {})
    {
      var r :| r in out && r.NodeRef? && r.id == d;
      var i :| 0 <= i < |refs| && out[i] == r;
      assert refs[i] in refs && refs[i].NodeRef? && refs[i].id in NodeIds(refs);
      if refs[i].id in m { assert refs[i].id in NodeIds(refs) * m.Keys; }
    }
    forall d | d in NodeIds(refs) ensures (if d in m then loopId else d) in NodeIds(out) {
      var r :| r in refs && r.NodeRef? && r.id == d;
      var i :| 0 <= i < |refs| && refs[i] == r;
      assert out[i] in out && out[i].NodeRef?;
    }
    if NodeIds(refs) * m.Keys != {} {
      var d :| d in NodeIds(refs) * m.Keys;
      assert loopId in NodeIds(out);
    }
  }

  lemma RewiredNeedsElems(needs: seq<Id>, sel: set<Id>, loopId: Id)
    ensures Elems(RewiredNeeds(needs, sel, loopId)) ==
            Elems(needs) - sel + if Elems(needs) * sel != {} then {loopId} else {}
  {
    KeepFirstElems(needs, sel);
    var kept := KeepFirst(needs, sel);
    assert loopId in kept <==> loopId in Elems(kept);
    assert Elems(kept + [loopId]) == Elems(kept) + {loopId};
  }

  lemma MergeMarked(a: set<Id>, b: set<Id>, c: set<Id>, sel: set<Id>, x: Id)
    ensures (a - sel + if a * sel != {} then {x} else {}) + (b - sel + if b * sel != {} then {x} else {})
            + (c - sel + if c * sel != {} then {x} else {})
            == a + b + c - sel + if (a + b + c) * sel != {} then {x} else {}
  {
    assert (a + b + c) * sel == a * sel + b * sel + c * sel;
    if (a + b + c) * sel != {} {
      var y :| y in (a + b + c) * sel;
      assert y in a * sel || y in b * sel || y in c * sel;
    }
  }

  lemma RewiredDeps(n: Node, sel: set<Id>, loopId: Id, m: map<Id, Id>, endId: Id)
    requires m.Keys == sel
    ensures DepIds(Rewired(n, sel, loopId, m, endId)) ==
            DepIds(n) - sel + if DepIds(n) * sel != {} then {loopId} else {}
  {
    RewiredNeedsElems(n.needs, sel, loopId);
    RepointedIds(n.refs, loopId, m, endId);
    RepointedIds(n.bestTex, loopId, m, endId);
    MergeMarked(Elems(n.needs), NodeIds(n.refs), NodeIds(n.bestTex), sel, loopId);
  }

  // ---- The zone node ----

  ghost function External(nodes: seq<Node>, sel: set<Id>): set<Id> {
    set n, d | n in nodes && n.id in sel && d in DepIds(n) && d in Ids(nodes) && d !in sel :: d
  }

  method ExternalDependencies(nodes: seq<Node>, sel: set<Id>) returns (deps: set<Id>)
    ensures deps == External(nodes, sel)
  {
    var ids := Ids(nodes);
    deps := {};
    for i := 0 to |nodes|
      invariant forall d :: d in deps <==>
        exists n :: n in nodes[..i] && n.id in sel && d in DepIds(n) && d in ids && d !in sel
    {
      assert nodes[..i + 1] == nodes[..i] + [nodes[i]];
      if nodes[i].id in sel {
        var nodeDeps := DepIds(nodes[i]);
        deps := deps + (nodeDeps * ids - sel);
      }
    }
    assert nodes[..|nodes|] == nodes;
  }

  /** Names the run keeps for itself: no state field of a zone. */
  const RUNTIME_FIELDS := {"history", "iteration", "iterations", "next_iteration", "reason"}

  function StateFields(nodes: seq<Node>): set<string> {
    set n, r | n in nodes && r in n.refs && r.StateRef? && r.field !in RUNTIME_FIELDS :: r.field
  }

  /** A field that a zone can export. */
  predicate Exportable(f: string) {
    f != "history" && f != "iteration" && f != "iterations" && f != "next_iteration" && f != "reason"
  }

  /** The fields among those a node declares that a zone exports. */
  function Exported(declared: seq<string>): seq<string> {
    if declared == [] then []
    else
      var last := declared[|declared| - 1];
      Exported(declared[..|declared| - 1]) + if last in RUNTIME_FIELDS then [] else [last]
  }

  /** They are the exportable ones, in the order declared. */
  lemma {:induction false} ExportedExactly(declared: seq<string>)
    ensures Kept(declared, Exported(declared), Exportable)
  {
    if declared == [] {
      KeptNone(Exportable);
    } else {
      var init, last := declared[..|declared| - 1], declared[|declared| - 1];
      ExportedExactly(init);
      KeptSnoc(init, Exported(init), Exportable, last);
      assert declared == init + [last];
      assert Exported(declared) == if Exportable(last) then Exported(init) + [last] else Exported(init);
    }
  }

  ghost predicate IsZone(was: seq<Node>, zone: Node, sel: set<Id>, m: map<Id, Id>, endId: Id, fields: seq<string>)
    requires m.Keys == Ids(Selected(was, sel)) && endId in m
  {
    var body := MovedBody(was, sel, m);
    && zone.repeat && zone.managed == {} && zone.bestTex == zone.rounds == zone.condition == []
    && Elems(zone.needs) == External(was, sel)
    && Elems(zone.refs) == (set f | f in StateFields(body) :: StateRef(f))
    && zone.outputs == seq(|fields|, i requires 0 <= i < |fields| => StateRef(fields[i]))
    && zone.updates == seq(|fields|, i requires 0 <= i < |fields| => NodeRef(m[endId], [fields[i]]))
    && BodySynced(body, zone.body)
  }

  function MovedBody(was: seq<Node>, sel: set<Id>, m: map<Id, Id>): seq<Node>
    requires m.Keys == Ids(Selected(was, sel))
  {
    var chosen := Selected(was, sel);
    seq(|chosen|, i requires 0 <= i < |chosen| => Moved(InMap(chosen, i, m), m))
  }

  function InMap(chosen: seq<Node>, i: nat, m: map<Id, Id>): (n: Node)
    requires i < |chosen| && m.Keys == Ids(chosen)
    ensures n.id in m
  {
    assert chosen[i] in chosen;
    chosen[i]
  }

  /** The list after the wrap: the outside nodes re-pointed, with the zone among them. */
  ghost predicate Surrounds(was: seq<Node>, now: seq<Node>, sel: set<Id>, zone: Node, m: map<Id, Id>, endId: Id,
                            at: nat) {
    && at <= |Outside(was, sel)|
    && now == Spliced(RewiredAll(Outside(was, sel), sel, zone.id, m, endId), zone, at)
  }

  ghost predicate IsWrapped(was: seq<Node>, now: seq<Node>, sel: set<Id>, zone: Node, m: map<Id, Id>,
                            endId: Id, at: nat, fields: seq<string>)
  {
    && m.Keys == Ids(Selected(was, sel)) && endId in m
    && Surrounds(was, now, sel, zone, m, endId, at)
    && IsZone(was, zone, sel, m, endId, fields)
  }

  function Spliced<T>(xs: seq<T>, x: T, at: nat): (out: seq<T>)
    requires at <= |xs|
  {
    xs[..at] + [x] + xs[at..]
  }

  lemma SplicedAt<T>(xs: seq<T>, x: T, at: nat)
    requires at <= |xs|
    ensures |Spliced(xs, x, at)| == |xs| + 1
    ensures forall i :: 0 <= i <= |xs| ==>
      Spliced(xs, x, at)[i] == if i < at then xs[i] else if i == at then x else xs[i - 1]
  {
  }

  function RewiredAll(nodes: seq<Node>, sel: set<Id>, loopId: Id, m: map<Id, Id>, endId: Id): (out: seq<Node>)
    ensures |out| == |nodes|
  {
    seq(|nodes|, i requires 0 <= i < |nodes| => Rewired(nodes[i], sel, loopId, m, endId))
  }

  /** Re-pointing needs before the zone is put in, and references after, re-points all but the zone. */
  lemma PlacedIs(rest: seq<Node>, needy: seq<Node>, placed: seq<Node>, sel: set<Id>, loop: Node, m: map<Id, Id>,
                 endId: Id, index: nat)
    requires |needy| == |rest| && index <= |rest| && |placed| == |rest| + 1
    requires forall i :: 0 <= i < |rest| ==> rest[i].id != loop.id && needy[i] == WithNeeds(rest[i], sel, loop.id)
    requires var before := Spliced(needy, loop, index);
             |before| == |placed| && forall i :: 0 <= i < |placed| ==>
               placed[i] == if before[i].id == loop.id then before[i] else WithRefs(before[i], loop.id, m, endId)
    ensures placed == Spliced(RewiredAll(rest, sel, loop.id, m, endId), loop, index)
  {
    SplicedAt(needy, loop, index);
    SplicedAt(RewiredAll(rest, sel, loop.id, m, endId), loop, index);
  }

  // ---- The operation ----

  class Dag {
    var nodes: seq<Node>
    var outputs: seq<Ref>

    constructor (nodes: seq<Node>, outputs: seq<Ref>)
      ensures this.nodes == nodes && this.outputs == outputs
    {
      this.nodes, this.outputs := nodes, outputs;
    }

    method ReplaceTopLevelNeeds(removed: set<Id>, loopId: Id)
      modifies this`nodes
      ensures |nodes| == |old(nodes)|
      ensures forall i :: 0 <= i < |nodes| ==> nodes[i] == WithNeeds(old(nodes)[i], removed, loopId)
    {
      var i := 0;
      while i < |nodes|
        invariant 0 <= i <= |nodes| == |old(nodes)|
        invariant forall k :: 0 <= k < i ==> nodes[k] == WithNeeds(old(nodes)[k], removed, loopId)
        invariant forall k :: i <= k < |nodes| ==> nodes[k] == old(nodes)[k]
      {
        var node := nodes[i];
        var needs := ReplaceNeeds(node.needs, removed, loopId);
        nodes := nodes[i := node.(needs := needs, managed := node.managed - removed)];
        i := i + 1;
      }
    }

    method RewriteTopLevelRefs(loopId: Id, m: map<Id, Id>, endId: Id)
      modifies this
      ensures |nodes| == |old(nodes)|
      ensures forall i :: 0 <= i < |nodes| ==>
        nodes[i] == if old(nodes)[i].id == loopId then old(nodes)[i] else WithRefs(old(nodes)[i], loopId, m, endId)
      ensures outputs == RepointRefs(old(outputs), loopId, m, endId)
    {
      var i := 0;
      while i < |nodes|
        invariant 0 <= i <= |nodes| == |old(nodes)| && outputs == old(outputs)
        invariant forall k :: 0 <= k < i ==>
          nodes[k] == if old(nodes)[k].id == loopId then old(nodes)[k] else WithRefs(old(nodes)[k], loopId, m, endId)
        invariant forall k :: i <= k < |nodes| ==> nodes[k] == old(nodes)[k]
      {
        if nodes[i].id != loopId {
          nodes := nodes[i := WithRefs(nodes[i], loopId, m, endId)];
        }
        i := i + 1;
      }
      outputs := RepointRefs(outputs, loopId, m, endId);
    }

    /** Takes the selected nodes out, puts the zone where the first of them stood, and re-points the rest. */
    method PlaceZone(sel: set<Id>, loop: Node, m: map<Id, Id>, endId: Id, index: nat)
      requires loop.id !in Ids(nodes) && index <= |nodes|
      requires forall i :: 0 <= i < index ==> nodes[i].id !in sel
      modifies this
      ensures index <= |Outside(old(nodes), sel)|
      ensures nodes == Spliced(RewiredAll(Outside(old(nodes), sel), sel, loop.id, m, endId), loop, index)
      ensures outputs == RepointRefs(old(outputs), loop.id, m, endId)
    {
      RestIds(nodes, sel, loop.id);
      OutsidePrefix(nodes, sel, index);
      nodes := Outside(nodes, sel);
      ghost var rest := nodes;
      ReplaceTopLevelNeeds(sel, loop.id);
      ghost var needy := nodes;
      nodes := Spliced(nodes, loop, index);
      RewriteTopLevelRefs(loop.id, m, endId);
      PlacedIs(rest, needy, nodes, sel, loop, m, endId, index);
    }

    /** `base` is the requested zone id, `declared` the output fields the end node declares, and
        `clean` the id-cleaning helper. */
    method CreateRepeatZoneFromPath(startId: Id, endId: Id, base: Id, declared: seq<string>, clean: Id -> Id,
                                    ghost g: Adjacency)
      returns (r: Result<Id>, ghost w: Wrap)
      requires IsAdjacency(nodes, g)
      modifies this
      ensures r.Failure? <==> !Wrappable(old(nodes), g, startId, endId)
      ensures r.Failure? ==> nodes == old(nodes) && outputs == old(outputs)
      ensures r.Success? ==>
        && PathSet(g, startId, endId, w.sel) && w.zone.id == r.value
        && FirstFree(base, Ids(old(nodes)), r.value)
        && GivenOut(Bases(Selected(old(nodes), w.sel), clean), {}, w.given)
        && w.m == IdMap(IdList(Selected(old(nodes), w.sel)), w.given)
        && IsWrapped(old(nodes), nodes, w.sel, w.zone, w.m, endId, w.at, Exported(declared))
        && outputs == RepointRefs(old(outputs), r.value, w.m, endId)
    {
      w := Wrap({}, Zone("", [], []), map[], [], 0);
      var sel, chosen := SelectPath(nodes, startId, endId, g);
      if chosen.Failure? { return Failure(chosen.error), w; }
      var loopId := UniqueId(base, Ids(nodes));
      var index := FirstSelected(nodes, sel);
      var loop, moved, given := BuildZone(nodes, sel, chosen.value, loopId, endId, Exported(declared), clean);
      PlaceZone(sel, loop, moved, endId, index);
      w := Wrap(sel, loop, moved, given, index);
      return Success(loopId), w;
    }
  }

  /** What a wrap chose: the moved ids, the zone, the new ids of the moved nodes, the zone's position. */
  datatype Wrap = Wrap(sel: set<Id>, zone: Node, m: map<Id, Id>, given: seq<Id>, at: nat)

  ghost predicate PathSet(g: Adjacency, startId: Id, endId: Id, sel: set<Id>) {
    if startId == endId then sel == {startId} else OnPaths(g, startId, endId, sel)
  }

  ghost predicate Between(g: Adjacency, startId: Id, endId: Id, v: Id) {
    if startId == endId then v == startId else Leads(g, startId, v) && Leads(g, v, endId)
  }

  /** Both ends exist, a path joins them, and no repeat zone lies on one. */
  ghost predicate Wrappable(nodes: seq<Node>, g: Adjacency, startId: Id, endId: Id) {
    && startId in Ids(nodes) && endId in Ids(nodes) && Leads(g, startId, endId)
    && forall n :: n in nodes && Between(g, startId, endId, n.id) ==> !n.repeat
  }

  method SelectPath(nodes: seq<Node>, startId: Id, endId: Id, ghost g: Adjacency)
    returns (sel: set<Id>, r: Result<seq<Node>>)
    requires IsAdjacency(nodes, g)
    ensures r.Failure? <==> !Wrappable(nodes, g, startId, endId)
    ensures r.Success? ==>
      && PathSet(g, startId, endId, sel) && r.value == Selected(nodes, sel) && endId in Ids(r.value)
      && exists n :: n in nodes && n.id in sel
  {
    LeadsRefl(g, startId);
    var onPaths := NodeIdsOnPaths(nodes, startId, endId, g);
    if onPaths.Failure? { return {}, Failure(onPaths.error); }
    sel := onPaths.value;
    LeadsRefl(g, endId);
    r := SelectForRepeat(nodes, sel);
    var end :| end in nodes && end.id == endId;
    PartitionMembers(nodes, sel, end);
    assert forall v :: v in sel <==> Between(g, startId, endId, v);
  }

  method BuildZone(nodes: seq<Node>, sel: set<Id>, selected: seq<Node>, loopId: Id, endId: Id,
                   fields: seq<string>, clean: Id -> Id)
    returns (loop: Node, m: map<Id, Id>, given: seq<Id>)
    requires selected == Selected(nodes, sel) && endId in Ids(selected)
    ensures loop.id == loopId
    ensures GivenOut(Bases(selected, clean), {}, given) && m == IdMap(IdList(selected), given)
    ensures m.Keys == Ids(selected) && IsZone(nodes, loop, sel, m, endId, fields)
  {
    var external := ExternalDependencies(nodes, sel);
    var needs := SomeOrder(external);
    given := AllocateIds(Bases(selected, clean), {});
    m := IdMap(IdList(selected), given);
    IdMapKeys(IdList(selected), given);
    IdListElems(selected);
    var body := MovedBody(nodes, sel, m);
    var stateFields := SomeOrder(StateFields(body));
    var synced := SyncLoopBodyNeeds(body);
    loop := Node(loopId, true, needs, {},
      seq(|stateFields|, i requires 0 <= i < |stateFields| => StateRef(stateFields[i])), [],
      seq(|fields|, i requires 0 <= i < |fields| => StateRef(fields[i])),
      seq(|fields|, i requires 0 <= i < |fields| => NodeRef(m[endId], [fields[i]])), [], [], synced);
    assert Elems(needs) == External(nodes, sel);
    ZoneRefs(loop.refs, stateFields, StateFields(body));
  }

  lemma ZoneRefs(refs: seq<Ref>, fields: seq<string>, all: set<string>)
    requires refs == seq(|fields|, i requires 0 <= i < |fields| => StateRef(fields[i]))
    requires forall f :: f in fields <==> f in all
    ensures Elems(refs) == set f | f in all :: StateRef(f)
  {
    forall f | f in all ensures StateRef(f) in refs {
      var i :| 0 <= i < |fields| && fields[i] == f;
      assert refs[i] in refs;
    }
  }

  lemma RestIds(nodes: seq<Node>, sel: set<Id>, loopId: Id)
    requires loopId !in Ids(nodes)
    ensures forall i :: 0 <= i < |Outside(nodes, sel)| ==> Outside(nodes, sel)[i].id != loopId
  {
    forall i | 0 <= i < |Outside(nodes, sel)| ensures Outside(nodes, sel)[i].id != loopId {
      PartitionMembers(nodes, sel, Outside(nodes, sel)[i]);
    }
  }

  method FirstSelected(nodes: seq<Node>, sel: set<Id>) returns (at: nat)
    requires exists n :: n in nodes && n.id in sel
    ensures at < |nodes| && nodes[at].id in sel && forall i :: 0 <= i < at ==> nodes[i].id !in sel
  {
    at := 0;
    while nodes[at].id !in sel
      invariant at < |nodes| && forall i :: 0 <= i < at ==> nodes[i].id !in sel
      decreases |nodes| - at
    {
      var n :| n in nodes && n.id in sel;
      var k :| 0 <= k < |nodes| && nodes[k] == n;
      at := at + 1;
    }
  }
}
