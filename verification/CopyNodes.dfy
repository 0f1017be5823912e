/** Copying nodes of a workflow: fresh ids, and every copy hooked up to the copies of what its
    original depended on. */
module CopyNodes {
  import opened Graph
  import opened UniqueIds
  import opened Workflow
  import opened RepeatZone

  /** A request to copy `nodeId`; an empty `newId` asks for the default name. */
  datatype Entry = Entry(nodeId: Id, newId: Id)

  function Base(e: Entry, clean: Id -> Id): Id {
    clean(if e.newId == "" then e.nodeId + "_copy" else e.newId)
  }

  /** The first request for each node, in request order. */
  function Distinct(entries: seq<Entry>): seq<Entry> {
    if entries == [] then []
    else
      var kept := Distinct(entries[..|entries| - 1]);
      var last := entries[|entries| - 1];
      if last.nodeId in EntryIds(kept) then kept else kept + [last]
  }

  function EntryIds(entries: seq<Entry>): seq<Id> {
    seq(|entries|, i requires 0 <= i < |entries| => entries[i].nodeId)
  }

  lemma ElemsSnoc(xs: seq<Id>, x: Id)
    ensures Elems(xs + [x]) == Elems(xs) + {x}
  {
  }

  lemma {:induction false} DistinctIds(entries: seq<Entry>)
    ensures forall i, j :: 0 <= i < j < |Distinct(entries)| ==>
              Distinct(entries)[i].nodeId != Distinct(entries)[j].nodeId
    ensures Elems(EntryIds(Distinct(entries))) == Elems(EntryIds(entries))
  {
    if entries != [] {
      var init, last := entries[..|entries| - 1], entries[|entries| - 1];
      DistinctIds(init);
      assert EntryIds(entries) == EntryIds(init) + [last.nodeId];
      var kept := Distinct(init);
      assert EntryIds(kept + [last]) == EntryIds(kept) + [last.nodeId];
      ElemsSnoc(EntryIds(init), last.nodeId);
      ElemsSnoc(EntryIds(kept), last.nodeId);
      forall i | 0 <= i < |kept| ensures kept[i].nodeId in EntryIds(kept) {
        assert EntryIds(kept)[i] == kept[i].nodeId;
      }
    }
  }

  /** References to copied nodes name the copies; `local` says whether the text's own scope is copied. */
  function CopiedRef(r: Ref, m: map<Id, Id>, local: bool): Ref {
    match r
    case NodeRef(id, path) => if local && id in m then NodeRef(m[id], path) else r
    case ParentRef(id, path) => if id in m then ParentRef(m[id], path) else r
    case _ => r
  }

  function CopiedRefs(refs: seq<Ref>, m: map<Id, Id>, local: bool): seq<Ref> {
    seq(|refs|, i requires 0 <= i < |refs| => CopiedRef(refs[i], m, local))
  }

  function Image(m: map<Id, Id>, d: Id): Id {
    if d in m then m[d] else d
  }

  function Images(needs: seq<Id>, m: map<Id, Id>): seq<Id> {
    seq(|needs|, i requires 0 <= i < |needs| => Image(m, needs[i]))
  }

  function CopiedBody(body: seq<Node>, m: map<Id, Id>): (out: seq<Node>)
    ensures |out| == |body|
  {
    if body == [] then [] else [CopiedBodyNode(body[0], m)] + CopiedBody(body[1..], m)
  }

  /** Inside a copied zone only parent references move, at whatever depth they stand. */
  function CopiedBodyNode(n: Node, m: map<Id, Id>): Node {
    n.(refs := CopiedRefs(n.refs, m, false), bestTex := CopiedRefs(n.bestTex, m, false),
       outputs := CopiedRefs(n.outputs, m, false), updates := CopiedRefs(n.updates, m, false),
       rounds := CopiedRefs(n.rounds, m, false), condition := CopiedRefs(n.condition, m, false),
       body := CopiedBody(n.body, m))
  }

  /** A copied zone's own `max_iterations` and condition stay as they are. */
  function CopyOf(n: Node, m: map<Id, Id>): Node
    requires n.id in m
  {
    n.(id := m[n.id], needs := Images(n.needs, m), managed := {},
       refs := CopiedRefs(n.refs, m, true), bestTex := CopiedRefs(n.bestTex, m, true),
       outputs := CopiedRefs(n.outputs, m, true), updates := CopiedRefs(n.updates, m, false),
       body := CopiedBody(n.body, m))
  }

  // ---- Keeping `needs` in step with references ----

  function RefsIn(n: Node, known: set<Id>): set<Id> {
    (NodeIds(n.refs) + NodeIds(n.bestTex)) * known - {n.id}
  }

  /** Editor-added needs that no reference backs any more are taken out once; missing ones are added. */
  ghost predicate NeedsSynced(n: Node, out: Node, known: set<Id>) {
    var refs := RefsIn(n, known);
    && out == n.(needs := out.needs, managed := refs)
    && multiset(out.needs) == multiset(n.needs) - multiset(n.managed - refs) + multiset(refs - Elems(n.needs))
  }

  function Without(needs: seq<Id>, d: Id): seq<Id> {
    if needs == [] then [] else if needs[0] == d then needs[1..] else [needs[0]] + Without(needs[1..], d)
  }

  lemma {:induction false} WithoutCounts(needs: seq<Id>, d: Id)
    ensures multiset(Without(needs, d)) == multiset(needs) - multiset{d}
  {
    if needs != [] {
      assert needs == [needs[0]] + needs[1..];
      if needs[0] != d { WithoutCounts(needs[1..], d); }
    }
  }

  lemma DropStep(before: seq<Id>, needs: seq<Id>, gone: set<Id>, d: Id)
    requires multiset(needs) == multiset(before) - multiset(gone) && d !in gone
    ensures multiset(if d in needs then Without(needs, d) else needs) == multiset(before) - multiset(gone + {d})
  {
    assert multiset(gone + {d}) == multiset(gone) + multiset{d};
    WithoutCounts(needs, d);
    assert d in needs <==> d in multiset(needs);
  }

  method DropOnce(before: seq<Id>, stale: set<Id>) returns (needs: seq<Id>)
    ensures multiset(needs) == multiset(before) - multiset(stale)
  {
    needs := before;
    var todo := SomeOrder(stale);
    ghost var gone: set<Id> := {};
    for i := 0 to |todo|
      invariant gone == Elems(todo[..i])
      invariant multiset(needs) == multiset(before) - multiset(gone)
    {
      assert todo[i] !in todo[..i];
      assert todo[..i + 1] == todo[..i] + [todo[i]];
      DropStep(before, needs, gone, todo[i]);
      needs := if todo[i] in needs then Without(needs, todo[i]) else needs;
      gone := gone + {todo[i]};
    }
    assert gone == stale;
  }

  lemma MissingSame(before: seq<Id>, after: seq<Id>, stale: set<Id>, refs: set<Id>)
    requires multiset(after) == multiset(before) - multiset(stale) && refs !! stale
    ensures refs - Elems(after) == refs - Elems(before)
  {
    forall r | r in refs ensures r in after <==> r in before {
      assert r in after <==> r in multiset(after);
      assert r in before <==> r in multiset(before);
      assert r !in multiset(stale);
    }
  }

  method SyncNeedsFromRefs(n: Node, known: set<Id>) returns (out: Node)
    ensures NeedsSynced(n, out, known)
  {
    var refs := RefsIn(n, known);
    var needs := DropOnce(n.needs, n.managed - refs);
    MissingSame(n.needs, needs, n.managed - refs, refs);
    needs := AddMissing(needs, refs);
    out := n.(needs := needs, managed := refs);
  }

  lemma SyncedElems(n: Node, out: Node, known: set<Id>)
    requires NeedsSynced(n, out, known) && n.managed == {}
    ensures Elems(out.needs) == Elems(n.needs) + RefsIn(n, known)
  {
    var more := RefsIn(n, known) - Elems(n.needs);
    forall d ensures d in out.needs <==> d in n.needs || d in RefsIn(n, known) {
      assert d in out.needs <==> d in multiset(out.needs);
      assert d in n.needs <==> d in multiset(n.needs);
      assert d in more <==> d in multiset(more);
    }
  }

  // ---- The operation ----

  /** One finished copy of `n` in a workflow whose ids are `known`. */
  ghost predicate IsCopy(n: Node, out: Node, m: map<Id, Id>, known: set<Id>) {
    && n.id in m
    && var base := CopyOf(n, m);
       && (if n.repeat then BodySynced(base.body, out.body) else out.body == base.body)
       && NeedsSynced(base.(body := out.body), out, known)
  }

  function NodeById(nodes: seq<Node>, id: Id): (n: Node)
    requires id in Ids(nodes)
    ensures n in nodes && n.id == id
  {
    if nodes[0].id == id then nodes[0]
    else
      assert nodes == [nodes[0]] + nodes[1..];
      NodeById(nodes[1..], id)
  }

  method ChooseEntries(nodes: seq<Node>, entries: seq<Entry>) returns (r: Result<seq<Entry>>)
    ensures r.Failure? <==> entries == [] || exists e :: e in entries && e.nodeId !in Ids(nodes)
    ensures r.Success? ==> r.value == Distinct(entries)
  {
    if entries == [] { return Failure(EmptyRequest); }
    var chosen: seq<Entry> := [];
    for i := 0 to |entries|
      invariant chosen == Distinct(entries[..i])
      invariant forall e :: e in entries[..i] ==> e.nodeId in Ids(nodes)
    {
      assert entries[..i + 1][..i] == entries[..i];
      if entries[i].nodeId !in EntryIds(chosen) {
        if entries[i].nodeId !in Ids(nodes) { return Failure(NodeNotFound); }
        chosen := chosen + [entries[i]];
      } else {
        ChosenBefore(entries[..i], entries[i].nodeId);
      }
    }
    assert entries[..|entries|] == entries;
    return Success(chosen);
  }

  lemma ChosenBefore(entries: seq<Entry>, id: Id)
    requires id in EntryIds(Distinct(entries))
    ensures exists e :: e in entries && e.nodeId == id
  {
    DistinctIds(entries);
    assert id in Elems(EntryIds(entries));
    var k :| 0 <= k < |entries| && EntryIds(entries)[k] == id;
    assert entries[k] in entries;
  }

  method MakeCopies(nodes: seq<Node>, chosen: seq<Entry>, m: map<Id, Id>, known: set<Id>) returns (copies: seq<Node>)
    requires forall i :: 0 <= i < |chosen| ==> chosen[i].nodeId in Ids(nodes) && chosen[i].nodeId in m
    ensures |copies| == |chosen|
    ensures forall i :: 0 <= i < |chosen| ==> IsCopy(NodeById(nodes, chosen[i].nodeId), copies[i], m, known)
  {
    copies := [];
    for i := 0 to |chosen|
      invariant |copies| == i
      invariant forall k :: 0 <= k < i ==> IsCopy(NodeById(nodes, chosen[k].nodeId), copies[k], m, known)
    {
      var copied := CopyOf(NodeById(nodes, chosen[i].nodeId), m);
      if copied.repeat {
        var body := SyncLoopBodyNeeds(copied.body);
        copied := copied.(body := body);
      }
      var synced := SyncNeedsFromRefs(copied, known);
      copies := copies + [synced];
    }
  }

  method CopyNodes(dag: Dag, entries: seq<Entry>, clean: Id -> Id)
    returns (r: Result<map<Id, Id>>, ghost given: seq<Id>)
    modifies dag
    ensures r.Failure? <==> entries == [] || exists e :: e in entries && e.nodeId !in Ids(old(dag.nodes))
    ensures r.Failure? ==> dag.nodes == old(dag.nodes)
    ensures dag.outputs == old(dag.outputs)
    ensures r.Success? ==> CopiedInto(old(dag.nodes), dag.nodes, Distinct(entries), clean, given, r.value)
  {
    var found := ChooseEntries(dag.nodes, entries);
    if found.Failure? { return Failure(found.error), []; }
    var copies, m, ids := PlanCopies(dag.nodes, entries, found.value, clean);
    dag.nodes := dag.nodes + copies;
    return Success(m), ids;
  }

  method PlanCopies(nodes: seq<Node>, ghost entries: seq<Entry>, chosen: seq<Entry>, clean: Id -> Id)
    returns (copies: seq<Node>, m: map<Id, Id>, ids: seq<Id>)
    requires chosen == Distinct(entries) && forall e :: e in entries ==> e.nodeId in Ids(nodes)
    ensures CopiedInto(nodes, nodes + copies, chosen, clean, ids, m)
  {
    DistinctFound(entries, Ids(nodes));
    DistinctIds(entries);
    ids := AllocateIds(Requested(chosen, clean), Ids(nodes));
    m := IdMap(EntryIds(chosen), ids);
    IdMapKeys(EntryIds(chosen), ids);
    EntriesMapped(chosen, m);
    copies := MakeCopies(nodes, chosen, m, Ids(nodes) + Elems(ids));
    CopiesPlaced(nodes, copies, chosen, clean, ids, m);
  }

  lemma EntriesMapped(chosen: seq<Entry>, m: map<Id, Id>)
    requires m.Keys == Elems(EntryIds(chosen))
    ensures forall i :: 0 <= i < |chosen| ==> chosen[i].nodeId in m
  {
    forall i | 0 <= i < |chosen| ensures chosen[i].nodeId in m {
      assert EntryIds(chosen)[i] in Elems(EntryIds(chosen));
    }
  }

  lemma CopiesPlaced(was: seq<Node>, copies: seq<Node>, chosen: seq<Entry>, clean: Id -> Id, given: seq<Id>,
                     m: map<Id, Id>)
    requires |given| == |chosen| == |copies|
    requires forall i :: 0 <= i < |chosen| ==> chosen[i].nodeId in Ids(was)
    requires forall i, j :: 0 <= i < j < |chosen| ==> chosen[i].nodeId != chosen[j].nodeId
    requires GivenOut(Requested(chosen, clean), Ids(was), given) && m == IdMap(EntryIds(chosen), given)
    requires forall i :: 0 <= i < |chosen| ==>
      IsCopy(NodeById(was, chosen[i].nodeId), copies[i], m, Ids(was) + Elems(given))
    ensures CopiedInto(was, was + copies, chosen, clean, given, m)
  {
    var now := was + copies;
    assert now[..|was|] == was;
    forall i | 0 <= i < |chosen| ensures now[|was| + i] == copies[i] {}
  }

  function Requested(chosen: seq<Entry>, clean: Id -> Id): seq<Id> {
    seq(|chosen|, i requires 0 <= i < |chosen| => Base(chosen[i], clean))
  }

  lemma DistinctFound(entries: seq<Entry>, known: set<Id>)
    requires forall e :: e in entries ==> e.nodeId in known
    ensures forall i :: 0 <= i < |Distinct(entries)| ==> Distinct(entries)[i].nodeId in known
  {
    DistinctIds(entries);
    forall i | 0 <= i < |Distinct(entries)| ensures Distinct(entries)[i].nodeId in known {
      assert EntryIds(Distinct(entries))[i] in Elems(EntryIds(entries));
      var k :| 0 <= k < |entries| && EntryIds(entries)[k] == Distinct(entries)[i].nodeId;
      assert entries[k] in entries;
    }
  }

  ghost predicate CopiedInto(was: seq<Node>, now: seq<Node>, chosen: seq<Entry>, clean: Id -> Id,
                             given: seq<Id>, m: map<Id, Id>)
  {
    && |given| == |chosen| && |now| == |was| + |chosen|
    && now[..|was|] == was
    && (forall i :: 0 <= i < |chosen| ==> chosen[i].nodeId in Ids(was))
    && (forall i, j :: 0 <= i < j < |chosen| ==> chosen[i].nodeId != chosen[j].nodeId)
    && GivenOut(Requested(chosen, clean), Ids(was), given)
    && m == IdMap(EntryIds(chosen), given)
    && forall i :: 0 <= i < |chosen| ==>
         IsCopy(NodeById(was, chosen[i].nodeId), now[|was| + i], m, Ids(was) + Elems(given))
  }
}
