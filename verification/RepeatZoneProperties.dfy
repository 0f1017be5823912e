/** What wrapping a path into a repeat zone keeps: the order of the nodes outside, the order of the
    nodes inside, and what every reference reads. */
module RepeatZoneProperties {
  import opened Graph
  import opened Contraction
  import opened Sequences
  import opened UniqueIds
  import opened Workflow
  import opened RepeatZone

  ghost predicate Wrapped(was: seq<Node>, now: seq<Node>, g: Adjacency, startId: Id, endId: Id, w: Wrap,
                          clean: Id -> Id, fields: seq<string>)
  {
    && IsAdjacency(was, g) && Wrappable(was, g, startId, endId)
    && PathSet(g, startId, endId, w.sel) && w.zone.id !in Ids(was)
    && GivenOut(Bases(Selected(was, w.sel), clean), {}, w.given)
    && w.m == IdMap(IdList(Selected(was, w.sel)), w.given)
    && IsWrapped(was, now, w.sel, w.zone, w.m, endId, w.at, fields)
  }

  /** Outside nodes that already name the id the new zone received, though no node had it. */
  ghost function Danglers(was: seq<Node>, sel: set<Id>, zone: Id): set<Id> {
    set n | n in was && n.id !in sel && zone in DepIds(n) :: n.id
  }

  lemma SelectedIds(was: seq<Node>, sel: set<Id>)
    requires sel <= Ids(was)
    ensures Ids(Selected(was, sel)) == sel
  {
    forall v ensures v in Ids(Selected(was, sel)) <==> v in sel {
      if n :| n in was && n.id == v { PartitionMembers(was, sel, n); }
      if n :| n in Selected(was, sel) && n.id == v { PartitionMembers(was, sel, n); }
    }
  }

  lemma PathSetIds(was: seq<Node>, g: Adjacency, startId: Id, endId: Id, sel: set<Id>)
    requires IsAdjacency(was, g) && PathSet(g, startId, endId, sel)
    requires startId in Ids(was)
    ensures sel <= Ids(was)
  {
    AdjacencyNodes(was, g);
    forall v | v in sel ensures v in Ids(was) {
      if startId != endId {
        var p :| IsWalk(g, p) && p[0] == startId && p[|p| - 1] == v;
        if |p| > 1 { assert Edge(g, p[|p| - 2], p[|p| - 1]); }
      }
    }
  }

  lemma ZoneMember(was: seq<Node>, now: seq<Node>, w: Wrap, endId: Id)
    requires Surrounds(was, now, w.sel, w.zone, w.m, endId, w.at)
    ensures w.zone in now
  {
    assert now[w.at] == w.zone;
  }

  /** A top-level node after the wrap is the zone or a re-pointed outside node. */
  lemma NowMember(was: seq<Node>, now: seq<Node>, w: Wrap, endId: Id, n: Node) returns (o: Node)
    requires Surrounds(was, now, w.sel, w.zone, w.m, endId, w.at)
    requires n in now && n != w.zone
    ensures o in was && o.id !in w.sel && n == Rewired(o, w.sel, w.zone.id, w.m, endId)
  {
    var rest := Outside(was, w.sel);
    var rewired := RewiredAll(rest, w.sel, w.zone.id, w.m, endId);
    var i :| 0 <= i < |now| && now[i] == n;
    SplicedAt(rewired, w.zone, w.at);
    var k := if i < w.at then i else i - 1;
    assert n == rewired[k];
    o := rest[k];
    PartitionMembers(was, w.sel, o);
  }

  lemma OutsideStays(was: seq<Node>, now: seq<Node>, w: Wrap, endId: Id, o: Node)
    requires Surrounds(was, now, w.sel, w.zone, w.m, endId, w.at)
    requires o in was && o.id !in w.sel
    ensures Rewired(o, w.sel, w.zone.id, w.m, endId) in now
  {
    var rest := Outside(was, w.sel);
    var rewired := RewiredAll(rest, w.sel, w.zone.id, w.m, endId);
    PartitionMembers(was, w.sel, o);
    var k :| 0 <= k < |rest| && rest[k] == o;
    SplicedAt(rewired, w.zone, w.at);
    assert rewired[k] == now[if k < w.at then k else k + 1];
  }

  lemma NowIds(was: seq<Node>, now: seq<Node>, w: Wrap, endId: Id)
    requires Surrounds(was, now, w.sel, w.zone, w.m, endId, w.at)
    ensures Ids(now) == Ids(was) - w.sel + {w.zone.id}
  {
    forall v ensures v in Ids(now) <==> v in Ids(was) - w.sel + {w.zone.id} {
      if n :| n in now && n.id == v {
        if n != w.zone { var o := NowMember(was, now, w, endId, n); }
      }
      if v in Ids(was) - w.sel {
        var o :| o in was && o.id == v;
        OutsideStays(was, now, w, endId, o);
      }
      ZoneMember(was, now, w, endId);
    }
  }

  /** What an outside node waits for after the wrap. */
  lemma OutsideNames(was: seq<Node>, now: seq<Node>, w: Wrap, endId: Id, t: Id, d: Id)
    requires Surrounds(was, now, w.sel, w.zone, w.m, endId, w.at) && w.m.Keys == w.sel
    requires t !in w.sel && t != w.zone.id
    ensures Names(now, t, d) <==>
              (d !in w.sel && Names(was, t, d)) || (d == w.zone.id && exists s :: s in w.sel && Names(was, t, s))
  {
    if Names(now, t, d) {
      var n :| n in now && n.id == t && d in DepIds(n);
      var o := NowMember(was, now, w, endId, n);
      RewiredDeps(o, w.sel, w.zone.id, w.m, endId);
      if d in DepIds(o) && d !in w.sel {
        assert Names(was, t, d);
      } else {
        var s :| s in DepIds(o) * w.sel;
        assert Names(was, t, s);
      }
    }
    if d !in w.sel && Names(was, t, d) { NamesStay(was, now, w, endId, t, d); }
    if s :| s in w.sel && Names(was, t, s) { NamesStay(was, now, w, endId, t, s); }
  }

  lemma NamesStay(was: seq<Node>, now: seq<Node>, w: Wrap, endId: Id, t: Id, s: Id)
    requires Surrounds(was, now, w.sel, w.zone, w.m, endId, w.at) && w.m.Keys == w.sel
    requires t !in w.sel && Names(was, t, s)
    ensures Names(now, t, if s in w.sel then w.zone.id else s)
  {
    var o :| o in was && o.id == t && s in DepIds(o);
    RewiredDeps(o, w.sel, w.zone.id, w.m, endId);
    OutsideStays(was, now, w, endId, o);
    if s in w.sel { assert s in DepIds(o) * w.sel; }
  }

  lemma StateRefsOnly(refs: seq<Ref>, fields: set<string>)
    requires Elems(refs) == set f | f in fields :: StateRef(f)
    ensures NodeIds(refs) == {}
  {
    forall r | r in refs ensures r.StateRef? {
      assert r in Elems(refs);
    }
  }

  lemma ZoneDeps(was: seq<Node>, now: seq<Node>, w: Wrap, endId: Id, fields: seq<string>, d: Id)
    requires IsWrapped(was, now, w.sel, w.zone, w.m, endId, w.at, fields) && w.zone.id !in Ids(was)
    ensures Names(now, w.zone.id, d) <==> d in External(was, w.sel)
  {
    StateRefsOnly(w.zone.refs, StateFields(MovedBody(was, w.sel, w.m)));
    assert DepIds(w.zone) == External(was, w.sel);
    ZoneMember(was, now, w, endId);
    if n :| n in now && n.id == w.zone.id && d in DepIds(n) {
      if n != w.zone { var o := NowMember(was, now, w, endId, n); }
    }
  }

  /** The new top-level graph is the old one with the moved nodes contracted to the zone. */
  lemma WrapContracts(was: seq<Node>, now: seq<Node>, g: Adjacency, h: Adjacency, w: Wrap, endId: Id,
                      fields: seq<string>)
    requires IsAdjacency(was, g) && IsAdjacency(now, h) && w.sel <= Ids(was) && w.zone.id !in Ids(was)
    requires IsWrapped(was, now, w.sel, w.zone, w.m, endId, w.at, fields)
    ensures IsContraction(g, h, w.sel, w.zone.id, Danglers(was, w.sel, w.zone.id))
  {
    var zone, extra := w.zone.id, Danglers(was, w.sel, w.zone.id);
    AdjacencyNodes(was, g);
    NowIds(was, now, w, endId);
    SelectedIds(was, w.sel);
    forall a, b ensures Edge(h, a, b) <==>
      || (a !in w.sel && b !in w.sel && Edge(g, a, b))
      || (a == zone && b !in w.sel && (b in extra || LeavesTo(g, w.sel, b)))
      || (a !in w.sel && b == zone && EntersFrom(g, a, w.sel))
    {
      assert Edge(h, a, b) <==> Depends(now, a, b);
      assert Edge(g, a, b) <==> Depends(was, a, b);
      assert b in extra <==> b !in w.sel && Names(was, b, zone);
      if b == zone {
        ZoneDeps(was, now, w, endId, fields, a);
        EntersExternal(was, g, w.sel, a);
      } else if b !in w.sel {
        OutsideNames(was, now, w, endId, b, a);
        LeavesNames(was, g, w.sel, b);
      } else if Depends(now, a, b) {
        var n :| n in now && n.id == b && a in DepIds(n);
        var o := NowMember(was, now, w, endId, n);
      }
    }
  }

  lemma EntersExternal(was: seq<Node>, g: Adjacency, sel: set<Id>, a: Id)
    requires IsAdjacency(was, g)
    ensures a in External(was, sel) <==> a !in sel && EntersFrom(g, a, sel)
  {
    if a in External(was, sel) {
      var n :| n in was && n.id in sel && a in DepIds(n) && a in Ids(was) && a !in sel;
      assert Depends(was, a, n.id);
      assert Edge(g, a, n.id);
    }
    if a !in sel && EntersFrom(g, a, sel) {
      var s :| s in sel && Edge(g, a, s);
      assert Depends(was, a, s);
    }
  }

  lemma LeavesNames(was: seq<Node>, g: Adjacency, sel: set<Id>, b: Id)
    requires IsAdjacency(was, g) && b !in sel && sel <= Ids(was)
    ensures LeavesTo(g, sel, b) <==> exists s :: s in sel && Names(was, b, s)
  {
    if s :| s in sel && Names(was, b, s) {
      assert Depends(was, s, b);
      assert Edge(g, s, b);
    }
    if s :| s in sel && Edge(g, s, b) { assert Depends(was, s, b); }
  }

  /** An acyclic workflow stays acyclic exactly when no outside node that already named the zone's
      fresh id comes before the moved nodes. */
  lemma WrapKeepsAcyclic(was: seq<Node>, now: seq<Node>, g: Adjacency, h: Adjacency, startId: Id, endId: Id, w: Wrap,
                         clean: Id -> Id, fields: seq<string>)
    requires Wrapped(was, now, g, startId, endId, w, clean, fields) && IsAdjacency(now, h) && Acyclic(g)
    ensures Acyclic(h) <==>
              forall d, s :: d in Danglers(was, w.sel, w.zone.id) && s in w.sel ==> !Precedes(g, d, s)
  {
    PathSetIds(was, g, startId, endId, w.sel);
    WrapContracts(was, now, g, h, w, endId, fields);
    PathSetConvex(g, startId, endId, w.sel);
    ContractionAcyclic(g, h, w.sel, w.zone.id, Danglers(was, w.sel, w.zone.id));
    assert NoReturn(g, w.sel, Danglers(was, w.sel, w.zone.id)) <==>
      forall d, s :: d in Danglers(was, w.sel, w.zone.id) && s in w.sel ==> !Precedes(g, d, s);
  }

  lemma PathSetConvex(g: Adjacency, startId: Id, endId: Id, sel: set<Id>)
    requires PathSet(g, startId, endId, sel) && Acyclic(g)
    ensures Convex(g, sel)
  {
    if startId == endId { OnPathsSingle(g, startId); }
    OnPathsConvex(g, startId, endId, sel);
  }

  /** While the workflow stays acyclic, two outside nodes are ordered after the wrap exactly if they were
      before, or the first preceded moved nodes and the second followed them or a node that already named
      the zone's fresh id. */
  lemma WrapKeepsOrder(was: seq<Node>, now: seq<Node>, g: Adjacency, h: Adjacency, startId: Id, endId: Id, w: Wrap,
                       clean: Id -> Id, fields: seq<string>, x: Id, y: Id)
    requires Wrapped(was, now, g, startId, endId, w, clean, fields) && IsAdjacency(now, h) && Acyclic(g) && Acyclic(h)
    requires x in Ids(was) - w.sel && y in Ids(was) - w.sel
    ensures Precedes(h, x, y) <==>
              Precedes(g, x, y) || (Up(g, w.sel, x) && Down(g, w.sel, Danglers(was, w.sel, w.zone.id), y))
    ensures Precedes(h, x, w.zone.id) <==> Up(g, w.sel, x)
    ensures Precedes(h, w.zone.id, y) <==> Down(g, w.sel, Danglers(was, w.sel, w.zone.id), y)
  {
    var extra := Danglers(was, w.sel, w.zone.id);
    PathSetIds(was, g, startId, endId, w.sel);
    WrapContracts(was, now, g, h, w, endId, fields);
    PathSetConvex(g, startId, endId, w.sel);
    ContractionAcyclic(g, h, w.sel, w.zone.id, extra);
    ContractedOrder(g, h, w.sel, w.zone.id, extra, x, y);
    ContractedOrder(g, h, w.sel, w.zone.id, extra, x, w.zone.id);
    ContractedOrder(g, h, w.sel, w.zone.id, extra, w.zone.id, y);
  }

  lemma TwoNodeChain(was: seq<Node>, g: Adjacency, zone: Id)
    requires was == [Plain("a", [zone], []), Plain("b", ["a"], [])]
    requires zone !in Ids(was) && IsAdjacency(was, g)
    ensures Acyclic(g) && Precedes(g, "a", "b")
  {
    var a, b := was[0], was[1];
    assert DepIds(a) == {zone} && DepIds(b) == {"a"};
    assert a.id in Ids(was) && b.id in Ids(was);
    forall x, y | Edge(g, x, y) ensures x == "a" && y == "b" { assert Depends(was, x, y); }
    var r := (x: Id, y: Id) => x == "a" && y == "b";
    forall v ensures !Precedes(g, v, v) {
      if Precedes(g, v, v) { PrecedesWithin(g, r, v, v); }
    }
    assert Depends(was, "a", "b");
    LeadsEdge(g, "a", "b");
  }

  /** A dangling mention of the id the zone receives can close a cycle: wrapping `b` alone, when `a`
      precedes it and names the zone's id. */
  lemma DanglingMentionMakesCycle(was: seq<Node>, now: seq<Node>, g: Adjacency, h: Adjacency, w: Wrap,
                                  clean: Id -> Id, fields: seq<string>)
    requires was == [Plain("a", [w.zone.id], []), Plain("b", ["a"], [])]
    requires Wrapped(was, now, g, "b", "b", w, clean, fields) && IsAdjacency(now, h)
    ensures Acyclic(g) && !Acyclic(h)
  {
    TwoNodeChain(was, g, w.zone.id);
    WrapKeepsAcyclic(was, now, g, h, "b", "b", w, clean, fields);
    assert was[0] in was && w.zone.id in DepIds(was[0]);
    assert "a" in Danglers(was, w.sel, w.zone.id) && "b" in w.sel;
  }

  // ---- Inside the zone ----

  lemma SyncedIds(body: seq<Node>, out: seq<Node>)
    requires BodySynced(body, out)
    ensures Ids(out) == Ids(body)
  {
    forall v ensures v in Ids(out) <==> v in Ids(body) {
      if n :| n in out && n.id == v {
        var i :| 0 <= i < |out| && out[i] == n;
        assert StepSynced(body[i], out[i], Ids(body)) && body[i] in body;
      }
      if n :| n in body && n.id == v {
        var i :| 0 <= i < |body| && body[i] == n;
        assert StepSynced(body[i], out[i], Ids(body)) && out[i] in out;
      }
    }
  }

  lemma MovedIds(was: seq<Node>, sel: set<Id>, m: map<Id, Id>, v: Id)
    requires m.Keys == Ids(Selected(was, sel))
    ensures v in Ids(MovedBody(was, sel, m)) <==> exists x :: x in m && m[x] == v
  {
    var chosen, body := Selected(was, sel), MovedBody(was, sel, m);
    if x :| x in m && m[x] == v {
      var n :| n in chosen && n.id == x;
      var i :| 0 <= i < |chosen| && chosen[i] == n;
      assert body[i] in body && body[i].id == v;
    }
    if n :| n in body && n.id == v {
      var i :| 0 <= i < |body| && body[i] == n;
      assert chosen[i] in chosen;
    }
  }

  /** What one synced body step waits for, told from the node it was. */
  lemma StepDeps(n: Node, m: map<Id, Id>, out: Node, known: set<Id>, a: Id)
    requires n.id in m && a in m && m[a] in known && StepSynced(Moved(n, m), out, known)
    requires Injective(m)
    ensures m[a] in DepIds(out) <==> a in NodeIds(n.refs) || (a != n.id && a in n.needs)
  {
    var step := Moved(n, m);
    var refs := (NodeIds(step.refs) + NodeIds(step.bestTex)) * known - {step.id};
    ExtendedElems(KeepKnown(step.needs, known, step.id), out.needs, refs);
    KeepKnownElems(step.needs, known, step.id, m[a]);
    LocalNeedsElems(n.needs, m, m[a]);
    LocalizedIds(n.refs, m, m[a]);
    assert m[a] in NodeIds(step.refs) <==> a in NodeIds(n.refs);
    assert m[a] in step.needs <==> a in n.needs;
    assert m[a] in DepIds(out) <==> m[a] in Elems(out.needs) || m[a] in NodeIds(step.refs);
  }

  /** The order inside the body is the order the moved nodes had, save for what only the dropped
      `best_tex` text said. */
  lemma BodyKeepsOrder(was: seq<Node>, now: seq<Node>, g: Adjacency, startId: Id, endId: Id, w: Wrap,
                       clean: Id -> Id, fields: seq<string>, a: Id, b: Id)
    requires Wrapped(was, now, g, startId, endId, w, clean, fields) && a in w.sel && b in w.sel
    ensures a in w.m && b in w.m
    ensures Depends(w.zone.body, w.m[a], w.m[b]) <==> a != b && NeedsOrNames(was, a, b)
  {
    PathSetIds(was, g, startId, endId, w.sel);
    SelectedIds(was, w.sel);
    BodyOrder(was, w.sel, w.m, w.given, clean, w.zone.body, a, b);
  }

  ghost predicate NeedsOrNames(was: seq<Node>, a: Id, b: Id) {
    exists n :: n in was && n.id == b && (a in n.needs || a in NodeIds(n.refs))
  }

  lemma BodyStepNames(was: seq<Node>, sel: set<Id>, m: map<Id, Id>, out: seq<Node>, a: Id, b: Id)
    requires m.Keys == Ids(Selected(was, sel)) && a in m && b in m && a != b
    requires Injective(m)
    requires BodySynced(MovedBody(was, sel, m), out) && Names(out, m[b], m[a])
    ensures NeedsOrNames(was, a, b)
  {
    var chosen, body := Selected(was, sel), MovedBody(was, sel, m);
    var o :| o in out && o.id == m[b] && m[a] in DepIds(o);
    var i :| 0 <= i < |out| && out[i] == o;
    assert StepSynced(body[i], out[i], Ids(body));
    var n := InMap(chosen, i, m);
    assert n in chosen && body[i] == Moved(n, m);
    MovedIds(was, sel, m, m[a]);
    StepDeps(n, m, o, Ids(body), a);
    PartitionMembers(was, sel, n);
  }

  lemma BodyStepNamed(was: seq<Node>, sel: set<Id>, m: map<Id, Id>, out: seq<Node>, a: Id, b: Id)
    requires m.Keys == Ids(Selected(was, sel)) == sel && a in m && b in m && a != b
    requires Injective(m)
    requires BodySynced(MovedBody(was, sel, m), out) && NeedsOrNames(was, a, b)
    ensures Names(out, m[b], m[a])
  {
    var chosen, body := Selected(was, sel), MovedBody(was, sel, m);
    var n :| n in was && n.id == b && (a in n.needs || a in NodeIds(n.refs));
    PartitionMembers(was, sel, n);
    var i :| 0 <= i < |chosen| && chosen[i] == n;
    assert body[i] == Moved(n, m);
    assert StepSynced(body[i], out[i], Ids(body)) && out[i] in out;
    MovedIds(was, sel, m, m[a]);
    StepDeps(n, m, out[i], Ids(body), a);
  }

  lemma BodyOrder(was: seq<Node>, sel: set<Id>, m: map<Id, Id>, given: seq<Id>, clean: Id -> Id,
                  out: seq<Node>, a: Id, b: Id)
    requires Ids(Selected(was, sel)) == sel && GivenOut(Bases(Selected(was, sel), clean), {}, given)
    requires m == IdMap(IdList(Selected(was, sel)), given) && m.Keys == sel && a in sel && b in sel
    requires BodySynced(MovedBody(was, sel, m), out)
    ensures Depends(out, m[a], m[b]) <==> a != b && NeedsOrNames(was, a, b)
  {
    IdMapFresh(IdList(Selected(was, sel)), Bases(Selected(was, sel), clean), {}, given);
    SyncedIds(MovedBody(was, sel, m), out);
    MovedIds(was, sel, m, m[a]);
    if a != b {
      if Names(out, m[b], m[a]) { BodyStepNames(was, sel, m, out, a, b); }
      if NeedsOrNames(was, a, b) { BodyStepNamed(was, sel, m, out, a, b); }
    }
  }

  lemma BodyEdgeBack(was: seq<Node>, sel: set<Id>, m: map<Id, Id>, given: seq<Id>, clean: Id -> Id,
                     out: seq<Node>, g: Adjacency, u: Id, v: Id)
    requires Ids(Selected(was, sel)) == sel && GivenOut(Bases(Selected(was, sel), clean), {}, given)
    requires m == IdMap(IdList(Selected(was, sel)), given) && m.Keys == sel && sel <= Ids(was)
    requires BodySynced(MovedBody(was, sel, m), out) && IsAdjacency(was, g)
    requires v in Ids(out) && Depends(out, u, v)
    ensures Edge(g, Back(m, u), Back(m, v))
  {
    SyncedIds(MovedBody(was, sel, m), out);
    MovedIds(was, sel, m, u);
    MovedIds(was, sel, m, v);
    var a, b := Back(m, u), Back(m, v);
    BodyOrder(was, sel, m, given, clean, out, a, b);
    assert Names(was, b, a);
    assert Depends(was, a, b);
  }

  /** Wrapping nodes of an acyclic workflow leaves an acyclic body. */
  lemma BodyAcyclic(was: seq<Node>, now: seq<Node>, g: Adjacency, h: Adjacency, startId: Id, endId: Id, w: Wrap,
                    clean: Id -> Id, fields: seq<string>)
    requires Wrapped(was, now, g, startId, endId, w, clean, fields) && Acyclic(g)
    requires IsAdjacency(w.zone.body, h)
    ensures Acyclic(h)
  {
    PathSetIds(was, g, startId, endId, w.sel);
    SelectedIds(was, w.sel);
    AdjacencyNodes(w.zone.body, h);
    var back := (v: Id) => Back(w.m, v);
    forall u, v | Edge(h, u, v) ensures Edge(g, back(u), back(v)) {
      assert Depends(w.zone.body, u, v) && v in Nodes(h);
      BodyEdgeBack(was, w.sel, w.m, w.given, clean, w.zone.body, g, u, v);
    }
    AcyclicByImage(h, g, back);
  }

  /** A reference as it reads from inside the zone: to a node that moved too by its new id, to one that stayed
      by way of the parent; all others as they were. */
  predicate ReadsFromInside(r: Ref, inside: Ref, m: map<Id, Id>) {
    match r
    case NodeRef(id, path) => inside == if id in m then NodeRef(m[id], path) else ParentRef(id, path)
    case _ => inside == r
  }

  /** The k-th body step is the k-th moved node under its new id, with its text read from inside and its
      `best_tex` gone, and with no need marked as managed. */
  lemma BodyStepIs(was: seq<Node>, now: seq<Node>, w: Wrap, endId: Id, fields: seq<string>, k: nat)
    requires IsWrapped(was, now, w.sel, w.zone, w.m, endId, w.at, fields) && k < |Selected(was, w.sel)|
    ensures |w.zone.body| == |Selected(was, w.sel)| && Selected(was, w.sel)[k].id in w.m
    ensures var n, step := Selected(was, w.sel)[k], w.zone.body[k];
            && step.id == w.m[n.id] && step.repeat == n.repeat && step.managed == {} && step.bestTex == []
            && step.outputs == n.outputs && step.updates == n.updates && step.rounds == n.rounds
            && step.condition == n.condition && step.body == n.body
            && |step.refs| == |n.refs|
            && forall i :: 0 <= i < |n.refs| ==> ReadsFromInside(n.refs[i], step.refs[i], w.m)
  {
    var n, body := InMap(Selected(was, w.sel), k, w.m), MovedBody(was, w.sel, w.m);
    assert body[k] == Moved(n, w.m);
    assert StepSynced(body[k], w.zone.body[k], Ids(body));
  }

  /** The i-th moved node has the first free one of its own id, cleaned, and that with `_2`, `_3` and so on,
      those of the nodes before it taken. */
  lemma MovedNamed(was: seq<Node>, now: seq<Node>, g: Adjacency, startId: Id, endId: Id, w: Wrap,
                   clean: Id -> Id, fields: seq<string>, i: nat)
    requires Wrapped(was, now, g, startId, endId, w, clean, fields) && i < |Selected(was, w.sel)|
    requires var chosen := Selected(was, w.sel);
             forall j :: 0 <= j < |chosen| && j != i ==> chosen[j].id != chosen[i].id
    ensures var id, chosen := Selected(was, w.sel)[i].id, Selected(was, w.sel);
            && i < |w.given| == |chosen| && id in w.m && w.m[id] == w.given[i]
            && var base, taken := clean(id), Elems(w.given[..i]);
               || (w.given[i] == base && base !in taken)
               || (base in taken && exists k: nat :: 2 <= k && w.given[i] == Numbered(base, k) && w.given[i] !in taken
                                                     && forall j: nat :: 2 <= j < k ==> Numbered(base, j) in taken)
  {
    var chosen := Selected(was, w.sel);
    IdMapAt(IdList(chosen), w.given, i);
    assert Bases(chosen, clean)[i] == clean(chosen[i].id);
    assert {} + Elems(w.given[..i]) == Elems(w.given[..i]);
    TriedInOrder(clean(chosen[i].id), Elems(w.given[..i]), w.given[i]);
  }

  // ---- Which names are left ----

  /** Those that stay when node references are re-pointed. */
  function Skipped(refs: seq<Ref>, depth: nat): set<Id> {
    set r | r in refs && Means(r, depth) && !r.NodeRef? :: r.id
  }

  /** Every top-level id that a top-level node's needs and text name. */
  function TopNames(n: Node): set<Id> {
    Elems(n.needs) + TextNames(n, 0)
  }

  /** Those in text that a wrap leaves alone: a zone's `max_iterations`, condition, state updates and body,
      parent references in its `best_tex` and outputs, and hidden references anywhere. */
  function LeftNames(o: Node): set<Id> {
    Skipped(o.refs, 0) + Skipped(o.bestTex, 0) + TopIds(o.rounds, 0)
    + (if o.repeat then Skipped(o.bestTex, 1) else {})
    + TopIds(o.condition, 1) + Skipped(o.outputs, 1) + TopIds(o.updates, 1)
    + BodyNames(o.body, 1)
  }

  /** Re-pointing takes away the node references to moved nodes, and nothing else that names them. */
  lemma RepointedNames(refs: seq<Ref>, depth: nat, loopId: Id, m: map<Id, Id>, endId: Id)
    requires loopId !in m
    ensures TopIds(RepointRefs(refs, loopId, m, endId), depth) * m.Keys == Skipped(refs, depth) * m.Keys
  {
    var out := RepointRefs(refs, loopId, m, endId);
    forall id | id in TopIds(out, depth) && id in m ensures id in Skipped(refs, depth) {
      var r :| r in out && Means(r, depth) && r.id == id;
      var i :| 0 <= i < |out| && out[i] == r;
      assert refs[i] in refs && out[i] == Repointed(refs[i], loopId, m, endId);
      assert refs[i] == r;
    }
    forall id | id in Skipped(refs, depth) && id in m ensures id in TopIds(out, depth) {
      var r :| r in refs && Means(r, depth) && !r.NodeRef? && r.id == id;
      var i :| 0 <= i < |refs| && refs[i] == r;
      assert out[i] == r && out[i] in out;
    }
  }

  lemma SameWithin(a: set<Id>, b: set<Id>, c: set<Id>, d: set<Id>, sel: set<Id>)
    requires a * sel == b * sel && c * sel == d * sel
    ensures (a + c) * sel == (b + d) * sel
  {
    assert (a + c) * sel == a * sel + c * sel;
    assert (b + d) * sel == b * sel + d * sel;
  }

  lemma RewiredText(o: Node, sel: set<Id>, loopId: Id, m: map<Id, Id>, endId: Id)
    requires m.Keys == sel && loopId !in sel
    ensures TextNames(WithRefs(o, loopId, m, endId), 0) * sel == LeftNames(o) * sel
  {
    var n := WithRefs(o, loopId, m, endId);
    RepointedNames(o.refs, 0, loopId, m, endId);
    RepointedNames(o.bestTex, 0, loopId, m, endId);
    RepointedNames(o.bestTex, 1, loopId, m, endId);
    RepointedNames(o.outputs, 1, loopId, m, endId);
    var a0, b0 := TopIds(n.refs, 0) + TopIds(n.bestTex, 0), Skipped(o.refs, 0) + Skipped(o.bestTex, 0);
    SameWithin(TopIds(n.refs, 0), Skipped(o.refs, 0), TopIds(n.bestTex, 0), Skipped(o.bestTex, 0), sel);
    var a1, b1 := if o.repeat then TopIds(n.bestTex, 1) else {}, if o.repeat then Skipped(o.bestTex, 1) else {};
    var rest := TopIds(o.rounds, 0) + TopIds(o.condition, 1) + TopIds(o.updates, 1) + BodyNames(o.body, 1);
    SameWithin(a0, b0, a1, b1, sel);
    SameWithin(a0 + a1, b0 + b1, TopIds(n.outputs, 1), Skipped(o.outputs, 1), sel);
    SameWithin(a0 + a1 + TopIds(n.outputs, 1), b0 + b1 + Skipped(o.outputs, 1), rest, rest, sel);
    assert TextNames(n, 0) == a0 + a1 + TopIds(n.outputs, 1) + rest;
    assert LeftNames(o) == b0 + b1 + Skipped(o.outputs, 1) + rest;
  }

  lemma RewiredNames(o: Node, sel: set<Id>, loopId: Id, m: map<Id, Id>, endId: Id)
    requires m.Keys == sel && loopId !in sel
    ensures TopNames(Rewired(o, sel, loopId, m, endId)) * sel == LeftNames(o) * sel
  {
    var needy := WithNeeds(o, sel, loopId);
    RewiredText(needy, sel, loopId, m, endId);
    RewiredNeedsElems(o.needs, sel, loopId);
    assert LeftNames(needy) == LeftNames(o);
    assert Elems(RewiredNeeds(o.needs, sel, loopId)) * sel == {};
  }

  /** The facts of a wrap that its names and readings depend on. */
  lemma WrapParts(was: seq<Node>, now: seq<Node>, g: Adjacency, startId: Id, endId: Id, w: Wrap,
                  clean: Id -> Id, fields: seq<string>)
    requires Wrapped(was, now, g, startId, endId, w, clean, fields)
    ensures w.m.Keys == w.sel && w.sel <= Ids(was) && endId in w.m && w.zone.id !in Ids(was)
    ensures Surrounds(was, now, w.sel, w.zone, w.m, endId, w.at)
    ensures Ids(now) == Ids(was) - w.sel + {w.zone.id}
    ensures Injective(w.m)
  {
    PathSetIds(was, g, startId, endId, w.sel);
    SelectedIds(was, w.sel);
    NowIds(was, now, w, endId);
    var chosen := Selected(was, w.sel);
    IdMapFresh(IdList(chosen), Bases(chosen, clean), {}, w.given);
  }

  lemma NowNames(was: seq<Node>, now: seq<Node>, w: Wrap, endId: Id, n: Node) returns (o: Node)
    requires Surrounds(was, now, w.sel, w.zone, w.m, endId, w.at) && w.m.Keys == w.sel && w.zone.id !in w.sel
    requires n in now && n != w.zone
    ensures o in was && o.id !in w.sel && TopNames(n) * w.sel == LeftNames(o) * w.sel
    ensures DepIds(n) !! w.sel && NodeIds(n.outputs) !! w.sel
  {
    o := NowMember(was, now, w, endId, n);
    RewiredNames(o, w.sel, w.zone.id, w.m, endId);
    RewiredDeps(o, w.sel, w.zone.id, w.m, endId);
    RepointedIds(o.outputs, w.zone.id, w.m, endId);
  }

  lemma WasNames(was: seq<Node>, now: seq<Node>, w: Wrap, endId: Id, o: Node) returns (n: Node)
    requires Surrounds(was, now, w.sel, w.zone, w.m, endId, w.at) && w.m.Keys == w.sel && w.zone.id !in w.sel
    requires o in was && o.id !in w.sel && w.zone.id !in Ids(was)
    ensures n in now && n != w.zone && n.id == o.id && TopNames(n) * w.sel == LeftNames(o) * w.sel
  {
    OutsideStays(was, now, w, endId, o);
    RewiredNames(o, w.sel, w.zone.id, w.m, endId);
    n := Rewired(o, w.sel, w.zone.id, w.m, endId);
    assert n.id == o.id && o.id in Ids(was);
  }

  /** No text outside the zone, nor any of the workflow's outputs, names a moved node. */
  ghost predicate NoneNamed(now: seq<Node>, outputs: seq<Ref>, w: Wrap) {
    && (forall n :: n in now && n != w.zone ==> TopNames(n) * w.sel == {})
    && TopIds(outputs, 0) * w.sel == {}
  }

  /** Before the wrap, none of the text outside that it leaves alone names a node that moves. */
  ghost predicate LeftApart(was: seq<Node>, outputs: seq<Ref>, sel: set<Id>) {
    && (forall o :: o in was && o.id !in sel ==> LeftNames(o) * sel == {})
    && Skipped(outputs, 0) * sel == {}
  }

  lemma NoneNamedExactly(was: seq<Node>, now: seq<Node>, w: Wrap, endId: Id, outputs: seq<Ref>)
    requires Surrounds(was, now, w.sel, w.zone, w.m, endId, w.at) && w.m.Keys == w.sel
    requires w.sel <= Ids(was) && w.zone.id !in Ids(was)
    ensures NoneNamed(now, RepointRefs(outputs, w.zone.id, w.m, endId), w) <==> LeftApart(was, outputs, w.sel)
  {
    RepointedNames(outputs, 0, w.zone.id, w.m, endId);
    if LeftApart(was, outputs, w.sel) {
      forall n | n in now && n != w.zone ensures TopNames(n) * w.sel == {} {
        var o := NowNames(was, now, w, endId, n);
      }
    }
    if NoneNamed(now, RepointRefs(outputs, w.zone.id, w.m, endId), w) {
      forall o | o in was && o.id !in w.sel ensures LeftNames(o) * w.sel == {} {
        var n := WasNames(was, now, w, endId, o);
      }
    }
  }

  /** After a wrap nothing outside still names a moved node exactly when, before it, no text that it leaves
      alone did. `needs`, and node references in all text that counts as a dependency, in outputs of zones
      and in the workflow's outputs, are always re-pointed. */
  lemma NothingNamesMovedNodes(was: seq<Node>, now: seq<Node>, g: Adjacency, startId: Id, endId: Id, w: Wrap,
                               clean: Id -> Id, fields: seq<string>, outputs: seq<Ref>)
    requires Wrapped(was, now, g, startId, endId, w, clean, fields)
    ensures NoneNamed(now, RepointRefs(outputs, w.zone.id, w.m, endId), w) <==> LeftApart(was, outputs, w.sel)
    ensures forall n :: n in now && n != w.zone ==> DepIds(n) !! w.sel && NodeIds(n.outputs) !! w.sel
    ensures NodeIds(RepointRefs(outputs, w.zone.id, w.m, endId)) !! w.sel
  {
    WrapParts(was, now, g, startId, endId, w, clean, fields);
    NoneNamedExactly(was, now, w, endId, outputs);
    RepointedIds(outputs, w.zone.id, w.m, endId);
    forall n | n in now && n != w.zone ensures DepIds(n) !! w.sel && NodeIds(n.outputs) !! w.sel {
      var o := NowNames(was, now, w, endId, n);
    }
  }

  /** A zone `z` that waits for `b`, which is wrapped alone: the wrap succeeds, `b` is gone, and `z` still
      names it if it did so in text that is left alone. */
  lemma LeftNameStays(was: seq<Node>, now: seq<Node>, g: Adjacency, w: Wrap, clean: Id -> Id, fields: seq<string>,
                      b: Node, z: Node)
    requires b == Plain(b.id, [], []) && z.repeat && z.id != b.id && was == [b, z] && IsAdjacency(was, g)
    ensures Wrappable(was, g, b.id, b.id)
    ensures Wrapped(was, now, g, b.id, b.id, w, clean, fields) && b.id in LeftNames(z) ==>
      b.id !in Ids(now) && exists n :: n in now && n.id == z.id && b.id in TopNames(n)
  {
    assert was[0] in was && was[1] in was;
    LeadsRefl(g, b.id);
    if Wrapped(was, now, g, b.id, b.id, w, clean, fields) && b.id in LeftNames(z) {
      WrapParts(was, now, g, b.id, b.id, w, clean, fields);
      var n := WasNames(was, now, w, b.id, z);
      assert b.id in LeftNames(z) * w.sel;
    }
  }

  /** Such inputs: `$parent.node.b` in a body step. */
  lemma BodyTextStillNamesMoved(was: seq<Node>, now: seq<Node>, g: Adjacency, w: Wrap, clean: Id -> Id,
                                fields: seq<string>, b: Node, z: Node, x: Node, path: seq<string>)
    requires b == Plain(b.id, [], []) && z.id != b.id && was == [b, z] && IsAdjacency(was, g)
    requires z == Zone(z.id, [b.id], [x]) && x == Plain(x.id, [], [ParentRef(b.id, path)])
    ensures Wrappable(was, g, b.id, b.id)
    ensures Wrapped(was, now, g, b.id, b.id, w, clean, fields) ==>
      b.id !in Ids(now) && exists n :: n in now && n.id == z.id && b.id in TopNames(n)
  {
    assert x.refs[0] in x.refs && Means(x.refs[0], 1);
    assert BodyNames([x], 1) == TextNames(x, 1) + BodyNames([], 1);
    LeftNameStays(was, now, g, w, clean, fields, b, z);
  }

  /** In the zone's `best_tex`, which is evaluated inside it after every round. */
  lemma BestTexStillNamesMoved(was: seq<Node>, now: seq<Node>, g: Adjacency, w: Wrap, clean: Id -> Id,
                               fields: seq<string>, b: Node, z: Node, path: seq<string>)
    requires b == Plain(b.id, [], []) && z.id != b.id && was == [b, z] && IsAdjacency(was, g)
    requires z == Zone(z.id, [b.id], []).(bestTex := [ParentRef(b.id, path)])
    ensures Wrappable(was, g, b.id, b.id)
    ensures Wrapped(was, now, g, b.id, b.id, w, clean, fields) ==>
      b.id !in Ids(now) && exists n :: n in now && n.id == z.id && b.id in TopNames(n)
  {
    assert z.bestTex[0] in z.bestTex && Means(z.bestTex[0], 1);
    LeftNameStays(was, now, g, w, clean, fields, b, z);
  }

  /** In its condition, evaluated inside it before every round. */
  lemma ConditionStillNamesMoved(was: seq<Node>, now: seq<Node>, g: Adjacency, w: Wrap, clean: Id -> Id,
                                 fields: seq<string>, b: Node, z: Node, path: seq<string>)
    requires b == Plain(b.id, [], []) && z.id != b.id && was == [b, z] && IsAdjacency(was, g)
    requires z == Zone(z.id, [b.id], []).(condition := [ParentRef(b.id, path)])
    ensures Wrappable(was, g, b.id, b.id)
    ensures Wrapped(was, now, g, b.id, b.id, w, clean, fields) ==>
      b.id !in Ids(now) && exists n :: n in now && n.id == z.id && b.id in TopNames(n)
  {
    assert z.condition[0] in z.condition && Means(z.condition[0], 1);
    LeftNameStays(was, now, g, w, clean, fields, b, z);
  }

  /** `$node.b` in its `max_iterations`, evaluated beside it. */
  lemma RoundsStillNameMoved(was: seq<Node>, now: seq<Node>, g: Adjacency, w: Wrap, clean: Id -> Id,
                             fields: seq<string>, b: Node, z: Node, path: seq<string>)
    requires b == Plain(b.id, [], []) && z.id != b.id && was == [b, z] && IsAdjacency(was, g)
    requires z == Zone(z.id, [b.id], []).(rounds := [NodeRef(b.id, path)])
    ensures Wrappable(was, g, b.id, b.id)
    ensures Wrapped(was, now, g, b.id, b.id, w, clean, fields) ==>
      b.id !in Ids(now) && exists n :: n in now && n.id == z.id && b.id in TopNames(n)
  {
    assert z.rounds[0] in z.rounds && Means(z.rounds[0], 0);
    LeftNameStays(was, now, g, w, clean, fields, b, z);
  }

  /** `$parent.parent.node.b` two bodies deep, as deep Python code may name it. */
  lemma DeepTextStillNamesMoved(was: seq<Node>, now: seq<Node>, g: Adjacency, w: Wrap, clean: Id -> Id,
                                fields: seq<string>, b: Node, z: Node, x: Node, y: Node, path: seq<string>)
    requires b == Plain(b.id, [], []) && z.id != b.id && was == [b, z] && IsAdjacency(was, g)
    requires z == Zone(z.id, [b.id], [x]) && x == Zone(x.id, [], [y])
    requires y == Plain(y.id, [], [HiddenRef(2, b.id, path)])
    ensures Wrappable(was, g, b.id, b.id)
    ensures Wrapped(was, now, g, b.id, b.id, w, clean, fields) ==>
      b.id !in Ids(now) && exists n :: n in now && n.id == z.id && b.id in TopNames(n)
  {
    assert y.refs[0] in y.refs && Means(y.refs[0], 2);
    assert BodyNames([y], 2) == TextNames(y, 2) + BodyNames([], 2);
    assert BodyNames([x], 1) == TextNames(x, 1) + BodyNames([], 1);
    LeftNameStays(was, now, g, w, clean, fields, b, z);
  }

  // ---- What references read ----

  /** Where the value of a reference comes from. */
  datatype Reading =
    | Output(id: Id, path: seq<string>)             // the output of a top-level node
    | Inner(zone: Id, id: Id, path: seq<string>)    // that of a body node, in the zone's last round
    | Begun(field: string, path: seq<string>)       // the state a zone began with
    | Record(zone: Id, path: seq<string>)           // a zone's own record of its run
    | Nothing

  function IndexOf(fields: seq<string>, f: string): (i: nat)
    requires f in fields
    ensures i < |fields| && fields[i] == f
  {
    if fields[0] == f then 0 else 1 + IndexOf(fields[1..], f)
  }

  predicate Keyed(zone: Node, fields: seq<string>) {
    |zone.outputs| == |fields| == |zone.updates|
  }

  /** A field of the state a zone ends with: from its state updates, or from the state it began with. */
  function StateReads(zone: Node, fields: seq<string>, f: string, rest: seq<string>): Reading
    requires Keyed(zone, fields)
  {
    if f in fields then
      match zone.updates[IndexOf(fields, f)]
      case NodeRef(id, path) => Inner(zone.id, id, path + rest)
      case _ => Nothing
    else if StateRef(f) in zone.refs then Begun(f, rest)
    else Nothing
  }

  /** A field of a zone's result: an output of that name, else the state or the record of the run. */
  function ZoneReads(zone: Node, fields: seq<string>, path: seq<string>): Reading
    requires Keyed(zone, fields)
  {
    if path == [] then Record(zone.id, [])
    else if path[0] in fields then
      match zone.outputs[IndexOf(fields, path[0])]
      case StateRef(f) => StateReads(zone, fields, f, path[1..])
      case _ => Nothing
    else if path[0] == "state" && |path| > 1 then StateReads(zone, fields, path[1], path[2..])
    else if path[0] in ["state", "history", "iterations", "reason"] then Record(zone.id, path)
    else Nothing
  }

  /** What `$node.<id>.<path>` reads at the top level of the wrapped workflow. */
  function ReadsNow(now: seq<Node>, zone: Node, fields: seq<string>, id: Id, path: seq<string>): Reading
    requires Keyed(zone, fields)
  {
    if id == zone.id then ZoneReads(zone, fields, path)
    else if id in Ids(now) then Output(id, path)
    else Nothing
  }

  /** What it should read there, when it read node `id` before. */
  function StillReads(w: Wrap, id: Id, path: seq<string>): Reading {
    if id in w.m then Inner(w.zone.id, w.m[id], path) else Output(id, path)
  }

  /** The zone exports each field of the end node from its state, and its state takes it from that node. */
  ghost predicate Exports(zone: Node, fields: seq<string>, moved: Id) {
    && Keyed(zone, fields)
    && forall i :: 0 <= i < |fields| ==>
          zone.outputs[i] == StateRef(fields[i]) && zone.updates[i] == NodeRef(moved, [fields[i]])
  }

  lemma ZoneExports(was: seq<Node>, now: seq<Node>, w: Wrap, endId: Id, fields: seq<string>)
    requires IsWrapped(was, now, w.sel, w.zone, w.m, endId, w.at, fields)
    ensures Exports(w.zone, fields, w.m[endId])
  {
  }

  lemma StateReadsEnd(zone: Node, fields: seq<string>, moved: Id, f: string, rest: seq<string>)
    requires Exports(zone, fields, moved)
    ensures f in fields ==> StateReads(zone, fields, f, rest) == Inner(zone.id, moved, [f] + rest)
    ensures f !in fields ==> !StateReads(zone, fields, f, rest).Inner?
  {
  }

  /** What a zone made from a path gives: the declared fields of the end node, and nothing else by its name. */
  lemma ZoneReadsEnd(zone: Node, fields: seq<string>, moved: Id, path: seq<string>)
    requires Exports(zone, fields, moved)
    ensures var r := ZoneReads(zone, fields, path);
            && (r == Inner(zone.id, moved, path) <==> path != [] && path[0] in fields)
            && (r.Inner? ==> r.id == moved)
  {
    if path != [] {
      StateReadsEnd(zone, fields, moved, path[0], path[1..]);
      assert path == [path[0]] + path[1..];
      if |path| > 1 { StateReadsEnd(zone, fields, moved, path[1], path[2..]); }
    }
  }

  /** A re-pointed reference to the end node keeps its path; one to another moved node names a state field after
      that node's new id and the field it read, and keeps what follows. */
  lemma RepointedPath(id: Id, path: seq<string>, loopId: Id, m: map<Id, Id>, endId: Id)
    requires id in m
    ensures var r := Repointed(NodeRef(id, path), loopId, m, endId);
            && r.NodeRef? && r.id == loopId
            && (id == endId ==> r.path == path)
            && (id != endId ==> |r.path| == (if path == [] then 2 else |path| + 1) && r.path[0] == "state"
                                && r.path[1] == (if path == [] then m[id] else m[id] + "_" + path[0])
                                && forall i :: 2 <= i < |r.path| ==> r.path[i] == path[i - 1])
  {
  }

  lemma FieldStillRead(was: seq<Node>, now: seq<Node>, g: Adjacency, startId: Id, endId: Id, w: Wrap,
                       clean: Id -> Id, fields: seq<string>, id: Id, path: seq<string>)
    requires Wrapped(was, now, g, startId, endId, w, clean, fields) && id in Ids(was)
    ensures Keyed(w.zone, fields)
    ensures var r := Repointed(NodeRef(id, path), w.zone.id, w.m, endId);
            r.NodeRef? &&
            (ReadsNow(now, w.zone, fields, r.id, r.path) == StillReads(w, id, path) <==>
               id !in w.sel || (id == endId && path != [] && path[0] in fields))
  {
    ZoneExports(was, now, w, endId, fields);
    WrapParts(was, now, g, startId, endId, w, clean, fields);
    if id in w.sel {
      MovedReads(now, w, endId, fields, id, path);
    } else {
      assert id in Ids(now);
    }
  }

  lemma ExportedElems(declared: seq<string>, f: string)
    ensures f in Exported(declared) <==>
              f in declared && f !in ["history", "iteration", "iterations", "next_iteration", "reason"]
  {
    ExportedExactly(declared);
    KeptElems(declared, Exported(declared), Exportable, f);
  }

  /** In text that a wrap re-points, a top-level reference to a listed node reads the same field of the same
      node after the wrap exactly when the node did not move, or it is the end node and the field is one it
      declares and none of those a run keeps for itself. */
  lemma EndFieldStillRead(was: seq<Node>, now: seq<Node>, g: Adjacency, startId: Id, endId: Id, w: Wrap,
                          clean: Id -> Id, declared: seq<string>, id: Id, path: seq<string>)
    requires Wrapped(was, now, g, startId, endId, w, clean, Exported(declared)) && id in Ids(was)
    ensures Keyed(w.zone, Exported(declared))
    ensures var r := Repointed(NodeRef(id, path), w.zone.id, w.m, endId);
            r.NodeRef? &&
            (ReadsNow(now, w.zone, Exported(declared), r.id, r.path) == StillReads(w, id, path) <==>
               id !in w.sel ||
               (id == endId && path != [] && path[0] in declared
                && path[0] !in ["history", "iteration", "iterations", "next_iteration", "reason"]))
  {
    FieldStillRead(was, now, g, startId, endId, w, clean, Exported(declared), id, path);
    if path != [] { ExportedElems(declared, path[0]); }
  }

  /** A zone begins with exactly the state fields that the moved nodes' text reads, those excepted that a run
      keeps for itself. */
  lemma ZoneBeginsWith(was: seq<Node>, now: seq<Node>, w: Wrap, endId: Id, fields: seq<string>, f: string)
    requires IsWrapped(was, now, w.sel, w.zone, w.m, endId, w.at, fields)
    ensures StateRef(f) in w.zone.refs <==>
              && f !in ["history", "iteration", "iterations", "next_iteration", "reason"]
              && exists n :: n in was && n.id in w.sel && StateRef(f) in n.refs
  {
    var body := MovedBody(was, w.sel, w.m);
    assert Elems(w.zone.refs) == (set x | x in StateFields(body) :: StateRef(x));
    assert StateRef(f) in w.zone.refs <==> StateRef(f) in Elems(w.zone.refs);
    assert f in StateFields(body) <==> f !in RUNTIME_FIELDS && exists n :: n in body && StateRef(f) in n.refs;
    BodyReadsState(was, w.sel, w.m, f);
  }

  /** Localizing its references leaves the state that a node's text reads as it was. */
  lemma BodyReadsState(was: seq<Node>, sel: set<Id>, m: map<Id, Id>, f: string)
    requires m.Keys == Ids(Selected(was, sel))
    ensures (exists n :: n in MovedBody(was, sel, m) && StateRef(f) in n.refs)
            <==> exists n :: n in was && n.id in sel && StateRef(f) in n.refs
  {
    var chosen, body := Selected(was, sel), MovedBody(was, sel, m);
    if n :| n in body && StateRef(f) in n.refs {
      var i :| 0 <= i < |body| && body[i] == n;
      var o := InMap(chosen, i, m);
      var k :| 0 <= k < |n.refs| && n.refs[k] == StateRef(f);
      assert n.refs[k] == Localized(o.refs[k], m) && o.refs[k] in o.refs;
      PartitionMembers(was, sel, o);
    }
    if n :| n in was && n.id in sel && StateRef(f) in n.refs {
      PartitionMembers(was, sel, n);
      var i :| 0 <= i < |chosen| && chosen[i] == n;
      var k :| 0 <= k < |n.refs| && n.refs[k] == StateRef(f);
      assert body[i] == Moved(InMap(chosen, i, m), m) && body[i].refs[k] == StateRef(f);
      assert body[i] in body && body[i].refs[k] in body[i].refs;
    }
  }

  lemma MovedReads(now: seq<Node>, w: Wrap, endId: Id, fields: seq<string>, id: Id, path: seq<string>)
    requires id in w.m && endId in w.m && Injective(w.m) && Exports(w.zone, fields, w.m[endId])
    ensures var r := Repointed(NodeRef(id, path), w.zone.id, w.m, endId);
            r.NodeRef? && (ReadsNow(now, w.zone, fields, r.id, r.path) == Inner(w.zone.id, w.m[id], path) <==>
              id == endId && path != [] && path[0] in fields)
  {
    var r := Repointed(NodeRef(id, path), w.zone.id, w.m, endId);
    assert r.NodeRef? && r.id == w.zone.id;
    ZoneReadsEnd(w.zone, fields, w.m[endId], r.path);
    if id != endId { assert w.m[id] != w.m[endId]; }
  }

  /** The moved end node stands in the zone's body under the id its fields are read from. */
  lemma EndNodeInBody(was: seq<Node>, now: seq<Node>, g: Adjacency, startId: Id, endId: Id, w: Wrap,
                      clean: Id -> Id, fields: seq<string>)
    requires Wrapped(was, now, g, startId, endId, w, clean, fields)
    ensures exists k :: (0 <= k < |w.zone.body| && k < |Selected(was, w.sel)|
                         && Selected(was, w.sel)[k].id == endId && w.zone.body[k].id == w.m[endId])
  {
    var chosen, body := Selected(was, w.sel), MovedBody(was, w.sel, w.m);
    var n :| n in chosen && n.id == endId;
    var k :| 0 <= k < |chosen| && chosen[k] == n;
    assert StepSynced(body[k], w.zone.body[k], Ids(body));
  }

  /** In a zone's `max_iterations`, which is left alone, it is read still exactly when the node did not
      move, the end node and its declared fields included. */
  lemma RoundsStillRead(was: seq<Node>, now: seq<Node>, g: Adjacency, startId: Id, endId: Id, w: Wrap,
                        clean: Id -> Id, fields: seq<string>, o: Node, id: Id, path: seq<string>)
    requires Wrapped(was, now, g, startId, endId, w, clean, fields) && id in Ids(was)
    ensures Keyed(w.zone, fields) && Rewired(o, w.sel, w.zone.id, w.m, endId).rounds == o.rounds
    ensures ReadsNow(now, w.zone, fields, id, path) == StillReads(w, id, path) <==> id !in w.sel
  {
    ZoneExports(was, now, w, endId, fields);
    WrapParts(was, now, g, startId, endId, w, clean, fields);
    LeftReads(was, now, w, fields, id, path);
  }

  lemma LeftReads(was: seq<Node>, now: seq<Node>, w: Wrap, fields: seq<string>, id: Id, path: seq<string>)
    requires Keyed(w.zone, fields) && w.m.Keys == w.sel && w.zone.id !in Ids(was) && id in Ids(was)
    requires Ids(now) == Ids(was) - w.sel + {w.zone.id}
    ensures ReadsNow(now, w.zone, fields, id, path) == StillReads(w, id, path) <==> id !in w.sel
  {
    assert id in Ids(now) <==> id !in w.sel;
  }

  /** What a reference in the text of zone `z` of the wrapped workflow reads, inside its body. */
  function InsideReads(now: seq<Node>, z: Node, zone: Node, fields: seq<string>, r: Ref): Reading
    requires Keyed(zone, fields)
  {
    match r
    case NodeRef(id, path) => if id in Ids(z.body) then Inner(z.id, id, path) else Nothing
    case ParentRef(id, path) => ReadsNow(now, zone, fields, id, path)
    case HiddenRef(0, id, path) => if id in Ids(z.body) then Inner(z.id, id, path) else Nothing
    case HiddenRef(1, id, path) => ReadsNow(now, zone, fields, id, path)
    case _ => Nothing
  }

  /** In the body text, state updates, condition and `best_tex` of another zone, a parent reference to a
      listed node reads it still exactly when the node did not move, whatever the field. */
  lemma BodyTextStillReads(was: seq<Node>, now: seq<Node>, g: Adjacency, startId: Id, endId: Id, w: Wrap,
                           clean: Id -> Id, fields: seq<string>, z: Node, id: Id, path: seq<string>)
    requires Wrapped(was, now, g, startId, endId, w, clean, fields) && id in Ids(was)
    ensures Keyed(w.zone, fields) && Repointed(ParentRef(id, path), w.zone.id, w.m, endId) == ParentRef(id, path)
    ensures InsideReads(now, z, w.zone, fields, ParentRef(id, path)) == StillReads(w, id, path) <==> id !in w.sel
  {
    ZoneExports(was, now, w, endId, fields);
    WrapParts(was, now, g, startId, endId, w, clean, fields);
    LeftReads(was, now, w, fields, id, path);
  }

  /** The outputs of another zone, and its `best_tex` after every round, are evaluated inside its body, but
      re-pointed as if they stood at the top level: a reference there to a body node keeps reading it exactly
      when no moved node had that id. */
  lemma ZoneOutputStillReads(was: seq<Node>, now: seq<Node>, g: Adjacency, startId: Id, endId: Id, w: Wrap,
                             clean: Id -> Id, fields: seq<string>, o: Node, id: Id, path: seq<string>)
    requires Wrapped(was, now, g, startId, endId, w, clean, fields)
    requires o in was && o.id !in w.sel && id in Ids(o.body)
    ensures Keyed(w.zone, fields)
    ensures var z := Rewired(o, w.sel, w.zone.id, w.m, endId);
            InsideReads(now, z, w.zone, fields, Repointed(NodeRef(id, path), w.zone.id, w.m, endId))
                == Inner(o.id, id, path)
            <==> id !in w.sel
  {
    ZoneExports(was, now, w, endId, fields);
    WrapParts(was, now, g, startId, endId, w, clean, fields);
    OutputReads(now, w, endId, fields, Rewired(o, w.sel, w.zone.id, w.m, endId), id, path);
  }

  lemma OutputReads(now: seq<Node>, w: Wrap, endId: Id, fields: seq<string>, z: Node, id: Id, path: seq<string>)
    requires Keyed(w.zone, fields) && w.m.Keys == w.sel && w.zone.id !in w.sel && id in Ids(z.body)
    ensures InsideReads(now, z, w.zone, fields, Repointed(NodeRef(id, path), w.zone.id, w.m, endId))
            == Inner(z.id, id, path)
            <==> id !in w.sel
  {
  }

  /** A reference in a moved node's text to a listed node reads the same from inside the zone, whether that
      node moved with it or stayed outside. */
  lemma MovedTextStillReads(was: seq<Node>, now: seq<Node>, g: Adjacency, startId: Id, endId: Id, w: Wrap,
                            clean: Id -> Id, fields: seq<string>, id: Id, path: seq<string>)
    requires Wrapped(was, now, g, startId, endId, w, clean, fields) && id in Ids(was)
    ensures Keyed(w.zone, fields)
    ensures InsideReads(now, w.zone, w.zone, fields, Localized(NodeRef(id, path), w.m)) == StillReads(w, id, path)
  {
    ZoneExports(was, now, w, endId, fields);
    WrapParts(was, now, g, startId, endId, w, clean, fields);
    if id in w.m {
      SyncedIds(MovedBody(was, w.sel, w.m), w.zone.body);
      MovedIds(was, w.sel, w.m, w.m[id]);
      assert w.m[id] in Ids(w.zone.body);
    } else {
      LeftReads(was, now, w, fields, id, path);
    }
  }

  /** Such an input: `c` reads field `f` of `a`, and the path from `a` to `b`, which declares just `f`, is
      wrapped. The reference becomes one to `state.a_f` of the zone, which nothing sets. */
  lemma IntermediateFieldLost(was: seq<Node>, now: seq<Node>, g: Adjacency, w: Wrap, clean: Id -> Id,
                              a: Node, b: Node, c: Node, f: string)
    requires a == Plain(a.id, [], []) && b == Plain(b.id, [a.id], []) && c == Plain(c.id, [], [NodeRef(a.id, [f])])
    requires was == [a, b, c] && a.id != b.id && f != "state" && IsAdjacency(was, g)
    ensures Wrappable(was, g, a.id, b.id)
    ensures Wrapped(was, now, g, a.id, b.id, w, clean, [f]) ==>
      && a.id in w.m && Keyed(w.zone, [f])
      && Repointed(c.refs[0], w.zone.id, w.m, b.id) == NodeRef(w.zone.id, ["state", w.m[a.id] + "_" + f])
      && ReadsNow(now, w.zone, [f], w.zone.id, ["state", w.m[a.id] + "_" + f]) == Nothing
  {
    ChainWrappable(was, g, a, b, c);
    NoStateNodes(a, b, c);
    FieldUnset(was, now, g, w, clean, a.id, b.id, [f], f);
  }

  lemma FieldUnset(was: seq<Node>, now: seq<Node>, g: Adjacency, w: Wrap, clean: Id -> Id, startId: Id, endId: Id,
                   fields: seq<string>, f: string)
    requires startId != endId && f != "state" && fields == [f] && StateFields(was) == {}
    ensures Wrapped(was, now, g, startId, endId, w, clean, fields) ==>
      && startId in w.m && Keyed(w.zone, fields)
      && Repointed(NodeRef(startId, [f]), w.zone.id, w.m, endId)
         == NodeRef(w.zone.id, ["state", w.m[startId] + "_" + f])
      && ReadsNow(now, w.zone, fields, w.zone.id, ["state", w.m[startId] + "_" + f]) == Nothing
  {
    StartMoved(was, now, g, startId, endId, w, clean, fields);
    RepointedField(startId, f, w.zone.id, w.m, endId);
    if startId in w.m && Keyed(w.zone, fields) && StateRef(w.m[startId] + "_" + f) !in w.zone.refs {
      StateUnset(w.zone, fields, w.m[startId], f);
    }
  }

  lemma RepointedField(id: Id, f: string, loopId: Id, m: map<Id, Id>, endId: Id)
    ensures id in m && id != endId ==>
      Repointed(NodeRef(id, [f]), loopId, m, endId) == NodeRef(loopId, ["state", m[id] + "_" + f])
  {
    assert [f][1..] == [];
  }

  lemma ChainWrappable(was: seq<Node>, g: Adjacency, a: Node, b: Node, c: Node)
    requires !a.repeat && !b.repeat && !c.repeat && a.id in b.needs && a.id != b.id
    requires was == [a, b, c] && IsAdjacency(was, g)
    ensures Wrappable(was, g, a.id, b.id)
  {
    assert was[0] in was && was[1] in was && a.id in DepIds(b);
    assert Depends(was, a.id, b.id);
    LeadsEdge(g, a.id, b.id);
  }

  lemma StartMoved(was: seq<Node>, now: seq<Node>, g: Adjacency, startId: Id, endId: Id, w: Wrap,
                   clean: Id -> Id, fields: seq<string>)
    ensures Wrapped(was, now, g, startId, endId, w, clean, fields) ==>
      && startId in w.m && endId in w.m && Keyed(w.zone, fields)
      && (StateFields(was) == {} ==> forall f :: StateRef(f) !in w.zone.refs)
  {
    if Wrapped(was, now, g, startId, endId, w, clean, fields) {
      WrapParts(was, now, g, startId, endId, w, clean, fields);
      LeadsRefl(g, startId);
      ZoneExports(was, now, w, endId, fields);
      if StateFields(was) == {} {
        forall f ensures StateRef(f) !in w.zone.refs { NoStateText(was, now, w, endId, fields, f); }
      }
    }
  }

  lemma NoStateNodes(a: Node, b: Node, c: Node)
    requires a.refs == b.refs == [] && |c.refs| == 1 && !c.refs[0].StateRef?
    ensures StateFields([a, b, c]) == {}
  {
  }

  lemma StateUnset(zone: Node, fields: seq<string>, moved: Id, f: string)
    requires Keyed(zone, fields) && fields == [f] && f != "state" && StateRef(moved + "_" + f) !in zone.refs
    ensures ZoneReads(zone, fields, ["state", moved + "_" + f]) == Nothing
  {
    assert |moved + "_" + f| > |f|;
  }

  lemma NoStateText(was: seq<Node>, now: seq<Node>, w: Wrap, endId: Id, fields: seq<string>, f: string)
    requires IsWrapped(was, now, w.sel, w.zone, w.m, endId, w.at, fields)
    requires StateFields(was) == {}
    ensures StateRef(f) !in w.zone.refs
  {
    var body := MovedBody(was, w.sel, w.m);
    BodyStateFields(was, w.sel, w.m);
    assert Elems(w.zone.refs) == (set x | x in StateFields(body) :: StateRef(x));
    assert StateRef(f) !in Elems(w.zone.refs);
  }

  lemma BodyStateFields(was: seq<Node>, sel: set<Id>, m: map<Id, Id>)
    requires m.Keys == Ids(Selected(was, sel))
    ensures StateFields(MovedBody(was, sel, m)) <= StateFields(was)
  {
    var body := MovedBody(was, sel, m);
    forall n, r | n in body && r in n.refs && r.StateRef? && r.field !in RUNTIME_FIELDS
      ensures r.field in StateFields(was)
    {
      var i :| 0 <= i < |body| && body[i] == n;
      var o := InMap(Selected(was, sel), i, m);
      PartitionMembers(was, sel, o);
      var k :| 0 <= k < |n.refs| && n.refs[k] == r;
      assert n.refs[k] == Localized(o.refs[k], m) && o.refs[k] in o.refs;
    }
  }
}
