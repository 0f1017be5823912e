/** Copies form an isomorphic image of what was copied, hooked to the same outside nodes. */
module CopyNodesProperties {
  import opened Graph
  import opened UniqueIds
  import opened Workflow
  import opened RepeatZone
  import opened CopyNodes

  ghost predicate Distinct(nodes: seq<Node>) {
    forall i, j :: 0 <= i < j < |nodes| ==> nodes[i].id != nodes[j].id
  }

  /** What the executor demands of a workflow: distinct ids, and no dependency on an unlisted node. */
  ghost predicate WellFormed(nodes: seq<Node>) {
    Distinct(nodes) && forall n :: n in nodes ==> DepIds(n) <= Ids(nodes)
  }

  lemma CopiedRefIds(refs: seq<Ref>, m: map<Id, Id>)
    ensures NodeIds(CopiedRefs(refs, m, true)) == set d | d in NodeIds(refs) :: Image(m, d)
  {
    var out := CopiedRefs(refs, m, true);
    forall v | v in NodeIds(out) ensures exists d :: d in NodeIds(refs) && v == Image(m, d) {
      var r :| r in out && r.NodeRef? && r.id == v;
      var i :| 0 <= i < |refs| && out[i] == r;
      assert refs[i] in refs && refs[i].NodeRef? && refs[i].id in NodeIds(refs);
    }
    forall d | d in NodeIds(refs) ensures Image(m, d) in NodeIds(out) {
      var r :| r in refs && r.NodeRef? && r.id == d;
      var i :| 0 <= i < |refs| && refs[i] == r;
      assert out[i] in out && out[i] == NodeRef(Image(m, d), r.path);
    }
  }

  lemma ImagesElems(needs: seq<Id>, m: map<Id, Id>)
    ensures Elems(Images(needs, m)) == set d | d in Elems(needs) :: Image(m, d)
  {
    var out := Images(needs, m);
    forall d | d in needs ensures Image(m, d) in out {
      var i :| 0 <= i < |needs| && needs[i] == d;
      assert out[i] in out;
    }
  }

  /** A copy depends on exactly the images of what its original depended on. */
  lemma CopyDeps(n: Node, out: Node, m: map<Id, Id>, known: set<Id>)
    requires IsCopy(n, out, m, known)
    ensures out.id == m[n.id]
    ensures DepIds(out) == set d | d in DepIds(n) :: Image(m, d)
  {
    var base := CopyOf(n, m).(body := out.body);
    SyncedElems(base, out, known);
    ImagesElems(n.needs, m);
    CopiedRefIds(n.refs, m);
    CopiedRefIds(n.bestTex, m);
    assert DepIds(out) == Elems(base.needs) + NodeIds(base.refs) + NodeIds(base.bestTex);
  }

  /** A node's text names `d` where that counts as a dependency. */
  ghost predicate NamedIn(n: Node, d: Id) {
    exists r :: (r in n.refs || r in n.bestTex) && r.NodeRef? && r.id == d
  }

  lemma NamedIs(n: Node, d: Id)
    ensures NamedIn(n, d) <==> d in NodeIds(n.refs) || d in NodeIds(n.bestTex)
  {
  }

  /** A copy's needs are the images of its original's, with every listed node its text names, itself excepted;
      the latter, and no others, are marked as managed. */
  lemma CopyNeeds(n: Node, out: Node, m: map<Id, Id>, known: set<Id>, d: Id)
    requires IsCopy(n, out, m, known)
    ensures d in out.needs <==>
              || (exists e :: e in n.needs && d == if e in m then m[e] else e)
              || (d in known && d != out.id && NamedIn(out, d))
    ensures d in out.managed <==> d in known && d != out.id && NamedIn(out, d)
  {
    var base := CopyOf(n, m).(body := out.body);
    SyncedElems(base, out, known);
    ImagesElems(n.needs, m);
    NamedIs(out, d);
    assert out.refs == base.refs && out.bestTex == base.bestTex && out.id == base.id;
    assert d in RefsIn(base, known) <==> d in known && d != out.id && NamedIn(out, d);
    assert d in out.needs <==> d in Elems(out.needs);
    assert d in Images(n.needs, m) <==> d in Elems(Images(n.needs, m));
    if d in Images(n.needs, m) {
      var i :| 0 <= i < |n.needs| && Images(n.needs, m)[i] == d;
      assert n.needs[i] in n.needs;
    }
    if e :| e in n.needs && d == if e in m then m[e] else e {
      var i :| 0 <= i < |n.needs| && n.needs[i] == e;
      assert Images(n.needs, m)[i] == d;
    }
  }

  /** `c` is the copy of `s`: fresh id, and the images of its dependencies. */
  ghost predicate IsImage(s: Node, c: Node, m: map<Id, Id>) {
    s.id in m && c.id == m[s.id] && DepIds(c) == set d | d in DepIds(s) :: Image(m, d)
  }

  /** The list after copying, told by what is in it. */
  ghost predicate Doubled(was: seq<Node>, now: seq<Node>, m: map<Id, Id>) {
    && Injective(m) && m.Keys <= Ids(was) && m.Values !! Ids(was)
    && (forall n :: n in was ==> n in now)
    && (forall n :: n in now ==> n in was || HasOriginal(was, n, m))
    && (forall s :: s in was && s.id in m ==> HasCopy(now, s, m))
  }

  ghost predicate HasOriginal(was: seq<Node>, c: Node, m: map<Id, Id>) {
    exists s :: s in was && IsImage(s, c, m)
  }

  ghost predicate HasCopy(now: seq<Node>, s: Node, m: map<Id, Id>) {
    exists c :: c in now && IsImage(s, c, m)
  }

  lemma CopyAt(was: seq<Node>, now: seq<Node>, chosen: seq<Entry>, clean: Id -> Id, given: seq<Id>, m: map<Id, Id>,
               i: nat)
    requires CopiedInto(was, now, chosen, clean, given, m) && i < |chosen|
    ensures IsImage(NodeById(was, chosen[i].nodeId), now[|was| + i], m)
    ensures HasOriginal(was, now[|was| + i], m)
  {
    CopyDeps(NodeById(was, chosen[i].nodeId), now[|was| + i], m, Ids(was) + Elems(given));
  }

  lemma SameNode(nodes: seq<Node>, a: Node, b: Node)
    requires Distinct(nodes) && a in nodes && b in nodes && a.id == b.id
    ensures a == b
  {
    var i :| 0 <= i < |nodes| && nodes[i] == a;
    var j :| 0 <= j < |nodes| && nodes[j] == b;
  }

  lemma CopyKeys(was: seq<Node>, now: seq<Node>, chosen: seq<Entry>, clean: Id -> Id, given: seq<Id>, m: map<Id, Id>)
    requires CopiedInto(was, now, chosen, clean, given, m)
    ensures m.Keys <= Ids(was) && m.Values !! Ids(was) && Injective(m)
    ensures forall x :: x in m ==> exists i :: 0 <= i < |chosen| && chosen[i].nodeId == x
  {
    IdMapFresh(EntryIds(chosen), Requested(chosen, clean), Ids(was), given);
    IdMapKeys(EntryIds(chosen), given);
    forall x | x in m ensures exists i :: 0 <= i < |chosen| && chosen[i].nodeId == x {
      var i :| 0 <= i < |chosen| && EntryIds(chosen)[i] == x;
      assert chosen[i].nodeId == x;
    }
  }

  lemma PrefixMembers(was: seq<Node>, now: seq<Node>)
    requires |was| <= |now| && now[..|was|] == was
    ensures forall n :: n in was ==> n in now
    ensures forall n :: n in now ==> n in was || exists i :: |was| <= i < |now| && now[i] == n
  {
    forall n | n in was ensures n in now {
      var k :| 0 <= k < |was| && was[k] == n;
      assert now[..|was|][k] == now[k];
    }
    forall n | n in now ensures n in was || exists i :: |was| <= i < |now| && now[i] == n {
      var k :| 0 <= k < |now| && now[k] == n;
      if k < |was| { assert now[..|was|][k] == was[k]; }
    }
  }

  lemma CopyOfEach(was: seq<Node>, now: seq<Node>, chosen: seq<Entry>, clean: Id -> Id, given: seq<Id>, m: map<Id, Id>,
                   s: Node)
    requires CopiedInto(was, now, chosen, clean, given, m) && Distinct(was)
    requires s in was && s.id in m
    ensures HasCopy(now, s, m)
  {
    CopyKeys(was, now, chosen, clean, given, m);
    var i :| 0 <= i < |chosen| && chosen[i].nodeId == s.id;
    CopyAt(was, now, chosen, clean, given, m, i);
    SameNode(was, s, NodeById(was, s.id));
    assert now[|was| + i] in now;
  }

  lemma NewOnesAreCopies(was: seq<Node>, now: seq<Node>, chosen: seq<Entry>, clean: Id -> Id, given: seq<Id>,
                         m: map<Id, Id>)
    requires CopiedInto(was, now, chosen, clean, given, m)
    ensures forall n :: n in now && n !in was ==> HasOriginal(was, n, m)
  {
    PrefixMembers(was, now);
    forall n | n in now && n !in was ensures HasOriginal(was, n, m) {
      var k :| |was| <= k < |now| && now[k] == n;
      var i := k - |was|;
      assert now[|was| + i] == n;
      CopyAt(was, now, chosen, clean, given, m, i);
    }
  }

  lemma ChosenAreKeys(was: seq<Node>, now: seq<Node>, chosen: seq<Entry>, clean: Id -> Id, given: seq<Id>,
                      m: map<Id, Id>)
    requires CopiedInto(was, now, chosen, clean, given, m)
    ensures forall i :: 0 <= i < |chosen| ==> chosen[i].nodeId in m
  {
    forall i | 0 <= i < |chosen| ensures chosen[i].nodeId in m {
      CopyAt(was, now, chosen, clean, given, m, i);
    }
  }

  /** Every copy has a fresh id, no two share one, and the originals stand unchanged before the copies,
      which are the images of what was asked for and nothing else. */
  lemma CopyDoubles(was: seq<Node>, now: seq<Node>, chosen: seq<Entry>, clean: Id -> Id, given: seq<Id>, m: map<Id, Id>)
    requires CopiedInto(was, now, chosen, clean, given, m) && Distinct(was)
    ensures was <= now && Doubled(was, now, m)
    ensures forall x :: x in m <==> exists i :: 0 <= i < |chosen| && chosen[i].nodeId == x
  {
    CopyKeys(was, now, chosen, clean, given, m);
    PrefixMembers(was, now);
    NewOnesAreCopies(was, now, chosen, clean, given, m);
    forall s | s in was && s.id in m ensures HasCopy(now, s, m) {
      CopyOfEach(was, now, chosen, clean, given, m, s);
    }
    ChosenAreKeys(was, now, chosen, clean, given, m);
  }

  /** The i-th copy has the first free one of the ids tried for it, in the order of the requests: the requested
      id, or else the original's with `_copy`, cleaned; that with `_2`, with `_3`, and so on. */
  lemma CopyNamed(was: seq<Node>, now: seq<Node>, chosen: seq<Entry>, clean: Id -> Id, given: seq<Id>, m: map<Id, Id>,
                  i: nat)
    requires CopiedInto(was, now, chosen, clean, given, m) && i < |chosen|
    ensures now[|was| + i].id == given[i]
    ensures var base := clean(match chosen[i].newId case "" => chosen[i].nodeId + "_copy" case id => id);
            var taken := Ids(was) + Elems(given[..i]);
            || (given[i] == base && base !in taken)
            || (base in taken && exists k: nat :: 2 <= k && given[i] == Numbered(base, k) && given[i] !in taken
                                                  && forall j: nat :: 2 <= j < k ==> Numbered(base, j) in taken)
  {
    CopyAt(was, now, chosen, clean, given, m, i);
    CopyIdAt(chosen, given, m, i);
    GivenTried(chosen, clean, Ids(was), given, i);
  }

  lemma CopyIdAt(chosen: seq<Entry>, given: seq<Id>, m: map<Id, Id>, i: nat)
    requires |given| == |chosen| && i < |chosen| && m == IdMap(EntryIds(chosen), given)
    requires forall i, j :: 0 <= i < j < |chosen| ==> chosen[i].nodeId != chosen[j].nodeId
    ensures chosen[i].nodeId in m && m[chosen[i].nodeId] == given[i]
  {
    assert forall k :: 0 <= k < |chosen| ==> EntryIds(chosen)[k] == chosen[k].nodeId;
    IdMapAt(EntryIds(chosen), given, i);
  }

  lemma GivenTried(chosen: seq<Entry>, clean: Id -> Id, occupied: set<Id>, given: seq<Id>, i: nat)
    requires GivenOut(Requested(chosen, clean), occupied, given) && i < |chosen|
    ensures |given| == |chosen|
    ensures var base := clean(match chosen[i].newId case "" => chosen[i].nodeId + "_copy" case id => id);
            var taken := occupied + Elems(given[..i]);
            || (given[i] == base && base !in taken)
            || (base in taken && exists k: nat :: 2 <= k && given[i] == Numbered(base, k) && given[i] !in taken
                                                  && forall j: nat :: 2 <= j < k ==> Numbered(base, j) in taken)
  {
    var base := Requested(chosen, clean)[i];
    assert base == clean(match chosen[i].newId case "" => chosen[i].nodeId + "_copy" case id => id);
    TriedInOrder(base, occupied + Elems(given[..i]), given[i]);
  }

  lemma OriginalOfImage(was: seq<Node>, n: Node, m: map<Id, Id>)
    requires HasOriginal(was, n, m)
    ensures n.id in m.Values
  {
  }

  lemma ImageListed(was: seq<Node>, now: seq<Node>, m: map<Id, Id>, x: Id)
    requires Doubled(was, now, m) && x in m
    ensures m[x] in Ids(now)
  {
    var s :| s in was && s.id == x;
    assert HasCopy(now, s, m);
  }

  lemma CopyIds(was: seq<Node>, now: seq<Node>, m: map<Id, Id>)
    requires Doubled(was, now, m)
    ensures Ids(now) == Ids(was) + m.Values
  {
    forall n | n in now ensures n.id in Ids(was) + m.Values {
      if n !in was { OriginalOfImage(was, n, m); }
    }
    forall x | x in m ensures m[x] in Ids(now) { ImageListed(was, now, m, x); }
  }

  /** `s` waits for `o`, or names the id, free so far, that a copy receives. */
  ghost predicate Mentions(was: seq<Node>, m: map<Id, Id>, o: Id, s: Id) {
    Depends(was, o, s) || (o in m.Values && Names(was, s, o))
  }

  /** Originals keep exactly their dependencies, and begin to wait for copies whose ids they already named. */
  lemma OriginalsKeepDeps(was: seq<Node>, now: seq<Node>, m: map<Id, Id>, d: Id, t: Id)
    requires Doubled(was, now, m) && t in Ids(was)
    ensures Depends(now, d, t) <==> Mentions(was, m, d, t)
    ensures WellFormed(was) ==> (Depends(now, d, t) <==> Depends(was, d, t))
  {
    CopyIds(was, now, m);
    if Depends(now, d, t) {
      var n :| n in now && n.id == t && d in DepIds(n);
      if n !in was { OriginalOfImage(was, n, m); }
      assert Names(was, t, d);
    }
    if Names(was, t, d) {
      var n :| n in was && n.id == t && d in DepIds(n);
      assert n in now;
    }
    if d in m.Values && Mentions(was, m, d, t) { assert d != t; }
  }

  lemma CopyNames(was: seq<Node>, now: seq<Node>, m: map<Id, Id>, d: Id, s: Id)
    requires Doubled(was, now, m) && Distinct(was) && s in m
    ensures Names(now, m[s], d) <==> exists o :: Names(was, s, o) && d == Image(m, o)
  {
    assert m[s] in m.Values;
    if Names(now, m[s], d) {
      var c :| c in now && c.id == m[s] && d in DepIds(c);
      assert c !in was by { assert m[s] !in Ids(was); }
      var n :| n in was && IsImage(n, c, m);
      var o :| o in DepIds(n) && d == Image(m, o);
      assert Names(was, s, o);
    }
    if o :| Names(was, s, o) && d == Image(m, o) {
      var n :| n in was && n.id == s && o in DepIds(n);
      assert HasCopy(now, n, m);
      var c :| c in now && IsImage(n, c, m);
      assert d in DepIds(c);
    }
  }

  /** A copy waits for exactly the images of what its original waited for or mentioned. */
  lemma CopiesDepend(was: seq<Node>, now: seq<Node>, m: map<Id, Id>, d: Id, s: Id)
    requires Doubled(was, now, m) && Distinct(was) && s in m
    ensures Depends(now, d, m[s]) <==> d != m[s] && exists o :: Mentions(was, m, o, s) && d == Image(m, o)
  {
    CopyIds(was, now, m);
    CopyNames(was, now, m, d, s);
    if Depends(now, d, m[s]) {
      var o :| Names(was, s, o) && d == Image(m, o);
      assert o != s && (o in Ids(was) || o in m.Values);
      assert Mentions(was, m, o, s);
    }
    if d != m[s] {
      if o :| Mentions(was, m, o, s) && d == Image(m, o) {
        assert Names(was, s, o);
        ImageKnown(was, m, o);
      }
    }
  }

  lemma ImageKnown(was: seq<Node>, m: map<Id, Id>, o: Id)
    requires o in Ids(was) + m.Values
    ensures Image(m, o) in Ids(was) + m.Values
  {
  }

  lemma BackSelf(was: seq<Node>, m: map<Id, Id>, v: Id)
    requires v in Ids(was) && m.Values !! Ids(was)
    ensures Back(m, v) == v
  {
    assert forall x :: x in m ==> m[x] in m.Values;
  }

  lemma BackImage(m: map<Id, Id>, x: Id)
    requires x in m && Injective(m)
    ensures Back(m, m[x]) == x
  {
  }

  // ---- When copying keeps a workflow acyclic ----

  /** The old graph, with each mention of the id that the copy of `x` receives counted as a mention of `x`. */
  ghost function Widened(was: seq<Node>, m: map<Id, Id>): Adjacency {
    map x | x in Ids(was) ::
      set t | t in Ids(was) && t != x && (Names(was, t, x) || (x in m && Names(was, t, m[x])))
  }

  lemma CopyEdgeBack(was: seq<Node>, now: seq<Node>, m: map<Id, Id>, h: Adjacency, u: Id, v: Id)
    requires Doubled(was, now, m) && Distinct(was) && IsAdjacency(now, h) && Edge(h, u, v)
    ensures Edge(Widened(was, m), Back(m, u), Back(m, v)) || (v in m && u == m[v])
  {
    CopyIds(was, now, m);
    AdjacencyNodes(now, h);
    assert Depends(now, u, v) && v in Nodes(h);
    if v in Ids(was) {
      OriginalsKeepDeps(was, now, m, u, v);
      BackSelf(was, m, v);
      MentionBack(was, m, u, v);
    } else {
      var s :| s in m && m[s] == v;
      BackImage(m, s);
      CopiesDepend(was, now, m, u, s);
      var o :| Mentions(was, m, o, s) && u == Image(m, o);
      MentionBack(was, m, o, s);
      if o in m { BackImage(m, o); BackSelf(was, m, o); }
    }
  }

  lemma MentionBack(was: seq<Node>, m: map<Id, Id>, o: Id, s: Id)
    requires Injective(m) && m.Keys <= Ids(was) && m.Values !! Ids(was)
    requires Mentions(was, m, o, s) && s in Ids(was)
    ensures Edge(Widened(was, m), Back(m, o), s) || (s in m && o == m[s])
  {
    if o in m.Values {
      var x :| x in m && m[x] == o;
      BackImage(m, x);
    } else {
      BackSelf(was, m, o);
    }
  }

  lemma WidenedAcyclic(was: seq<Node>, now: seq<Node>, m: map<Id, Id>, h: Adjacency)
    requires Doubled(was, now, m) && Distinct(was) && IsAdjacency(now, h) && Acyclic(Widened(was, m))
    ensures Acyclic(h)
  {
    var g := Widened(was, m);
    var r := (u: Id, v: Id) => Precedes(g, Back(m, u), Back(m, v)) || (v in m && u == m[v]);
    forall u, v | Edge(h, u, v) ensures r(u, v) {
      CopyEdgeBack(was, now, m, h, u, v);
      if Edge(g, Back(m, u), Back(m, v)) { LeadsEdge(g, Back(m, u), Back(m, v)); }
    }
    forall a, b, c | r(a, b) && r(b, c) ensures r(a, c) { BackTransitive(was, m, g, a, b, c); }
    forall v ensures !Precedes(h, v, v) {
      if Precedes(h, v, v) {
        PrecedesWithin(h, r, v, v);
        assert false;
      }
    }
  }

  lemma BackTransitive(was: seq<Node>, m: map<Id, Id>, g: Adjacency, a: Id, b: Id, c: Id)
    requires Injective(m) && m.Keys <= Ids(was) && m.Values !! Ids(was)
    requires Precedes(g, Back(m, a), Back(m, b)) || (b in m && a == m[b])
    requires Precedes(g, Back(m, b), Back(m, c)) || (c in m && b == m[c])
    ensures Precedes(g, Back(m, a), Back(m, c))
  {
    if b in m && a == m[b] { BackImage(m, b); BackSelf(was, m, b); }
    if c in m && b == m[c] { BackImage(m, c); BackSelf(was, m, c); assert b in m.Values; }
    if Precedes(g, Back(m, a), Back(m, b)) && Precedes(g, Back(m, b), Back(m, c)) {
      PrecedesTrans(g, Back(m, a), Back(m, b), Back(m, c));
    }
  }

  /** One edge of the widened graph, as edges after the copying: between the originals, or from the copy. */
  lemma WidenedEdge(was: seq<Node>, now: seq<Node>, m: map<Id, Id>, h: Adjacency, x: Id, t: Id)
    requires Doubled(was, now, m) && Distinct(was) && IsAdjacency(now, h) && Edge(Widened(was, m), x, t)
    ensures Edge(h, x, t) || (x in m && Edge(h, m[x], t))
    ensures t in m ==> Edge(h, Image(m, x), m[t])
  {
    if x in m { assert m[x] in m.Values; }
    var o := if Names(was, t, x) then x else m[x];
    assert Mentions(was, m, o, t) && Image(m, o) == Image(m, x);
    OriginalsKeepDeps(was, now, m, o, t);
    assert Depends(now, o, t);
    if t in m {
      assert Image(m, x) != m[t] by { assert m[t] in m.Values; }
      CopiesDepend(was, now, m, Image(m, o), t);
      assert Depends(now, Image(m, x), m[t]);
    }
  }

  /** From a node that is not copied, whatever the widened graph reaches is reached after the copying,
      and so is its copy. */
  lemma {:induction false} WalkFromUncopied(was: seq<Node>, now: seq<Node>, m: map<Id, Id>, h: Adjacency, p: seq<Id>)
    requires Doubled(was, now, m) && Distinct(was) && IsAdjacency(now, h)
    requires IsWalk(Widened(was, m), p) && |p| > 1 && p[0] !in m
    ensures Precedes(h, p[0], p[|p| - 1]) && Precedes(h, p[0], Image(m, p[|p| - 1]))
  {
    var x, t := p[|p| - 2], p[|p| - 1];
    assert Edge(Widened(was, m), x, t);
    WidenedEdge(was, now, m, h, x, t);
    if |p| == 2 {
      LeadsEdge(h, x, t);
      if t in m { LeadsEdge(h, x, m[t]); }
    } else {
      var q := p[..|p| - 1];
      assert IsWalk(Widened(was, m), q) by {
        forall i | 0 <= i < |q| - 1 ensures Edge(Widened(was, m), q[i], q[i + 1]) {
          assert Edge(Widened(was, m), p[i], p[i + 1]);
        }
      }
      WalkFromUncopied(was, now, m, h, q);
      StepOn(h, p[0], x, Image(m, x), t);
      if t in m { StepOn(h, p[0], x, Image(m, x), m[t]); }
    }
  }

  lemma StepOn(h: Adjacency, a: Id, x: Id, y: Id, t: Id)
    requires Precedes(h, a, x) && Precedes(h, a, y) && (Edge(h, x, t) || Edge(h, y, t))
    ensures Precedes(h, a, t)
  {
    if Edge(h, x, t) { LeadsEdge(h, x, t); PrecedesTrans(h, a, x, t); }
    else { LeadsEdge(h, y, t); PrecedesTrans(h, a, y, t); }
  }

  /** Two ordered nodes have ordered copies, or a node that is not copied stands between them. */
  ghost predicate CopiedOrSplit(g: Adjacency, h: Adjacency, m: map<Id, Id>, x: Id, y: Id) {
    && Precedes(g, x, y)
    && ((x in m && y in m && Precedes(h, m[x], m[y])) || exists v :: v !in m && Leads(g, x, v) && Leads(g, v, y))
  }

  lemma SplitTransitive(g: Adjacency, h: Adjacency, m: map<Id, Id>, x: Id, y: Id, z: Id)
    requires CopiedOrSplit(g, h, m, x, y) && CopiedOrSplit(g, h, m, y, z)
    ensures CopiedOrSplit(g, h, m, x, z)
  {
    PrecedesTrans(g, x, y, z);
    LeadsSplit(g, x, y);
    LeadsSplit(g, y, z);
    if v :| v !in m && Leads(g, x, v) && Leads(g, v, y) {
      LeadsTrans(g, v, y, z);
    } else if v :| v !in m && Leads(g, y, v) && Leads(g, v, z) {
      LeadsTrans(g, x, y, v);
    } else {
      PrecedesTrans(h, m[x], m[y], m[z]);
    }
  }

  lemma SplitEdge(was: seq<Node>, now: seq<Node>, m: map<Id, Id>, h: Adjacency, x: Id, t: Id)
    requires Doubled(was, now, m) && Distinct(was) && IsAdjacency(now, h) && Edge(Widened(was, m), x, t)
    ensures CopiedOrSplit(Widened(was, m), h, m, x, t)
  {
    var g := Widened(was, m);
    WidenedEdge(was, now, m, h, x, t);
    LeadsEdge(g, x, t);
    LeadsRefl(g, x);
    LeadsRefl(g, t);
    if x in m && t in m { LeadsEdge(h, m[x], m[t]); }
  }

  lemma WidenedCycle(was: seq<Node>, now: seq<Node>, m: map<Id, Id>, h: Adjacency, c: Id)
    requires Doubled(was, now, m) && Distinct(was) && IsAdjacency(now, h) && Precedes(Widened(was, m), c, c)
    ensures !Acyclic(h)
  {
    var g := Widened(was, m);
    var r := (x: Id, y: Id) => CopiedOrSplit(g, h, m, x, y);
    forall x, t | Edge(g, x, t) ensures r(x, t) { SplitEdge(was, now, m, h, x, t); }
    forall x, y, z | r(x, y) && r(y, z) ensures r(x, z) { SplitTransitive(g, h, m, x, y, z); }
    PrecedesWithin(g, r, c, c);
    if v :| v !in m && Leads(g, c, v) && Leads(g, v, c) { UncopiedCycle(was, now, m, h, c, v); }
  }

  lemma UncopiedCycle(was: seq<Node>, now: seq<Node>, m: map<Id, Id>, h: Adjacency, c: Id, v: Id)
    requires Doubled(was, now, m) && Distinct(was) && IsAdjacency(now, h) && Precedes(Widened(was, m), c, c)
    requires v !in m && Leads(Widened(was, m), c, v) && Leads(Widened(was, m), v, c)
    ensures !Acyclic(h)
  {
    var g := Widened(was, m);
    LeadsSplit(g, c, v);
    LeadsTrans(g, v, c, v);
    var p :| IsWalk(g, p) && |p| > 1 && p[0] == v && p[|p| - 1] == v;
    WalkFromUncopied(was, now, m, h, p);
  }

  /** Copying leaves an acyclic workflow exactly when the old graph is acyclic once each mention of an id
      that a copy receives counts as a mention of its original. */
  lemma CopyAcyclicExactly(was: seq<Node>, now: seq<Node>, chosen: seq<Entry>, clean: Id -> Id, given: seq<Id>,
                           m: map<Id, Id>, h: Adjacency)
    requires CopiedInto(was, now, chosen, clean, given, m) && Distinct(was) && IsAdjacency(now, h)
    ensures Acyclic(h) <==> Acyclic(Widened(was, m))
  {
    CopyDoubles(was, now, chosen, clean, given, m);
    if Acyclic(Widened(was, m)) {
      WidenedAcyclic(was, now, m, h);
    } else {
      var c :| Precedes(Widened(was, m), c, c);
      WidenedCycle(was, now, m, h, c);
    }
  }

  /** So copying keeps a well-formed acyclic workflow acyclic: it names no free id. */
  lemma CopyAcyclic(was: seq<Node>, now: seq<Node>, chosen: seq<Entry>, clean: Id -> Id, given: seq<Id>,
                    m: map<Id, Id>, g: Adjacency, h: Adjacency)
    requires CopiedInto(was, now, chosen, clean, given, m) && WellFormed(was)
    requires IsAdjacency(was, g) && IsAdjacency(now, h) && Acyclic(g)
    ensures Acyclic(h)
  {
    CopyAcyclicExactly(was, now, chosen, clean, given, m, h);
    CopyKeys(was, now, chosen, clean, given, m);
    var same := (v: Id) => v;
    forall x, t | Edge(Widened(was, m), x, t) ensures Edge(g, same(x), same(t)) {
      if x in m { assert m[x] in m.Values; }
      assert Depends(was, x, t);
    }
    AcyclicByImage(Widened(was, m), g, same);
  }

  /** Without closedness that fails: `a` already names the id the copy of `b` receives. */
  lemma DanglingMentionMakesCycle(was: seq<Node>, now: seq<Node>, clean: Id -> Id, given: seq<Id>, m: map<Id, Id>,
                                  h: Adjacency, newId: Id)
    requires was == [Plain("a", [newId], []), Plain("b", ["a"], [])]
    requires CopiedInto(was, now, [Entry("b", "")], clean, given, m) && "b" in m && m["b"] == newId
    requires IsAdjacency(now, h)
    ensures !Acyclic(h)
  {
    var chosen := [Entry("b", "")];
    CopyKeys(was, now, chosen, clean, given, m);
    CopyAt(was, now, chosen, clean, given, m, 0);
    assert NodeById(was, "b") == was[1];
    assert now[..2][0] == now[0] && now[0] in now && now[2] in now;
    assert now[0] == was[0] && now[2].id == newId;
    assert DepIds(was[0]) == {newId} && DepIds(was[1]) == {"a"} && "a" !in m;
    assert Image(m, "a") in DepIds(now[2]);
    assert was[0].id in Ids(was) && newId in m.Values;
    assert Depends(now, "a", newId) && Depends(now, newId, "a");
    LeadsEdge(h, "a", newId);
    LeadsEdge(h, newId, "a");
    PrecedesTrans(h, "a", newId, "a");
  }

  // ---- Inside copied zones ----

  /** Every id a step's own text reaches one scope up. */
  function OwnParents(n: Node): set<Id> {
    ParentIds(n.refs) + ParentIds(n.bestTex) + ParentIds(n.outputs) + ParentIds(n.updates) + ParentIds(n.rounds)
    + ParentIds(n.condition)
  }

  /** Every id a body's text reaches one scope up, at any depth. */
  function DeepParents(body: seq<Node>): set<Id> {
    if body == [] then {} else OwnParents(body[0]) + DeepParents(body[0].body) + DeepParents(body[1..])
  }

  lemma ParentsUntouched(refs: seq<Ref>, m: map<Id, Id>)
    requires forall x :: x in m ==> m[x] != x
    ensures CopiedRefs(refs, m, false) == refs <==> ParentIds(refs) !! m.Keys
  {
    var out := CopiedRefs(refs, m, false);
    if out == refs {
      forall id | id in ParentIds(refs) ensures id !in m {
        var r :| r in refs && r.ParentRef? && r.id == id;
        var i :| 0 <= i < |refs| && refs[i] == r;
        assert out[i] == refs[i];
      }
    }
    if ParentIds(refs) !! m.Keys {
      forall i | 0 <= i < |refs| ensures out[i] == refs[i] {
        assert refs[i] in refs;
        if refs[i].ParentRef? { assert refs[i].id in ParentIds(refs); }
      }
    }
  }

  lemma OwnTextUntouched(n: Node, m: map<Id, Id>)
    requires forall x :: x in m ==> m[x] != x
    ensures CopiedBodyNode(n, m).(body := n.body) == n <==> OwnParents(n) !! m.Keys
  {
    ParentsUntouched(n.refs, m);
    ParentsUntouched(n.bestTex, m);
    ParentsUntouched(n.outputs, m);
    ParentsUntouched(n.updates, m);
    ParentsUntouched(n.rounds, m);
    ParentsUntouched(n.condition, m);
  }

  /** The copied body is word for word the old one exactly when no parent reference in it, at any depth,
      names a copied id. */
  lemma {:induction false} BodyUntouched(body: seq<Node>, m: map<Id, Id>)
    requires forall x :: x in m ==> m[x] != x
    ensures CopiedBody(body, m) == body <==> DeepParents(body) !! m.Keys
    decreases body
  {
    if body != [] {
      var n := body[0];
      OwnTextUntouched(n, m);
      BodyUntouched(n.body, m);
      BodyUntouched(body[1..], m);
      assert body == [n] + body[1..];
      assert CopiedBody(body, m)[0] == CopiedBodyNode(n, m) && CopiedBody(body, m)[1..] == CopiedBody(body[1..], m);
      var c := CopiedBodyNode(n, m);
      assert c == n <==> c.(body := n.body) == n && CopiedBody(n.body, m) == n.body;
    }
  }

  /** What the copying should make of a step in a copied zone's body: its own parent references mean
      top-level nodes and follow the copies, while those in a nested zone's text mean steps of this body
      and stay. A zone's condition, outputs, updates and body are text inside it; so is its `best_tex`,
      which is evaluated beside it as well and keeps both meanings only if it stays. */
  function MeantStep(n: Node, m: map<Id, Id>): Node {
    n.(refs := CopiedRefs(n.refs, m, false), rounds := CopiedRefs(n.rounds, m, false),
       bestTex := if n.repeat then n.bestTex else CopiedRefs(n.bestTex, m, false))
  }

  /** The parent references in the text inside a step, at any depth. */
  function InsideParents(n: Node): set<Id> {
    ParentIds(n.condition) + ParentIds(n.outputs) + ParentIds(n.updates) + DeepParents(n.body)
    + if n.repeat then ParentIds(n.bestTex) else {}
  }

  lemma StepMeant(n: Node, m: map<Id, Id>)
    requires forall x :: x in m ==> m[x] != x
    ensures CopiedBodyNode(n, m) == MeantStep(n, m) <==> InsideParents(n) !! m.Keys
  {
    ParentsUntouched(n.condition, m);
    ParentsUntouched(n.outputs, m);
    ParentsUntouched(n.updates, m);
    ParentsUntouched(n.bestTex, m);
    BodyUntouched(n.body, m);
  }

  lemma {:induction false} CopiedBodyAt(body: seq<Node>, m: map<Id, Id>, i: nat)
    requires i < |body|
    ensures CopiedBody(body, m)[i] == CopiedBodyNode(body[i], m)
  {
    if i > 0 { CopiedBodyAt(body[1..], m, i - 1); }
  }

  lemma CopiedParents(refs: seq<Ref>, m: map<Id, Id>)
    ensures ParentIds(CopiedRefs(refs, m, false)) == set d | d in ParentIds(refs) :: Image(m, d)
  {
    var out := CopiedRefs(refs, m, false);
    forall v | v in ParentIds(out) ensures exists d :: d in ParentIds(refs) && v == Image(m, d) {
      var r :| r in out && r.ParentRef? && r.id == v;
      var i :| 0 <= i < |refs| && out[i] == r;
      assert refs[i] in refs && refs[i].ParentRef? && refs[i].id in ParentIds(refs);
    }
    forall d | d in ParentIds(refs) ensures Image(m, d) in ParentIds(out) {
      var r :| r in refs && r.ParentRef? && r.id == d;
      var i :| 0 <= i < |refs| && refs[i] == r;
      assert out[i] in out && out[i] == ParentRef(Image(m, d), r.path);
    }
  }

  lemma ZoneCopyAt(n: Node, out: Node, m: map<Id, Id>, known: set<Id>, i: nat)
    requires IsCopy(n, out, m, known) && n.repeat && i < |n.body|
    ensures |out.body| == |n.body| && out.outputs == CopiedRefs(n.outputs, m, true)
    ensures out.body[i] == CopiedBodyNode(n.body[i], m).(needs := out.body[i].needs)
  {
    var base := CopyOf(n, m);
    assert BodySynced(base.body, out.body);
    assert StepSynced(base.body[i], out.body[i], Ids(base.body));
    CopiedBodyAt(n.body, m, i);
  }

  /** In a copied zone the parent references of each body step name exactly the images of the top-level
      nodes it named, and the text inside a nested zone stays as it was, meaning the same body steps,
      exactly when it has no parent reference, at any depth, to an id that was copied. */
  lemma CopiedStepMeant(n: Node, out: Node, m: map<Id, Id>, known: set<Id>, i: nat)
    requires IsCopy(n, out, m, known) && n.repeat && i < |n.body| && forall x :: x in m ==> m[x] != x
    ensures |out.body| == |n.body|
    ensures ParentIds(out.body[i].refs) == set d | d in ParentIds(n.body[i].refs) :: Image(m, d)
    ensures out.body[i] == MeantStep(n.body[i], m).(needs := out.body[i].needs) <==> InsideParents(n.body[i]) !! m.Keys
    ensures out.body[i].body == n.body[i].body <==> DeepParents(n.body[i].body) !! m.Keys
  {
    ZoneCopyAt(n, out, m, known, i);
    CopiedParents(n.body[i].refs, m);
    StepMeant(n.body[i], m);
    BodyUntouched(n.body[i].body, m);
    var c, s := CopiedBodyNode(n.body[i], m), MeantStep(n.body[i], m);
    assert c.needs == s.needs == n.body[i].needs;
    assert c.(needs := out.body[i].needs) == s.(needs := out.body[i].needs) <==> c == s;
  }

  lemma LocalRefsStay(refs: seq<Ref>, m: map<Id, Id>)
    requires forall x :: x in m ==> m[x] != x
    ensures CopiedRefs(refs, m, true) == CopiedRefs(refs, m, false) <==> NodeIds(refs) !! m.Keys
  {
    if CopiedRefs(refs, m, true) == CopiedRefs(refs, m, false) {
      forall id | id in NodeIds(refs) ensures id !in m {
        var r :| r in refs && r.NodeRef? && r.id == id;
        var i :| 0 <= i < |refs| && refs[i] == r;
        assert CopiedRefs(refs, m, true)[i] == CopiedRefs(refs, m, false)[i];
      }
    }
    if NodeIds(refs) !! m.Keys {
      forall i | 0 <= i < |refs| ensures CopiedRefs(refs, m, true)[i] == CopiedRefs(refs, m, false)[i] {
        assert refs[i] in refs;
        if refs[i].NodeRef? { assert refs[i].id in NodeIds(refs); }
      }
    }
  }

  /** A copied zone's outputs, and its `best_tex` after every round, are evaluated inside its body, but copied
      as if they stood at the top level: each keeps naming the same body steps exactly when it names no id
      that was copied. */
  lemma ZoneOutputsMeant(n: Node, out: Node, m: map<Id, Id>, known: set<Id>)
    requires IsCopy(n, out, m, known) && n.repeat && forall x :: x in m ==> m[x] != x
    ensures out.outputs == CopiedRefs(n.outputs, m, false) <==> NodeIds(n.outputs) !! m.Keys
    ensures out.bestTex == CopiedRefs(n.bestTex, m, false) <==> NodeIds(n.bestTex) !! m.Keys
  {
    LocalRefsStay(n.outputs, m);
    LocalRefsStay(n.bestTex, m);
  }

  /** The capture: the zone's body holds a step `x` and a nested zone `n` whose step `y` reads
      `$parent.node.x.out`; a top-level node that is also called `x` is copied along with the zone. The
      copied `y` reads the copy's id, which no step of the copied body has. */
  lemma NestedParentCaptured(m: map<Id, Id>, x: Node, n: Node, y: Node)
    requires y == Plain(y.id, [], [ParentRef(x.id, ["out"])]) && n == Zone(n.id, [], [y])
    requires x.id in m && m[x.id] != x.id && m[x.id] != n.id
    ensures var body := CopiedBody([x, n], m);
            && |body| == 2 && |body[1].body| == 1
            && body[1].body[0].refs == [ParentRef(m[x.id], ["out"])] && m[x.id] !in Ids(body)
  {
    var body := CopiedBody([x, n], m);
    CopiedBodyAt([x, n], m, 0);
    CopiedBodyAt([x, n], m, 1);
    CopiedBodyAt([y], m, 0);
    assert body[1].body == CopiedBody([y], m);
  }

  // ---- Which copied nodes the copies still name ----

  /** The top-level ids that text names by hidden references. */
  function HiddenIds(refs: seq<Ref>, depth: nat): set<Id> {
    set r | r in refs && r.HiddenRef? && r.up == depth :: r.id
  }

  function HiddenNames(n: Node, depth: nat): set<Id>
    decreases n
  {
    HiddenIds(n.refs, depth) + HiddenIds(n.bestTex, depth) + HiddenIds(n.rounds, depth)
    + (if n.repeat then HiddenIds(n.bestTex, depth + 1) else {})
    + HiddenIds(n.condition, depth + 1) + HiddenIds(n.outputs, depth + 1) + HiddenIds(n.updates, depth + 1)
    + HiddenBody(n.body, depth + 1)
  }

  function HiddenBody(body: seq<Node>, depth: nat): set<Id>
    decreases body
  {
    if body == [] then {} else HiddenNames(body[0], depth) + HiddenBody(body[1..], depth)
  }

  /** What a copy's text names as its original did: in its own `max_iterations` and condition, and hidden. */
  function CopyLeft(n: Node): set<Id> {
    HiddenNames(n, 0) + TopIds(n.rounds, 0) + TopIds(n.condition, 1)
  }

  /** Copying takes away the references to copied nodes that it finds, and no hidden ones. */
  lemma CopiedNames(refs: seq<Ref>, m: map<Id, Id>, local: bool, depth: nat)
    requires m.Values !! m.Keys && (local || depth > 0)
    ensures TopIds(CopiedRefs(refs, m, local), depth) * m.Keys == HiddenIds(refs, depth) * m.Keys
  {
    var out := CopiedRefs(refs, m, local);
    assert forall x :: x in m ==> m[x] in m.Values;
    forall id | id in TopIds(out, depth) && id in m ensures id in HiddenIds(refs, depth) {
      var r :| r in out && Means(r, depth) && r.id == id;
      var i :| 0 <= i < |out| && out[i] == r;
      assert refs[i] in refs && out[i] == CopiedRef(refs[i], m, local);
    }
    forall id | id in HiddenIds(refs, depth) && id in m ensures id in TopIds(out, depth) {
      var r :| r in refs && r.HiddenRef? && r.up == depth && r.id == id;
      var i :| 0 <= i < |refs| && refs[i] == r;
      assert out[i] == r && out[i] in out && Means(r, depth);
    }
  }

  lemma {:induction false} CopiedStepNames(n: Node, m: map<Id, Id>, depth: nat)
    requires m.Values !! m.Keys && depth > 0
    ensures TextNames(CopiedBodyNode(n, m), depth) * m.Keys == HiddenNames(n, depth) * m.Keys
    decreases n
  {
    var c := CopiedBodyNode(n, m);
    CopiedNames(n.refs, m, false, depth);
    CopiedNames(n.bestTex, m, false, depth);
    CopiedNames(n.rounds, m, false, depth);
    CopiedNames(n.bestTex, m, false, depth + 1);
    CopiedNames(n.condition, m, false, depth + 1);
    CopiedNames(n.outputs, m, false, depth + 1);
    CopiedNames(n.updates, m, false, depth + 1);
    CopiedBodyNames(n.body, m, depth + 1);
    NamesTogether(c, n, depth, m.Keys);
  }

  /** Text by text the same names within `keys`, so altogether. */
  lemma NamesTogether(c: Node, n: Node, depth: nat, keys: set<Id>)
    requires c.repeat == n.repeat
    requires TopIds(c.refs, depth) * keys == HiddenIds(n.refs, depth) * keys
    requires TopIds(c.bestTex, depth) * keys == HiddenIds(n.bestTex, depth) * keys
    requires TopIds(c.rounds, depth) * keys == HiddenIds(n.rounds, depth) * keys
    requires TopIds(c.bestTex, depth + 1) * keys == HiddenIds(n.bestTex, depth + 1) * keys
    requires TopIds(c.condition, depth + 1) * keys == HiddenIds(n.condition, depth + 1) * keys
    requires TopIds(c.outputs, depth + 1) * keys == HiddenIds(n.outputs, depth + 1) * keys
    requires TopIds(c.updates, depth + 1) * keys == HiddenIds(n.updates, depth + 1) * keys
    requires BodyNames(c.body, depth + 1) * keys == HiddenBody(n.body, depth + 1) * keys
    ensures TextNames(c, depth) * keys == HiddenNames(n, depth) * keys
  {
    forall x | x in keys ensures x in TextNames(c, depth) <==> x in HiddenNames(n, depth) {
      SameWithinAt(TopIds(c.refs, depth), HiddenIds(n.refs, depth), keys, x);
      SameWithinAt(TopIds(c.bestTex, depth), HiddenIds(n.bestTex, depth), keys, x);
      SameWithinAt(TopIds(c.rounds, depth), HiddenIds(n.rounds, depth), keys, x);
      SameWithinAt(TopIds(c.bestTex, depth + 1), HiddenIds(n.bestTex, depth + 1), keys, x);
      SameWithinAt(TopIds(c.condition, depth + 1), HiddenIds(n.condition, depth + 1), keys, x);
      SameWithinAt(TopIds(c.outputs, depth + 1), HiddenIds(n.outputs, depth + 1), keys, x);
      SameWithinAt(TopIds(c.updates, depth + 1), HiddenIds(n.updates, depth + 1), keys, x);
      SameWithinAt(BodyNames(c.body, depth + 1), HiddenBody(n.body, depth + 1), keys, x);
    }
  }

  lemma {:induction false} CopiedBodyNames(body: seq<Node>, m: map<Id, Id>, depth: nat)
    requires m.Values !! m.Keys && depth > 0
    ensures BodyNames(CopiedBody(body, m), depth) * m.Keys == HiddenBody(body, depth) * m.Keys
    decreases body
  {
    if body != [] {
      CopiedStepNames(body[0], m, depth);
      CopiedBodyNames(body[1..], m, depth);
      var copied := CopiedBody(body, m);
      assert copied[0] == CopiedBodyNode(body[0], m) && copied[1..] == CopiedBody(body[1..], m);
      var a, b := TextNames(copied[0], depth), BodyNames(copied[1..], depth);
      var c, d := HiddenNames(body[0], depth), HiddenBody(body[1..], depth);
      assert (a + b) * m.Keys == a * m.Keys + b * m.Keys && (c + d) * m.Keys == c * m.Keys + d * m.Keys;
    }
  }

  lemma {:induction false} SyncedBodyNames(body: seq<Node>, out: seq<Node>, depth: nat)
    requires |out| == |body| && forall i :: 0 <= i < |body| ==> out[i] == body[i].(needs := out[i].needs)
    ensures BodyNames(out, depth) == BodyNames(body, depth)
  {
    if body != [] {
      assert out[0] == body[0].(needs := out[0].needs);
      assert TextNames(out[0], depth) == TextNames(body[0], depth);
      SyncedBodyNames(body[1..], out[1..], depth);
    }
  }

  /** The texts of a copy. */
  lemma CopyTexts(n: Node, out: Node, m: map<Id, Id>, known: set<Id>)
    requires IsCopy(n, out, m, known)
    ensures out.repeat == n.repeat && out.rounds == n.rounds && out.condition == n.condition
    ensures out.refs == CopiedRefs(n.refs, m, true) && out.bestTex == CopiedRefs(n.bestTex, m, true)
    ensures out.outputs == CopiedRefs(n.outputs, m, true) && out.updates == CopiedRefs(n.updates, m, false)
    ensures BodyNames(out.body, 1) == BodyNames(CopiedBody(n.body, m), 1)
  {
    var base := CopyOf(n, m);
    if n.repeat {
      forall i | 0 <= i < |base.body| ensures out.body[i] == base.body[i].(needs := out.body[i].needs) {
        assert StepSynced(base.body[i], out.body[i], Ids(base.body));
      }
      SyncedBodyNames(base.body, out.body, 1);
    }
  }

  /** The originals, copied along with it, that a copy's text still names when it is evaluated: exactly those
      that its own `max_iterations` and condition named, and hidden references. */
  lemma CopyFollows(n: Node, out: Node, m: map<Id, Id>, known: set<Id>)
    requires IsCopy(n, out, m, known) && m.Values !! m.Keys
    ensures TextNames(out, 0) * m.Keys == CopyLeft(n) * m.Keys
  {
    CopyTexts(n, out, m, known);
    CopiedNames(n.refs, m, true, 0);
    CopiedNames(n.bestTex, m, true, 0);
    CopiedNames(n.bestTex, m, true, 1);
    CopiedNames(n.outputs, m, true, 1);
    CopiedNames(n.updates, m, false, 1);
    CopiedBodyNames(n.body, m, 1);
    OwnTextsLeft(n, out, m.Keys);
  }

  /** The copy's own texts: two stay as they were, the others name by hidden references only. */
  lemma OwnTextsLeft(n: Node, c: Node, keys: set<Id>)
    requires c.repeat == n.repeat && c.rounds == n.rounds && c.condition == n.condition
    requires TopIds(c.refs, 0) * keys == HiddenIds(n.refs, 0) * keys
    requires TopIds(c.bestTex, 0) * keys == HiddenIds(n.bestTex, 0) * keys
    requires TopIds(c.bestTex, 1) * keys == HiddenIds(n.bestTex, 1) * keys
    requires TopIds(c.outputs, 1) * keys == HiddenIds(n.outputs, 1) * keys
    requires TopIds(c.updates, 1) * keys == HiddenIds(n.updates, 1) * keys
    requires BodyNames(c.body, 1) * keys == HiddenBody(n.body, 1) * keys
    ensures TextNames(c, 0) * keys == CopyLeft(n) * keys
  {
    forall x | x in keys ensures x in TextNames(c, 0) <==> x in CopyLeft(n) {
      SameWithinAt(TopIds(c.refs, 0), HiddenIds(n.refs, 0), keys, x);
      SameWithinAt(TopIds(c.bestTex, 0), HiddenIds(n.bestTex, 0), keys, x);
      SameWithinAt(TopIds(c.bestTex, 1), HiddenIds(n.bestTex, 1), keys, x);
      SameWithinAt(TopIds(c.outputs, 1), HiddenIds(n.outputs, 1), keys, x);
      SameWithinAt(TopIds(c.updates, 1), HiddenIds(n.updates, 1), keys, x);
      SameWithinAt(BodyNames(c.body, 1), HiddenBody(n.body, 1), keys, x);
      HiddenAmongTop(n.rounds, 0);
      HiddenAmongTop(n.condition, 1);
    }
  }

  lemma SameWithinAt(a: set<Id>, b: set<Id>, keys: set<Id>, x: Id)
    requires a * keys == b * keys && x in keys
    ensures x in a <==> x in b
  {
    assert x in a <==> x in a * keys;
    assert x in b <==> x in b * keys;
  }

  lemma HiddenAmongTop(refs: seq<Ref>, depth: nat)
    ensures HiddenIds(refs, depth) <= TopIds(refs, depth)
  {
    forall id | id in HiddenIds(refs, depth) ensures id in TopIds(refs, depth) {
      var r :| r in refs && r.HiddenRef? && r.up == depth && r.id == id;
      assert Means(r, depth);
    }
  }

  /** Such an input: `z` and `x` are copied together, and `z`'s condition reads `$parent.node.x`. The copy of
      `z` goes on reading the original `x`. */
  lemma CopiedConditionReadsOriginal(z: Node, out: Node, m: map<Id, Id>, known: set<Id>, x: Id, path: seq<string>)
    requires IsCopy(z, out, m, known) && z.condition == [ParentRef(x, path)] && x in m
    ensures out.condition == z.condition && x in TextNames(out, 0)
  {
    assert out.condition[0] in out.condition && Means(out.condition[0], 1);
    assert x in TopIds(out.condition, 1);
  }
}
