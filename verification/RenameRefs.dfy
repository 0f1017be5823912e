/** Renaming output fields of a component in every reference that reads them, one scope at a time. */
module RenameRefs {
  import opened Wrappers
  import opened Graph
  import opened Sequences

  /** `$node.<id>.<path>`, `$parent.node.<id>.<path>` and `$step.<id>.<path>`. */
  datatype Kind = Local | Parent | OwnStep
  datatype Ref = Ref(kind: Kind, id: Id, path: seq<string>)

  datatype Step = Step(id: Id, name: string)

  /** A node and the references in its text. A repeat zone has a body; its `loopText` (outputs and the
      like) lies outside that body but is evaluated among the body's nodes. */
  datatype Node = Node(id: Id, name: string, steps: seq<Step>, text: seq<Ref>, loopText: seq<Ref>, body: Option<Scope>)

  /** A workflow or a repeat body: its nodes, and the text beside them. */
  datatype Scope = Scope(nodes: seq<Node>, text: seq<Ref>)

  /** Old and new field names, in the order in which they are applied. */
  type Renames = seq<(string, string)>

  // ---- What one pattern substitution does ----

  function Sub(r: Ref, kind: Kind, id: Id, old_: string, new_: string): Ref {
    if r.kind == kind && r.id == id && r.path != [] && r.path[0] == old_ then r.(path := [new_] + r.path[1..]) else r
  }

  function SubText(text: seq<Ref>, kind: Kind, id: Id, old_: string, new_: string): seq<Ref> {
    seq(|text|, i requires 0 <= i < |text| => Sub(text[i], kind, id, old_, new_))
  }

  /** Rewrites a scope's own text and leaves the bodies inside it alone. */
  function SubScope(s: Scope, kind: Kind, id: Id, old_: string, new_: string): Scope {
    Scope(seq(|s.nodes|, i requires 0 <= i < |s.nodes| =>
            s.nodes[i].(text := SubText(s.nodes[i].text, kind, id, old_, new_),
                        loopText := SubText(s.nodes[i].loopText, kind, id, old_, new_))),
          SubText(s.text, kind, id, old_, new_))
  }

  function SubBody(body: Option<Scope>, id: Id, old_: string, new_: string): Option<Scope> {
    if body.None? then None else Some(SubScope(body.value, Parent, id, old_, new_))
  }

  /** Rewrites the parent references in the own text of each child body. */
  function SubChildren(s: Scope, id: Id, old_: string, new_: string): Scope {
    s.(nodes := seq(|s.nodes|, i requires 0 <= i < |s.nodes| =>
                  s.nodes[i].(body := SubBody(s.nodes[i].body, id, old_, new_))))
  }

  function LocalIds(nodes: seq<Node>, component: string): seq<Id> {
    if nodes == [] then []
    else (if nodes[0].name == component then [nodes[0].id] else []) + LocalIds(nodes[1..], component)
  }

  function StepsUsing(steps: seq<Step>, component: string): seq<Id> {
    if steps == [] then []
    else (if steps[0].name == component then [steps[0].id] else []) + StepsUsing(steps[1..], component)
  }

  function StepIds(nodes: seq<Node>, component: string): seq<Id> {
    if nodes == [] then [] else StepsUsing(nodes[0].steps, component) + StepIds(nodes[1..], component)
  }

  // ---- What the whole rename amounts to ----

  /** The renames applied one after another to a field name. */
  function ApplyAll(rs: Renames, field: string): string {
    if rs == [] then field
    else
      var f := ApplyAll(rs[..|rs| - 1], field);
      if f == rs[|rs| - 1].0 then rs[|rs| - 1].1 else f
  }

  function Renamed(r: Ref, rs: Renames): Ref {
    if r.path == [] then r else r.(path := [ApplyAll(rs, r.path[0])] + r.path[1..])
  }

  /** A reference after the rename, when the local, parent and step ids in the three sets are those of
      producers that use the component. */
  function Final(r: Ref, local: set<Id>, parent: set<Id>, step: set<Id>, rs: Renames): Ref {
    if r.id in (match r.kind case Local => local case Parent => parent case OwnStep => step) then Renamed(r, rs) else r
  }

  function FinalText(text: seq<Ref>, local: set<Id>, parent: set<Id>, step: set<Id>, rs: Renames): seq<Ref> {
    seq(|text|, i requires 0 <= i < |text| => Final(text[i], local, parent, step, rs))
  }

  function Rename(s: Scope, parent: set<Id>, component: string, rs: Renames): Scope
    decreases s, 1
  {
    var local, step := Elems(LocalIds(s.nodes, component)), Elems(StepIds(s.nodes, component));
    Scope(RenameNodes(s.nodes, local, parent, step, component, rs), FinalText(s.text, local, parent, step, rs))
  }

  function RenameNodes(nodes: seq<Node>, local: set<Id>, parent: set<Id>, step: set<Id>, component: string,
                       rs: Renames): (out: seq<Node>)
    ensures |out| == |nodes|
    decreases nodes
  {
    if nodes == [] then []
    else [RenameNode(nodes[0], local, parent, step, component, rs)] + RenameNodes(nodes[1..], local, parent, step,
        component, rs)
  }

  function RenameNode(n: Node, local: set<Id>, parent: set<Id>, step: set<Id>, component: string, rs: Renames): Node
    decreases n
  {
    n.(text := FinalText(n.text, local, parent, step, rs),
       loopText := FinalText(n.loopText, local, parent, step, rs),
       body := if n.body.None? then None else Some(Rename(n.body.value, local, component, rs)))
  }

  lemma {:induction false} RenameNodesAt(nodes: seq<Node>, local: set<Id>, parent: set<Id>, step: set<Id>,
                                         component: string,
                                         rs: Renames, k: nat)
    requires k < |nodes|
    ensures RenameNodes(nodes, local, parent, step, component, rs)[k]
            == RenameNode(nodes[k], local, parent, step, component, rs)
  {
    if k > 0 { RenameNodesAt(nodes[1..], local, parent, step, component, rs, k - 1); }
  }

  // ---- How far the loops have come ----

  /** A field name when `i` renames are done and, for this id, perhaps one more. */
  function Partway(r: Ref, ids: set<Id>, more: set<Id>, rs: Renames, i: nat): Ref
    requires i < |rs| || (i == |rs| && more == {})
  {
    if r.id in more then Renamed(r, rs[..i + 1]) else if r.id in ids then Renamed(r, rs[..i]) else r
  }

  function OwnSoFar(r: Ref, local: set<Id>, localMore: set<Id>, step: set<Id>, stepMore: set<Id>, rs: Renames,
                    i: nat): Ref
    requires i < |rs| || (i == |rs| && localMore == stepMore == {})
  {
    match r.kind
    case Local => Partway(r, local, localMore, rs, i)
    case OwnStep => Partway(r, step, stepMore, rs, i)
    case Parent => r
  }

  function OwnText(text: seq<Ref>, local: set<Id>, localMore: set<Id>, step: set<Id>, stepMore: set<Id>, rs: Renames,
                   i: nat): seq<Ref>
    requires i < |rs| || (i == |rs| && localMore == stepMore == {})
  {
    seq(|text|, k requires 0 <= k < |text| => OwnSoFar(text[k], local, localMore, step, stepMore, rs, i))
  }

  function ParentText(text: seq<Ref>, local: set<Id>, localMore: set<Id>, rs: Renames, i: nat): seq<Ref>
    requires i < |rs| || (i == |rs| && localMore == {})
  {
    seq(|text|, k requires 0 <= k < |text| =>
      if text[k].kind == Parent then Partway(text[k], local, localMore, rs, i) else text[k])
  }

  /** A body whose own parent references have been treated. */
  function ParentSoFar(s: Scope, local: set<Id>, localMore: set<Id>, rs: Renames, i: nat): Scope
    requires i < |rs| || (i == |rs| && localMore == {})
  {
    Scope(seq(|s.nodes|, k requires 0 <= k < |s.nodes| =>
            s.nodes[k].(text := ParentText(s.nodes[k].text, local, localMore, rs, i),
                        loopText := ParentText(s.nodes[k].loopText, local, localMore, rs, i))),
          ParentText(s.text, local, localMore, rs, i))
  }

  function BodySoFar(body: Option<Scope>, local: set<Id>, localMore: set<Id>, rs: Renames, i: nat): Option<Scope>
    requires i < |rs| || (i == |rs| && localMore == {})
  {
    if body.None? then None else Some(ParentSoFar(body.value, local, localMore, rs, i))
  }

  function NodeSoFar(n: Node, local: set<Id>, localMore: set<Id>, step: set<Id>, stepMore: set<Id>, rs: Renames,
                     i: nat): Node
    requires i < |rs| || (i == |rs| && localMore == stepMore == {})
  {
    n.(text := OwnText(n.text, local, localMore, step, stepMore, rs, i),
       loopText := OwnText(n.loopText, local, localMore, step, stepMore, rs, i),
       body := BodySoFar(n.body, local, localMore, rs, i))
  }

  function SoFar(s: Scope, local: set<Id>, localMore: set<Id>, step: set<Id>, stepMore: set<Id>, rs: Renames,
                 i: nat): (out: Scope)
    requires i < |rs| || (i == |rs| && localMore == stepMore == {})
    ensures |out.nodes| == |s.nodes|
  {
    Scope(seq(|s.nodes|,
        k requires 0 <= k < |s.nodes| => NodeSoFar(s.nodes[k], local, localMore, step, stepMore, rs, i)),
          OwnText(s.text, local, localMore, step, stepMore, rs, i))
  }

  // ---- Each pass of the loops ----

  lemma ApplySnoc(rs: Renames, i: nat, field: string)
    requires i < |rs|
    ensures ApplyAll(rs[..i + 1], field) ==
            if ApplyAll(rs[..i], field) == rs[i].0 then rs[i].1 else ApplyAll(rs[..i], field)
  {
    assert rs[..i + 1][..i] == rs[..i];
  }

  lemma PassOnRef(r: Ref, ids: set<Id>, more: set<Id>, rs: Renames, i: nat, id: Id)
    requires i < |rs| && rs[i].0 != rs[i].1 && id in ids && more <= ids
    ensures Sub(Partway(r, ids, more, rs, i), r.kind, id, rs[i].0, rs[i].1) == Partway(r, ids, more + {id}, rs, i)
  {
    if r.id == id && r.path != [] { ApplySnoc(rs, i, r.path[0]); }
  }

  lemma PassOnOwnText(text: seq<Ref>, local: set<Id>, localMore: set<Id>, step: set<Id>, stepMore: set<Id>,
                      rs: Renames, i: nat, kind: Kind, id: Id)
    requires i < |rs| && rs[i].0 != rs[i].1 && localMore <= local && stepMore <= step && kind != Parent
    requires id in if kind == Local then local else step
    ensures SubText(OwnText(text, local, localMore, step, stepMore, rs, i), kind, id, rs[i].0, rs[i].1)
            == if kind == Local then OwnText(text, local, localMore + {id}, step, stepMore, rs, i)
               else OwnText(text, local, localMore, step, stepMore + {id}, rs, i)
  {
    forall k | 0 <= k < |text|
      ensures Sub(OwnSoFar(text[k], local, localMore, step, stepMore, rs, i), kind, id, rs[i].0, rs[i].1)
              == if kind == Local then OwnSoFar(text[k], local, localMore + {id}, step, stepMore, rs, i)
                 else OwnSoFar(text[k], local, localMore, step, stepMore + {id}, rs, i)
    {
      if text[k].kind == kind {
        PassOnRef(text[k], if kind == Local then local else step, if kind == Local then localMore
            else stepMore, rs, i, id);
      }
    }
  }

  lemma PassOnParentText(text: seq<Ref>, local: set<Id>, more: set<Id>, rs: Renames, i: nat, id: Id)
    requires i < |rs| && rs[i].0 != rs[i].1 && more <= local && id in local
    ensures SubText(ParentText(text, local, more, rs, i), Parent, id, rs[i].0, rs[i].1)
            == ParentText(text, local, more + {id}, rs, i)
  {
    forall k | 0 <= k < |text|
      ensures SubText(ParentText(text, local, more, rs, i), Parent, id, rs[i].0, rs[i].1)[k]
              == ParentText(text, local, more + {id}, rs, i)[k]
    {
      if text[k].kind == Parent { PassOnRef(text[k], local, more, rs, i, id); }
    }
  }

  lemma PassOnBody(s: Scope, local: set<Id>, more: set<Id>, rs: Renames, i: nat, id: Id)
    requires i < |rs| && rs[i].0 != rs[i].1 && more <= local && id in local
    ensures SubScope(ParentSoFar(s, local, more, rs, i), Parent, id, rs[i].0, rs[i].1)
            == ParentSoFar(s, local, more + {id}, rs, i)
  {
    PassOnParentText(s.text, local, more, rs, i, id);
    forall k | 0 <= k < |s.nodes|
      ensures SubScope(ParentSoFar(s, local, more, rs, i), Parent, id, rs[i].0, rs[i].1).nodes[k]
              == ParentSoFar(s, local, more + {id}, rs, i).nodes[k]
    {
      PassOnParentText(s.nodes[k].text, local, more, rs, i, id);
      PassOnParentText(s.nodes[k].loopText, local, more, rs, i, id);
    }
  }

  lemma LocalPass(s: Scope, local: set<Id>, more: set<Id>, step: set<Id>, rs: Renames, i: nat, id: Id)
    requires i < |rs| && rs[i].0 != rs[i].1 && more <= local && id in local
    ensures SubChildren(SubScope(SoFar(s, local, more, step, {}, rs, i), Local, id, rs[i].0, rs[i].1), id, rs[i].0,
            rs[i].1)
            == SoFar(s, local, more + {id}, step, {}, rs, i)
  {
    PassOnOwnText(s.text, local, more, step, {}, rs, i, Local, id);
    var before := SoFar(s, local, more, step, {}, rs, i);
    var after := SubChildren(SubScope(before, Local, id, rs[i].0, rs[i].1), id, rs[i].0, rs[i].1);
    forall k | 0 <= k < |s.nodes| ensures after.nodes[k] == NodeSoFar(s.nodes[k], local, more + {id}, step, {}, rs, i) {
      PassOnOwnText(s.nodes[k].text, local, more, step, {}, rs, i, Local, id);
      PassOnOwnText(s.nodes[k].loopText, local, more, step, {}, rs, i, Local, id);
      if s.nodes[k].body.Some? { PassOnBody(s.nodes[k].body.value, local, more, rs, i, id); }
    }
  }

  lemma StepPass(s: Scope, local: set<Id>, step: set<Id>, more: set<Id>, rs: Renames, i: nat, id: Id)
    requires i < |rs| && rs[i].0 != rs[i].1 && more <= step && id in step
    ensures SubScope(SoFar(s, local, local, step, more, rs, i), OwnStep, id, rs[i].0, rs[i].1)
            == SoFar(s, local, local, step, more + {id}, rs, i)
  {
    PassOnOwnText(s.text, local, local, step, more, rs, i, OwnStep, id);
    var before := SoFar(s, local, local, step, more, rs, i);
    forall k | 0 <= k < |s.nodes|
      ensures SubScope(before, OwnStep, id, rs[i].0, rs[i].1).nodes[k]
              == NodeSoFar(s.nodes[k], local, local, step, more + {id}, rs, i)
    {
      PassOnOwnText(s.nodes[k].text, local, local, step, more, rs, i, OwnStep, id);
      PassOnOwnText(s.nodes[k].loopText, local, local, step, more, rs, i, OwnStep, id);
    }
  }

  lemma NextRename(s: Scope, local: set<Id>, step: set<Id>, rs: Renames, i: nat)
    requires i < |rs|
    ensures SoFar(s, local, local, step, step, rs, i) == SoFar(s, local, {}, step, {}, rs, i + 1)
  {
    var a, b := SoFar(s, local, local, step, step, rs, i), SoFar(s, local, {}, step, {}, rs, i + 1);
    assert a.text == b.text;
    forall k | 0 <= k < |s.nodes| ensures a.nodes[k] == b.nodes[k] {
      assert a.nodes[k].text == b.nodes[k].text && a.nodes[k].loopText == b.nodes[k].loopText;
      if s.nodes[k].body.Some? {
        var body := s.nodes[k].body.value;
        SameParents(body, local, rs, i);
      }
    }
  }

  lemma SameParents(s: Scope, local: set<Id>, rs: Renames, i: nat)
    requires i < |rs|
    ensures ParentSoFar(s, local, local, rs, i) == ParentSoFar(s, local, {}, rs, i + 1)
  {
    var a, b := ParentSoFar(s, local, local, rs, i), ParentSoFar(s, local, {}, rs, i + 1);
    assert a.text == b.text;
    forall k | 0 <= k < |s.nodes| ensures a.nodes[k] == b.nodes[k] {
      assert a.nodes[k].text == b.nodes[k].text && a.nodes[k].loopText == b.nodes[k].loopText;
    }
  }

  lemma RenamedNone(r: Ref)
    ensures Renamed(r, []) == r
  {
    if r.path != [] { assert [r.path[0]] + r.path[1..] == r.path; }
  }

  lemma NoRenameText(text: seq<Ref>, local: set<Id>, step: set<Id>, rs: Renames)
    ensures OwnText(text, local, {}, step, {}, rs, 0) == text
    ensures ParentText(text, local, {}, rs, 0) == text
  {
    assert rs[..0] == [];
    forall k | 0 <= k < |text|
      ensures OwnText(text, local, {}, step, {}, rs, 0)[k] == text[k]
              && ParentText(text, local, {}, rs, 0)[k] == text[k]
    {
      RenamedNone(text[k]);
    }
  }

  lemma NoParents(s: Scope, local: set<Id>, rs: Renames)
    ensures ParentSoFar(s, local, {}, rs, 0) == s
  {
    NoRenameText(s.text, local, {}, rs);
    forall k | 0 <= k < |s.nodes| ensures ParentSoFar(s, local, {}, rs, 0).nodes[k] == s.nodes[k] {
      NoRenameText(s.nodes[k].text, local, {}, rs);
      NoRenameText(s.nodes[k].loopText, local, {}, rs);
    }
  }

  lemma NoRename(s: Scope, local: set<Id>, step: set<Id>, rs: Renames)
    ensures SoFar(s, local, {}, step, {}, rs, 0) == s
  {
    NoRenameText(s.text, local, step, rs);
    forall k | 0 <= k < |s.nodes| ensures SoFar(s, local, {}, step, {}, rs, 0).nodes[k] == s.nodes[k] {
      NoRenameText(s.nodes[k].text, local, step, rs);
      NoRenameText(s.nodes[k].loopText, local, step, rs);
      if s.nodes[k].body.Some? { NoParents(s.nodes[k].body.value, local, rs); }
    }
  }

  // ---- From one scope to the scopes inside it ----

  lemma {:induction false} SameLocalIds(a: seq<Node>, b: seq<Node>, component: string)
    requires |a| == |b|
    requires forall k :: 0 <= k < |a| ==> a[k].id == b[k].id && a[k].name == b[k].name && a[k].steps == b[k].steps
    ensures LocalIds(a, component) == LocalIds(b, component) && StepIds(a, component) == StepIds(b, component)
  {
    if a != [] { SameLocalIds(a[1..], b[1..], component); }
  }

  /** Treating a body's parent references first and the rest later is the whole rename of the body. */
  lemma ParentsFirst(s: Scope, parent: set<Id>, component: string, rs: Renames)
    ensures Rename(ParentSoFar(s, parent, {}, rs, |rs|), {}, component, rs) == Rename(s, parent, component, rs)
  {
    var half := ParentSoFar(s, parent, {}, rs, |rs|);
    SameLocalIds(s.nodes, half.nodes, component);
    var local, step := Elems(LocalIds(s.nodes, component)), Elems(StepIds(s.nodes, component));
    var a, b := Rename(half, {}, component, rs), Rename(s, parent, component, rs);
    assert rs[..|rs|] == rs;
    FinishText(s.text, local, parent, step, rs);
    forall k | 0 <= k < |s.nodes| ensures a.nodes[k] == b.nodes[k] {
      RenameNodesAt(half.nodes, local, {}, step, component, rs, k);
      RenameNodesAt(s.nodes, local, parent, step, component, rs, k);
      FinishText(s.nodes[k].text, local, parent, step, rs);
      FinishText(s.nodes[k].loopText, local, parent, step, rs);
    }
  }

  lemma FinishText(text: seq<Ref>, local: set<Id>, parent: set<Id>, step: set<Id>, rs: Renames)
    ensures FinalText(ParentText(text, parent, {}, rs, |rs|), local, {}, step, rs)
            == FinalText(text, local, parent, step, rs)
  {
    assert rs[..|rs|] == rs;
  }

  /** When the loops are done, renaming each child body is all that is missing. */
  lemma OwnDone(s: Scope, component: string, rs: Renames, k: nat)
    requires k < |s.nodes|
    ensures var local, step := Elems(LocalIds(s.nodes, component)), Elems(StepIds(s.nodes, component));
            var half := SoFar(s, local, {}, step, {}, rs, |rs|).nodes[k];
            var done := Rename(s, {}, component, rs).nodes[k];
            done == half.(body := done.body)
            && (half.body.Some? ==> done.body == Some(Rename(half.body.value, {}, component, rs)))
            && (half.body.None? ==> done.body.None?)
  {
    var local, step := Elems(LocalIds(s.nodes, component)), Elems(StepIds(s.nodes, component));
    assert rs[..|rs|] == rs;
    RenameNodesAt(s.nodes, local, {}, step, component, rs, k);
    if s.nodes[k].body.Some? { ParentsFirst(s.nodes[k].body.value, local, component, rs); }
  }

  /** Clean renames change each old name once. */
  predicate CleanRenames(rs: Renames) {
    && (forall i :: 0 <= i < |rs| ==> rs[i].0 != rs[i].1)
    && forall i, j :: 0 <= i < j < |rs| ==> rs[i].0 != rs[j].0
  }

  method RenameLocals(s: Scope, localIds: seq<Id>, ghost step: set<Id>, rs: Renames, i: nat,
                      half: Scope) returns (out: Scope)
    requires i < |rs| && rs[i].0 != rs[i].1 && half == SoFar(s, Elems(localIds), {}, step, {}, rs, i)
    ensures out == SoFar(s, Elems(localIds), Elems(localIds), step, {}, rs, i)
  {
    ghost var local := Elems(localIds);
    out := half;
    ghost var more: set<Id> := {};
    for j := 0 to |localIds|
      invariant more == Elems(localIds[..j]) && more <= local
      invariant out == SoFar(s, local, more, step, {}, rs, i)
    {
      LocalPass(s, local, more, step, rs, i, localIds[j]);
      out := SubScope(out, Local, localIds[j], rs[i].0, rs[i].1);
      out := SubChildren(out, localIds[j], rs[i].0, rs[i].1);
      more := more + {localIds[j]};
    }
    assert more == local;
  }

  method RenameSteps(s: Scope, ghost local: set<Id>, stepIds: seq<Id>, rs: Renames, i: nat,
                     half: Scope) returns (out: Scope)
    requires i < |rs| && rs[i].0 != rs[i].1 && half == SoFar(s, local, local, Elems(stepIds), {}, rs, i)
    ensures out == SoFar(s, local, local, Elems(stepIds), Elems(stepIds), rs, i)
  {
    ghost var step := Elems(stepIds);
    out := half;
    ghost var more: set<Id> := {};
    for j := 0 to |stepIds|
      invariant more == Elems(stepIds[..j]) && more <= step
      invariant out == SoFar(s, local, local, step, more, rs, i)
    {
      StepPass(s, local, step, more, rs, i, stepIds[j]);
      out := SubScope(out, OwnStep, stepIds[j], rs[i].0, rs[i].1);
      more := more + {stepIds[j]};
    }
    assert more == step;
  }

  method RenameOwnText(s: Scope, component: string, rs: Renames) returns (out: Scope)
    requires CleanRenames(rs)
    ensures out == SoFar(s, Elems(LocalIds(s.nodes, component)), {}, Elems(StepIds(s.nodes, component)), {}, rs, |rs|)
  {
    var localIds, stepIds := LocalIds(s.nodes, component), StepIds(s.nodes, component);
    ghost var local, step := Elems(localIds), Elems(stepIds);
    out := s;
    NoRename(s, local, step, rs);
    for i := 0 to |rs|
      invariant out == SoFar(s, local, {}, step, {}, rs, i)
    {
      out := RenameLocals(s, localIds, step, rs, i, out);
      out := RenameSteps(s, local, stepIds, rs, i, out);
      NextRename(s, local, step, rs, i);
    }
  }

  /** The rename of one scope and, after it, of each body inside. `whole` is the scope before the
      enclosing scope treated its parent references. */
  method RenameOutputRefs(s: Scope, component: string, rs: Renames, ghost whole: Scope,
                          ghost outer: set<Id>) returns (out: Scope)
    requires CleanRenames(rs) && s == ParentSoFar(whole, outer, {}, rs, |rs|)
    ensures out == Rename(s, {}, component, rs)
    decreases whole
  {
    out := RenameOwnText(s, component, rs);
    ghost var local, step := Elems(LocalIds(s.nodes, component)), Elems(StepIds(s.nodes, component));
    ghost var half := out;
    for k := 0 to |out.nodes|
      invariant |out.nodes| == |s.nodes| == |half.nodes| && out.text == half.text
      invariant forall j :: 0 <= j < k ==> out.nodes[j] == Rename(s, {}, component, rs).nodes[j]
      invariant forall j :: k <= j < |out.nodes| ==> out.nodes[j] == half.nodes[j]
    {
      OwnDone(s, component, rs, k);
      var node := out.nodes[k];
      if node.body.Some? {
        var body := RenameOutputRefs(node.body.value, component, rs, whole.nodes[k].body.value, local);
        out := out.(nodes := out.nodes[k := node.(body := Some(body))]);
      }
    }
    assert rs[..|rs|] == rs;
    assert out.nodes == Rename(s, {}, component, rs).nodes;
    assert out.text == Rename(s, {}, component, rs).text;
  }

  /** The requested renames without those that change nothing or miss a name. */
  function Cleaned(rs: Renames): Renames {
    if rs == [] then []
    else
      var kept := Cleaned(rs[..|rs| - 1]);
      var r := rs[|rs| - 1];
      if r.0 != "" && r.1 != "" && r.0 != r.1 then kept + [r] else kept
  }

  /** Both names are there, and they differ. */
  predicate Changes(r: (string, string)) {
    r.0 != "" && r.1 != "" && r.0 != r.1
  }

  /** They are the requested pairs that change something, in the order requested. */
  lemma {:induction false} CleanedExactly(rs: Renames)
    ensures Kept(rs, Cleaned(rs), Changes)
  {
    if rs == [] {
      KeptNone(Changes);
    } else {
      var init, r := rs[..|rs| - 1], rs[|rs| - 1];
      CleanedExactly(init);
      KeptSnoc(init, Cleaned(init), Changes, r);
      assert rs == init + [r];
      assert Cleaned(rs) == if Changes(r) then Cleaned(init) + [r] else Cleaned(init);
    }
  }

  lemma {:induction false} CleanedClean(rs: Renames)
    requires forall i, j :: 0 <= i < j < |rs| ==> rs[i].0 != rs[j].0
    ensures CleanRenames(Cleaned(rs))
    ensures forall i :: 0 <= i < |Cleaned(rs)| ==> Cleaned(rs)[i] in rs
  {
    if rs != [] {
      var init := rs[..|rs| - 1];
      CleanedClean(init);
      forall i | 0 <= i < |Cleaned(init)| ensures Cleaned(init)[i] in rs && Cleaned(init)[i].0 != rs[|rs| - 1].0 {
        var k :| 0 <= k < |init| && init[k] == Cleaned(init)[i];
        assert rs[k] == init[k];
      }
    }
  }

  lemma NoOuterParents(s: Scope, rs: Renames)
    ensures ParentSoFar(s, {}, {}, rs, |rs|) == s
  {
    var out := ParentSoFar(s, {}, {}, rs, |rs|);
    assert out.text == s.text;
    forall k | 0 <= k < |s.nodes| ensures out.nodes[k] == s.nodes[k] {
      assert out.nodes[k].text == s.nodes[k].text && out.nodes[k].loopText == s.nodes[k].loopText;
    }
  }

  /** The request as it arrives, for the whole workflow. */
  method RenameComponentOutputRefs(s: Scope, component: string, requested: Renames) returns (out: Scope)
    requires forall i, j :: 0 <= i < j < |requested| ==> requested[i].0 != requested[j].0
    ensures out == Rename(s, {}, component, Cleaned(requested))
  {
    var rs := Cleaned(requested);
    CleanedClean(requested);
    NoOuterParents(s, rs);
    out := RenameOutputRefs(s, component, rs, s, {});
  }
}
