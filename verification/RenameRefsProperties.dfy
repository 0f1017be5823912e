/** What renaming an output field keeps: every reference still reads the producer it read, under the
    new field name exactly when that producer uses the component. */
module RenameRefsProperties {
  import opened Wrappers
  import opened Graph
  import opened RenameRefs

  // ---- What a reference reads ----

  /** The node of a scope an id stands for. */
  function Resolve(nodes: seq<Node>, id: Id): Option<Node> {
    if nodes == [] then None else if nodes[0].id == id then Some(nodes[0]) else Resolve(nodes[1..], id)
  }

  function ResolveStep(steps: seq<Step>, id: Id): Option<Step> {
    if steps == [] then None else if steps[0].id == id then Some(steps[0]) else ResolveStep(steps[1..], id)
  }

  /** Where a piece of text is evaluated: the nodes of its scope, of the scope around it, and the steps
      of the node it belongs to. */
  datatype Env = Env(local: seq<Node>, parent: seq<Node>, steps: seq<Step>)

  /** The name of the component that produces what the reference reads, if it reads anything. */
  function Producer(r: Ref, env: Env): Option<string> {
    match r.kind
    case Local => var n := Resolve(env.local, r.id); if n.Some? then Some(n.value.name) else None
    case Parent => var n := Resolve(env.parent, r.id); if n.Some? then Some(n.value.name) else None
    case OwnStep => var n := ResolveStep(env.steps, r.id); if n.Some? then Some(n.value.name) else None
  }

  /** What a rename should make of a reference. */
  function Meant(r: Ref, env: Env, component: string, rs: Renames): Ref {
    if Producer(r, env) == Some(component) then Renamed(r, rs) else r
  }

  ghost predicate TextMeant(before: seq<Ref>, after: seq<Ref>, env: Env, component: string, rs: Renames) {
    |after| == |before| && forall i :: 0 <= i < |before| ==> after[i] == Meant(before[i], env, component, rs)
  }

  /** Every reference of a scope and of the bodies inside it became what it should, and nothing else moved. */
  ghost predicate ScopeMeant(before: Scope, after: Scope, parent: seq<Node>, component: string, rs: Renames)
    decreases before
  {
    && TextMeant(before.text, after.text, Env(before.nodes, parent, []), component, rs)
    && |after.nodes| == |before.nodes|
    && forall k :: 0 <= k < |before.nodes| ==>
          NodeMeant(before.nodes[k], after.nodes[k], before.nodes, parent, component, rs)
  }

  ghost predicate NodeMeant(before: Node, after: Node, local: seq<Node>, parent: seq<Node>, component: string,
                            rs: Renames)
    decreases before
  {
    && after == before.(text := after.text, loopText := after.loopText, body := after.body)
    && TextMeant(before.text, after.text, Env(local, parent, before.steps), component, rs)
    && TextMeant(before.loopText, after.loopText, LoopEnv(before, local), component, rs)
    && (before.body.None? <==> after.body.None?)
    && (before.body.Some? ==> ScopeMeant(before.body.value, after.body.value, local, component, rs))
  }

  /** A repeat zone's outputs are evaluated among its body's nodes. */
  function LoopEnv(n: Node, local: seq<Node>): Env {
    Env(if n.body.Some? then n.body.value.nodes else [], local, [])
  }

  // ---- What the executor demands, and where the rename looks in the wrong place ----

  predicate DistinctIds(s: Scope)
    decreases s
  {
    && (forall i, j :: 0 <= i < j < |s.nodes| ==> s.nodes[i].id != s.nodes[j].id)
    && forall k :: 0 <= k < |s.nodes| ==> DistinctSteps(s.nodes[k]) && BodyDistinct(s.nodes[k])
  }

  predicate DistinctSteps(n: Node) {
    forall i, j :: 0 <= i < j < |n.steps| ==> n.steps[i].id != n.steps[j].id
  }

  predicate BodyDistinct(n: Node)
    decreases n
  {
    n.body.Some? ==> DistinctIds(n.body.value)
  }

  /** The rename changes this reference when it takes it for one of the component's. */
  predicate Affected(r: Ref, rs: Renames) {
    Renamed(r, rs) != r
  }

  /** The sets the rename consults say of this reference what its evaluation says. */
  predicate Seen(r: Ref, local: set<Id>, parent: set<Id>, step: set<Id>, env: Env, component: string, rs: Renames) {
    Affected(r, rs) ==>
      (r.id in (match r.kind case Local => local case Parent => parent case OwnStep => step)
       <==> Producer(r, env) == Some(component))
  }

  lemma SeenExactly(r: Ref, local: set<Id>, parent: set<Id>, step: set<Id>, env: Env, component: string, rs: Renames)
    ensures Final(r, local, parent, step, rs) == Meant(r, env, component, rs)
            <==> Seen(r, local, parent, step, env, component, rs)
  {
  }

  ghost predicate TextSeen(text: seq<Ref>, local: set<Id>, parent: set<Id>, step: set<Id>, env: Env, component: string,
                           rs: Renames) {
    forall i :: 0 <= i < |text| ==> Seen(text[i], local, parent, step, env, component, rs)
  }

  lemma TextSeenExactly(text: seq<Ref>, local: set<Id>, parent: set<Id>, step: set<Id>, env: Env, component: string,
                        rs: Renames)
    ensures TextMeant(text, FinalText(text, local, parent, step, rs), env, component, rs)
            <==> TextSeen(text, local, parent, step, env, component, rs)
  {
    forall i | 0 <= i < |text| ensures
      FinalText(text, local, parent, step, rs)[i] == Meant(text[i], env, component, rs)
      <==> Seen(text[i], local, parent, step, env, component, rs)
    {
      SeenExactly(text[i], local, parent, step, env, component, rs);
    }
  }

  lemma {:induction false} LocalIdsResolve(nodes: seq<Node>, component: string, id: Id)
    requires forall i, j :: 0 <= i < j < |nodes| ==> nodes[i].id != nodes[j].id
    ensures id in LocalIds(nodes, component) <==> Resolve(nodes, id).Some? && Resolve(nodes, id).value.name == component
  {
    if nodes != [] {
      LocalIdsResolve(nodes[1..], component, id);
      if nodes[0].id == id { Unresolved(nodes[1..], id); }
    }
  }

  lemma {:induction false} Unresolved(nodes: seq<Node>, id: Id)
    requires forall i :: 0 <= i < |nodes| ==> nodes[i].id != id
    ensures Resolve(nodes, id).None?
  {
    if nodes != [] { Unresolved(nodes[1..], id); }
  }

  // ---- Local and parent references ----

  /** A local or parent reference of a scope's text is always seen right; so are step references when no
      step of the component elsewhere in the scope shares their id. */
  lemma ScopedSeen(r: Ref, local: seq<Node>, parent: seq<Node>, steps: seq<Step>, stepIds: set<Id>, component: string,
                   rs: Renames)
    requires forall i, j :: 0 <= i < j < |local| ==> local[i].id != local[j].id
    requires forall i, j :: 0 <= i < j < |parent| ==> parent[i].id != parent[j].id
    ensures Seen(r, Elems(LocalIds(local, component)), Elems(LocalIds(parent, component)), stepIds,
                 Env(local, parent, steps), component, rs)
            <==> (r.kind == OwnStep && Affected(r, rs) ==>
                  (r.id in stepIds <==> Producer(r, Env(local, parent, steps)) == Some(component)))
  {
    LocalIdsResolve(local, component, r.id);
    LocalIdsResolve(parent, component, r.id);
  }

  ghost predicate StepsSeen(text: seq<Ref>, steps: seq<Step>, stepIds: set<Id>, component: string, rs: Renames) {
    forall i :: 0 <= i < |text| && text[i].kind == OwnStep && Affected(text[i], rs) ==>
      (text[i].id in stepIds <==> Producer(text[i], Env([], [], steps)) == Some(component))
  }

  lemma TextScoped(text: seq<Ref>, local: seq<Node>, parent: seq<Node>, steps: seq<Step>, stepIds: set<Id>,
                   component: string, rs: Renames)
    requires forall i, j :: 0 <= i < j < |local| ==> local[i].id != local[j].id
    requires forall i, j :: 0 <= i < j < |parent| ==> parent[i].id != parent[j].id
    ensures TextMeant(text,
            FinalText(text, Elems(LocalIds(local, component)), Elems(LocalIds(parent, component)), stepIds, rs),
                      Env(local, parent, steps), component, rs)
            <==> StepsSeen(text, steps, stepIds, component, rs)
  {
    var l, p := Elems(LocalIds(local, component)), Elems(LocalIds(parent, component));
    TextSeenExactly(text, l, p, stepIds, Env(local, parent, steps), component, rs);
    forall i | 0 <= i < |text| ensures Seen(text[i], l, p, stepIds, Env(local, parent, steps), component, rs) <==>
      (text[i].kind == OwnStep && Affected(text[i], rs) ==>
        (text[i].id in stepIds <==> Producer(text[i], Env([], [], steps)) == Some(component)))
    {
      ScopedSeen(text[i], local, parent, steps, stepIds, component, rs);
    }
  }

  // ---- Where ids clash ----

  /** A node of the scope has this id and uses the component. */
  ghost predicate Uses(nodes: seq<Node>, id: Id, component: string) {
    exists k :: 0 <= k < |nodes| && nodes[k].id == id && nodes[k].name == component
  }

  ghost predicate ChainUses(steps: seq<Step>, id: Id, component: string) {
    exists k :: 0 <= k < |steps| && steps[k].id == id && steps[k].name == component
  }

  /** A step of some chain in the scope does. */
  ghost predicate StepUses(nodes: seq<Node>, id: Id, component: string) {
    exists k :: 0 <= k < |nodes| && ChainUses(nodes[k].steps, id, component)
  }

  /** No step reference of the text that the rename would change has the id of a step that uses the
      component in another chain of the scope, unless its own chain has such a step too. */
  ghost predicate StepsApart(text: seq<Ref>, own: seq<Step>, nodes: seq<Node>, component: string, rs: Renames) {
    forall i :: 0 <= i < |text| && text[i].kind == OwnStep && Affected(text[i], rs) ==>
      StepUses(nodes, text[i].id, component) ==> ChainUses(own, text[i].id, component)
  }

  /** Each id in a zone's outputs that the rename would change stands for a user of the component one scope
      further out exactly when it stands for one where the outputs are evaluated. */
  ghost predicate OutputsApart(text: seq<Ref>, body: seq<Node>, local: seq<Node>, parent: seq<Node>, component: string,
                               rs: Renames) {
    forall i :: 0 <= i < |text| && Affected(text[i], rs) ==>
      match text[i].kind
      case Local => Uses(local, text[i].id, component) <==> Uses(body, text[i].id, component)
      case Parent => Uses(parent, text[i].id, component) <==> Uses(local, text[i].id, component)
      case OwnStep => !StepUses(local, text[i].id, component)
  }

  /** Where the rename can go wrong: a step id that another chain of the scope shares, and outputs of a
      repeat zone, evaluated among the body's nodes but renamed with the scope around it. */
  ghost predicate Unambiguous(s: Scope, parent: seq<Node>, component: string, rs: Renames)
    decreases s
  {
    && StepsApart(s.text, [], s.nodes, component, rs)
    && forall k :: 0 <= k < |s.nodes| ==> NodeUnambiguous(s.nodes[k], s.nodes, parent, component, rs)
  }

  ghost predicate NodeUnambiguous(n: Node, local: seq<Node>, parent: seq<Node>, component: string, rs: Renames)
    decreases n
  {
    && StepsApart(n.text, n.steps, local, component, rs)
    && OutputsApart(n.loopText, if n.body.Some? then n.body.value.nodes else [], local, parent, component, rs)
    && (n.body.Some? ==> Unambiguous(n.body.value, local, component, rs))
  }

  lemma {:induction false} LocalIdsUse(nodes: seq<Node>, component: string, id: Id)
    ensures id in LocalIds(nodes, component) <==> Uses(nodes, id, component)
  {
    if nodes != [] {
      LocalIdsUse(nodes[1..], component, id);
      assert forall k :: 0 < k < |nodes| ==> nodes[k] == nodes[1..][k - 1];
      if k :| 0 <= k < |nodes| && nodes[k].id == id && nodes[k].name == component {
        if k > 0 { assert nodes[1..][k - 1] == nodes[k]; }
      }
    }
  }

  lemma {:induction false} StepsUsingUse(steps: seq<Step>, component: string, id: Id)
    ensures id in StepsUsing(steps, component) <==> ChainUses(steps, id, component)
  {
    if steps != [] {
      StepsUsingUse(steps[1..], component, id);
      assert forall k :: 0 < k < |steps| ==> steps[k] == steps[1..][k - 1];
      if k :| 0 <= k < |steps| && steps[k].id == id && steps[k].name == component {
        if k > 0 { assert steps[1..][k - 1] == steps[k]; }
      }
    }
  }

  lemma {:induction false} StepIdsUse(nodes: seq<Node>, component: string, id: Id)
    ensures id in StepIds(nodes, component) <==> StepUses(nodes, id, component)
  {
    if nodes != [] {
      StepIdsUse(nodes[1..], component, id);
      StepsUsingUse(nodes[0].steps, component, id);
      assert forall k :: 0 < k < |nodes| ==> nodes[k] == nodes[1..][k - 1];
      if k :| 0 <= k < |nodes| && ChainUses(nodes[k].steps, id, component) {
        if k > 0 { assert nodes[1..][k - 1] == nodes[k]; }
      }
    }
  }

  lemma {:induction false} StepResolves(steps: seq<Step>, component: string, id: Id)
    requires forall i, j :: 0 <= i < j < |steps| ==> steps[i].id != steps[j].id
    ensures ResolveStep(steps, id).Some? && ResolveStep(steps, id).value.name == component <==>
              ChainUses(steps, id, component)
  {
    if steps != [] {
      StepResolves(steps[1..], component, id);
      assert forall k :: 0 < k < |steps| ==> steps[k] == steps[1..][k - 1];
      if k :| 0 <= k < |steps| && steps[k].id == id && steps[k].name == component {
        if k > 0 { assert steps[1..][k - 1] == steps[k]; }
      }
    }
  }

  lemma StepsSeenApart(text: seq<Ref>, own: seq<Step>, nodes: seq<Node>, component: string, rs: Renames)
    requires forall i, j :: 0 <= i < j < |own| ==> own[i].id != own[j].id
    requires own == [] || exists k :: 0 <= k < |nodes| && nodes[k].steps == own
    ensures StepsSeen(text, own, Elems(StepIds(nodes, component)), component, rs) <==>
              StepsApart(text, own, nodes, component, rs)
  {
    forall i | 0 <= i < |text| && text[i].kind == OwnStep
      ensures text[i].id in Elems(StepIds(nodes, component)) <==> StepUses(nodes, text[i].id, component)
      ensures Producer(text[i], Env([], [], own)) == Some(component) <==> ChainUses(own, text[i].id, component)
      ensures ChainUses(own, text[i].id, component) ==> StepUses(nodes, text[i].id, component)
    {
      StepIdsUse(nodes, component, text[i].id);
      StepResolves(own, component, text[i].id);
    }
  }

  lemma OutputsSeenApart(text: seq<Ref>, body: seq<Node>, local: seq<Node>, parent: seq<Node>, component: string,
                         rs: Renames)
    requires forall i, j :: 0 <= i < j < |local| ==> local[i].id != local[j].id
    requires forall i, j :: 0 <= i < j < |body| ==> body[i].id != body[j].id
    ensures TextSeen(text, Elems(LocalIds(local, component)), Elems(LocalIds(parent, component)),
            Elems(StepIds(local, component)),
                     Env(body, local, []), component, rs)
            <==> OutputsApart(text, body, local, parent, component, rs)
  {
    forall i | 0 <= i < |text|
      ensures Seen(text[i], Elems(LocalIds(local, component)), Elems(LocalIds(parent, component)),
                   Elems(StepIds(local, component)), Env(body, local, []), component, rs)
              <==> (Affected(text[i], rs) ==>
                      match text[i].kind
                      case Local => Uses(local, text[i].id, component) <==> Uses(body, text[i].id, component)
                      case Parent => Uses(parent, text[i].id, component) <==> Uses(local, text[i].id, component)
                      case OwnStep => !StepUses(local, text[i].id, component))
    {
      OneOutputApart(text[i], body, local, parent, component);
    }
  }

  lemma OneOutputApart(r: Ref, body: seq<Node>, local: seq<Node>, parent: seq<Node>, component: string)
    requires forall i, j :: 0 <= i < j < |local| ==> local[i].id != local[j].id
    requires forall i, j :: 0 <= i < j < |body| ==> body[i].id != body[j].id
    ensures r.id in Elems(LocalIds(local, component)) <==> Uses(local, r.id, component)
    ensures r.id in Elems(LocalIds(parent, component)) <==> Uses(parent, r.id, component)
    ensures r.id in Elems(StepIds(local, component)) <==> StepUses(local, r.id, component)
    ensures Producer(r, Env(body, local, [])) == Some(component) <==>
              match r.kind
              case Local => Uses(body, r.id, component)
              case Parent => Uses(local, r.id, component)
              case OwnStep => false
  {
    LocalIdsUse(local, component, r.id);
    LocalIdsUse(parent, component, r.id);
    LocalIdsUse(body, component, r.id);
    StepIdsUse(local, component, r.id);
    LocalIdsResolve(local, component, r.id);
    LocalIdsResolve(body, component, r.id);
  }

  lemma NodeExactly(n: Node, k: nat, local: seq<Node>, parent: seq<Node>, component: string, rs: Renames)
    requires k < |local| && local[k] == n && DistinctSteps(n) && BodyDistinct(n)
    requires forall i, j :: 0 <= i < j < |local| ==> local[i].id != local[j].id
    requires forall i, j :: 0 <= i < j < |parent| ==> parent[i].id != parent[j].id
    ensures TextMeant(n.text, FinalText(n.text, Elems(LocalIds(local, component)), Elems(LocalIds(parent, component)),
                                        Elems(StepIds(local, component)), rs), Env(local, parent, n.steps), component,
                                            rs)
            <==> StepsApart(n.text, n.steps, local, component, rs)
    ensures TextMeant(n.loopText,
            FinalText(n.loopText, Elems(LocalIds(local, component)), Elems(LocalIds(parent, component)),
                                            Elems(StepIds(local, component)), rs), LoopEnv(n, local), component, rs)
            <==> OutputsApart(n.loopText, if n.body.Some? then n.body.value.nodes else [], local, parent, component, rs)
  {
    var stepIds := Elems(StepIds(local, component));
    TextScoped(n.text, local, parent, n.steps, stepIds, component, rs);
    StepsSeenApart(n.text, n.steps, local, component, rs);
    TextSeenExactly(n.loopText, Elems(LocalIds(local, component)), Elems(LocalIds(parent, component)), stepIds,
                    LoopEnv(n, local), component, rs);
    if n.body.Some? { assert DistinctIds(n.body.value); }
    OutputsSeenApart(n.loopText, if n.body.Some? then n.body.value.nodes else [], local, parent, component, rs);
  }

  /** With distinct node ids in each scope and distinct step ids in each chain, the rename means what it
      should, in every scope and at every depth, exactly when ids clash in neither of those two ways. */
  lemma {:induction false} RenameMeant(s: Scope, parent: seq<Node>, component: string, rs: Renames)
    requires DistinctIds(s) && forall i, j :: 0 <= i < j < |parent| ==> parent[i].id != parent[j].id
    ensures ScopeMeant(s, Rename(s, Elems(LocalIds(parent, component)), component, rs), parent, component, rs)
            <==> Unambiguous(s, parent, component, rs)
    decreases s
  {
    var p, stepIds := Elems(LocalIds(parent, component)), Elems(StepIds(s.nodes, component));
    var out := Rename(s, p, component, rs);
    TextScoped(s.text, s.nodes, parent, [], stepIds, component, rs);
    StepsSeenApart(s.text, [], s.nodes, component, rs);
    forall k | 0 <= k < |s.nodes|
      ensures NodeMeant(s.nodes[k], out.nodes[k], s.nodes, parent, component, rs)
              <==> NodeUnambiguous(s.nodes[k], s.nodes, parent, component, rs)
    {
      var n := s.nodes[k];
      RenameNodesAt(s.nodes, Elems(LocalIds(s.nodes, component)), p, stepIds, component, rs, k);
      assert DistinctSteps(n) && BodyDistinct(n);
      NodeExactly(n, k, s.nodes, parent, component, rs);
      if n.body.Some? { RenameMeant(n.body.value, s.nodes, component, rs); }
    }
  }

  // ---- One rename after another ----

  /** What the renames say taken all at once. */
  function AtOnce(rs: Renames, field: string): string {
    if rs == [] then field
    else if rs[|rs| - 1].0 == field then rs[|rs| - 1].1
    else AtOnce(rs[..|rs| - 1], field)
  }

  /** A later rename picks up what an earlier one produced. */
  ghost predicate Chained(rs: Renames) {
    exists i, j :: 0 <= i < j < |rs| && rs[i].1 == rs[j].0
  }

  lemma {:induction false} AtOnceHit(rs: Renames, i: nat)
    requires CleanRenames(rs) && i < |rs|
    ensures AtOnce(rs, rs[i].0) == rs[i].1
  {
    if i < |rs| - 1 { AtOnceHit(rs[..|rs| - 1], i); }
  }

  lemma {:induction false} AtOnceMiss(rs: Renames, field: string)
    requires forall i :: 0 <= i < |rs| ==> rs[i].0 != field
    ensures AtOnce(rs, field) == field
  {
    if rs != [] { AtOnceMiss(rs[..|rs| - 1], field); }
  }

  /** A field that none of the renames from `from` on has as its old name stays what it was. */
  lemma {:induction false} Stays(rs: Renames, field: string, value: string, from: nat, to: nat)
    requires from <= to <= |rs| && ApplyAll(rs[..from], field) == value
    requires forall m :: from <= m < to ==> rs[m].0 != value
    ensures ApplyAll(rs[..to], field) == value
  {
    if from < to {
      Stays(rs, field, value, from, to - 1);
      ApplySnoc(rs, to - 1, field);
    }
  }

  /** The old name of the i-th rename: it waits for its rename, then stays unless a later one picks it up. */
  lemma FirstStep(rs: Renames, i: nat)
    requires CleanRenames(rs) && i < |rs|
    ensures ApplyAll(rs[..i + 1], rs[i].0) == rs[i].1
  {
    Stays(rs, rs[i].0, rs[i].0, 0, i);
    ApplySnoc(rs, i, rs[i].0);
  }

  lemma UnchainedAgrees(rs: Renames, field: string)
    requires CleanRenames(rs) && !Chained(rs)
    ensures ApplyAll(rs, field) == AtOnce(rs, field)
  {
    assert rs[..|rs|] == rs;
    if i :| 0 <= i < |rs| && rs[i].0 == field {
      AtOnceHit(rs, i);
      FirstStep(rs, i);
      Stays(rs, field, rs[i].1, i + 1, |rs|);
    } else {
      AtOnceMiss(rs, field);
      Stays(rs, field, field, 0, |rs|);
    }
  }

  ghost predicate Feeds(rs: Renames, i: nat) {
    exists j :: i < j < |rs| && rs[i].1 == rs[j].0
  }

  /** No rename after the i-th feeds a later one. */
  ghost predicate LastFed(rs: Renames, i: nat) {
    forall k :: i < k < |rs| ==> !Feeds(rs, k)
  }

  lemma LastFeeder(rs: Renames) returns (i: nat)
    requires Chained(rs)
    ensures i < |rs| && Feeds(rs, i) && LastFed(rs, i)
  {
    var a, b :| 0 <= a < b < |rs| && rs[a].1 == rs[b].0;
    assert Feeds(rs, a);
    i := |rs| - 1;
    while !Feeds(rs, i)
      invariant a <= i < |rs| && forall k :: i < k < |rs| ==> !Feeds(rs, k)
      decreases i
    {
      i := i - 1;
    }
  }

  lemma ChainedGoesOn(rs: Renames, i: nat, j: nat)
    requires CleanRenames(rs) && i < j < |rs| && rs[i].1 == rs[j].0
    requires LastFed(rs, i)
    ensures ApplyAll(rs, rs[i].0) == rs[j].1
  {
    UpToSecond(rs, i, j);
    NotFedOn(rs, i, j);
    ToTheEnd(rs, rs[i].0, rs[j].1, j + 1);
  }

  lemma NotFedOn(rs: Renames, i: nat, j: nat)
    requires i < j < |rs| && LastFed(rs, i)
    ensures forall k :: j < k < |rs| ==> rs[k].0 != rs[j].1
  {
    assert !Feeds(rs, j);
  }

  lemma ToTheEnd(rs: Renames, field: string, value: string, from: nat)
    requires from <= |rs| && ApplyAll(rs[..from], field) == value
    requires forall k :: from <= k < |rs| ==> rs[k].0 != value
    ensures ApplyAll(rs, field) == value
  {
    Stays(rs, field, value, from, |rs|);
    assert rs[..|rs|] == rs;
  }

  lemma UpToSecond(rs: Renames, i: nat, j: nat)
    requires CleanRenames(rs) && i < j < |rs| && rs[i].1 == rs[j].0
    requires LastFed(rs, i)
    ensures ApplyAll(rs[..j + 1], rs[i].0) == rs[j].1
  {
    FirstStep(rs, i);
    Stays(rs, rs[i].0, rs[j].0, i + 1, j);
    ApplySnoc(rs, j, rs[i].0);
  }

  /** Applied one after another, clean renames do what they say all at once, for every field, exactly
      when they are not chained. */
  lemma SequentialIsSimultaneous(rs: Renames)
    requires CleanRenames(rs)
    ensures (forall field :: ApplyAll(rs, field) == AtOnce(rs, field)) <==> !Chained(rs)
  {
    if Chained(rs) {
      var i := LastFeeder(rs);
      var j :| i < j < |rs| && rs[i].1 == rs[j].0;
      ChainedGoesOn(rs, i, j);
      AtOnceHit(rs, i);
    } else {
      forall field ensures ApplyAll(rs, field) == AtOnce(rs, field) { UnchainedAgrees(rs, field); }
    }
  }

  // ---- The two ambiguities are real ----

  const OUT_TO_TEXT: Renames := [("out", "text")]

  lemma OutBecomesText(r: Ref)
    requires r.path == ["out"]
    ensures Renamed(r, OUT_TO_TEXT) == r.(path := ["text"])
  {
    assert OUT_TO_TEXT[..0] == [];
  }

  /** Two chains of one scope share a step id: a reference to the other component's step is renamed. */
  lemma SharedStepIdRenamed(a: Node, b: Node)
    requires a == Node("a", "", [Step("s", "writer")], [], [], None)
    requires b == Node("b", "", [Step("s", "critic")], [Ref(OwnStep, "s", ["out"])], [], None)
    ensures !ScopeMeant(Scope([a, b], []), Rename(Scope([a, b], []), {}, "writer", OUT_TO_TEXT), [], "writer",
            OUT_TO_TEXT)
  {
    var s, out := Scope([a, b], []), Rename(Scope([a, b], []), {}, "writer", OUT_TO_TEXT);
    var local, step := Elems(LocalIds(s.nodes, "writer")), Elems(StepIds(s.nodes, "writer"));
    assert StepIds(s.nodes, "writer")[0] == "s";
    RenameNodesAt(s.nodes, local, {}, step, "writer", OUT_TO_TEXT, 1);
    OutBecomesText(b.text[0]);
    assert out.nodes[1].text[0] == Ref(OwnStep, "s", ["text"]);
    assert !TextMeant(s.nodes[1].text, out.nodes[1].text, Env(s.nodes, [], b.steps), "writer", OUT_TO_TEXT);
    assert !NodeMeant(s.nodes[1], out.nodes[1], s.nodes, [], "writer", OUT_TO_TEXT);
  }

  /** A repeat zone's output that reads a body node of the component keeps the old field name. */
  lemma ZoneOutputMissed(w: Node, zone: Node)
    requires w == Node("w", "writer", [], [], [], None)
    requires zone == Node("z", "", [], [], [Ref(Local, "w", ["out"])], Some(Scope([w], [])))
    ensures !ScopeMeant(Scope([zone], []), Rename(Scope([zone], []), {}, "writer", OUT_TO_TEXT), [], "writer",
            OUT_TO_TEXT)
  {
    var s, out := Scope([zone], []), Rename(Scope([zone], []), {}, "writer", OUT_TO_TEXT);
    var local, step := Elems(LocalIds(s.nodes, "writer")), Elems(StepIds(s.nodes, "writer"));
    assert s.nodes[1..] == [] && LocalIds(s.nodes, "writer") == [];
    RenameNodesAt(s.nodes, local, {}, step, "writer", OUT_TO_TEXT, 0);
    assert out.nodes[0].loopText[0] == Ref(Local, "w", ["out"]);
    assert Resolve([w], "w") == Some(w);
    OutBecomesText(zone.loopText[0]);
    assert !TextMeant(zone.loopText, out.nodes[0].loopText, LoopEnv(zone, s.nodes), "writer", OUT_TO_TEXT);
    assert !NodeMeant(s.nodes[0], out.nodes[0], s.nodes, [], "writer", OUT_TO_TEXT);
  }
}
