/** Nothing is counted twice or lost on the way from the log to the roots, except round a cycle. */
module CallTreeProperties {
  import opened Wrappers
  import opened CallTree
  import UniqueIds

  lemma PlusLaws(a: Usage, b: Usage, c: Usage)
    ensures a.Plus(b).Plus(c) == a.Plus(b.Plus(c)) && a.Plus(b).Plus(c) == a.Plus(c).Plus(b)
    ensures a.Plus(b.Plus(c)) == b.Plus(a.Plus(c)) && a.Plus(ZERO) == a && ZERO.Plus(a) == a
  {
  }

  ghost function Own(c: Calls): map<Id, Usage> {
    map n | n in c.nodes :: c.nodes[n].own
  }

  /** What a set of calls used of their own. */
  ghost function SumOf<T>(own: map<T, Usage>, s: set<T>): Usage
    requires s <= own.Keys
  {
    if s == {} then ZERO else
      var n :| n in s;
      own[n].Plus(SumOf(own, s - {n}))
  }

  lemma {:induction false} SumWith<T>(own: map<T, Usage>, s: set<T>, n: T)
    requires n !in s && s + {n} <= own.Keys
    ensures SumOf(own, s + {n}) == SumOf(own, s).Plus(own[n])
  {
    var all := s + {n};
    var m :| m in all && SumOf(own, all) == own[m].Plus(SumOf(own, all - {m}));
    if m == n {
      assert all - {n} == s;
      PlusLaws(ZERO, SumOf(own, s), own[n]);
    } else {
      assert all - {m} == (s - {m}) + {n} && s == (s - {m}) + {m};
      SumWith(own, s - {m}, n);
      SumWith(own, s - {m}, m);
      PlusLaws(SumOf(own, s - {m}), own[m], own[n]);
      PlusLaws(own[m], SumOf(own, s - {m}), own[n]);
    }
  }

  lemma UnionLess<T>(a: set<T>, b: set<T>, n: T)
    requires a !! b && n in b
    ensures (a + b) - {n} == a + (b - {n})
  {
  }

  lemma WithLess<T>(s: set<T>, n: T)
    requires n !in s
    ensures ({n} + s) - {n} == s && (s + {n}) - {n} == s
  {
  }

  lemma SumInsert<T>(own: map<T, Usage>, s: set<T>, n: T)
    requires n in s && s <= own.Keys
    ensures SumOf(own, s) == SumOf(own, s - {n}).Plus(own[n])
  {
    assert s == (s - {n}) + {n};
    SumWith(own, s - {n}, n);
  }

  lemma {:induction false} SumUnion<T>(own: map<T, Usage>, a: set<T>, b: set<T>)
    requires a !! b && a + b <= own.Keys
    ensures SumOf(own, a + b) == SumOf(own, a).Plus(SumOf(own, b))
    decreases b
  {
    if b == {} {
      assert a + b == a;
      PlusLaws(SumOf(own, a), ZERO, ZERO);
    } else {
      var n :| n in b;
      SumUnion(own, a, b - {n});
      SumInsert(own, a + b, n);
      SumInsert(own, b, n);
      UnionLess(a, b, n);
      PlusLaws(SumOf(own, a), SumOf(own, b - {n}), own[n]);
    }
  }

  lemma {:induction false} SumSame<T>(own: map<T, Usage>, other: map<T, Usage>, s: set<T>)
    requires s <= own.Keys && s <= other.Keys && forall n :: n in s ==> own[n] == other[n]
    ensures SumOf(own, s) == SumOf(other, s)
  {
    if s != {} {
      var n :| n in s && SumOf(own, s) == own[n].Plus(SumOf(own, s - {n}))
               && SumOf(other, s) == other[n].Plus(SumOf(other, s - {n}));
      SumSame(own, other, s - {n});
    }
  }

  // ---- Subtrees are disjoint ----

  lemma {:induction false} UpMonotone(c: Calls, n: Id, j: nat, k: nat)
    requires j <= k && Up(c, n, j).None?
    ensures Up(c, n, k).None?
  {
    UpPlus(c, n, j, k - j);
  }

  lemma BelowBoth(c: Calls, a: Id, b: Id, m: Id)
    requires Above(c, a, m) && Above(c, b, m)
    ensures Above(c, a, b) || Above(c, b, a)
  {
    var j: nat :| Up(c, m, j) == Some(a);
    var k: nat :| Up(c, m, k) == Some(b);
    if j <= k {
      UpPlus(c, m, j, k - j);
      assert Up(c, a, k - j) == Some(b);
    } else {
      UpPlus(c, m, k, j - k);
      assert Up(c, b, j - k) == Some(a);
    }
  }

  /** Of two children of a grounded call, neither is above the other. */
  lemma SiblingsApart(c: Calls, n: Id, a: Id, b: Id)
    requires Grounded(c, n) && c.Parent(a) == Some(n) && c.Parent(b) == Some(n) && a != b
    ensures !Above(c, a, b)
  {
    if Above(c, a, b) {
      var k: nat :| Up(c, b, k) == Some(a);
      assert Up(c, n, k - 1) == Some(a);
      UpPlus(c, n, k - 1, 1);
      assert Up(c, a, 1) == Up(c, n, 0);
      var end: nat :| Up(c, n, end).None?;
      NoCycle(c, n, end, k);
    }
  }

  lemma RootsApart(c: Calls, a: Id, b: Id)
    requires c.Parent(b).None? && a != b
    ensures !Above(c, a, b)
  {
    forall k: nat ensures Up(c, b, k) != Some(a) {
      if k > 0 { UpMonotone(c, b, 1, k); }
    }
  }

  ghost predicate Apart(c: Calls, list: seq<Id>) {
    forall i, j :: 0 <= i < j < |list| ==> !Above(c, list[i], list[j]) && !Above(c, list[j], list[i])
  }

  lemma NextApart(c: Calls, list: seq<Id>, k: nat)
    requires Apart(c, list) && k < |list|
    ensures BelowFirst(c, list, k) !! Below(c, list[k])
  {
    BelowFirstIs(c, list, k);
    forall m | m in BelowFirst(c, list, k) ensures m !in Below(c, list[k]) {
      var j :| 0 <= j < k && m in Below(c, list[j]);
      if m in Below(c, list[k]) { BelowBoth(c, list[j], list[k], m); }
    }
  }

  lemma {:induction false} DistinctSorted(c: Calls, ids: seq<Id>, sorted: seq<Id>)
    requires multiset(ids) == multiset(sorted) && Distinct(ids)
    ensures Distinct(sorted)
  {
    forall i, j | 0 <= i < j < |sorted| ensures sorted[i] != sorted[j] {
      AtMostOnce(ids, sorted[i]);
      if sorted[i] == sorted[j] { Twice(sorted, i, j); }
    }
  }

  lemma {:induction false} AtMostOnce(ids: seq<Id>, n: Id)
    requires Distinct(ids)
    ensures multiset(ids)[n] <= 1
  {
    if ids != [] {
      AtMostOnce(ids[..|ids| - 1], n);
      assert ids == ids[..|ids| - 1] + [ids[|ids| - 1]];
      if ids[|ids| - 1] == n { assert n !in multiset(ids[..|ids| - 1]); }
    }
  }

  lemma Twice(s: seq<Id>, i: nat, j: nat)
    requires i < j < |s| && s[i] == s[j]
    ensures multiset(s)[s[i]] >= 2
  {
    assert s == s[..j] + [s[j]] + s[j + 1..];
    assert s[..j][i] == s[i];
    assert s[i] in multiset(s[..j]);
  }

  lemma {:induction false} WithParentDistinct(c: Calls, ids: seq<Id>, parent: Option<Id>)
    requires Distinct(ids)
    ensures Distinct(WithParent(c, ids, parent))
  {
    if ids != [] {
      WithParentDistinct(c, ids[..|ids| - 1], parent);
      WithParentIs(c, ids[..|ids| - 1], parent);
    }
  }

  lemma ChildrenApart(c: Calls, n: Id)
    requires c.Valid() && Grounded(c, n)
    ensures Apart(c, Children(c, n))
  {
    var list := Children(c, n);
    WithParentDistinct(c, c.order, Some(n));
    SortedIs(c, WithParent(c, c.order, Some(n)));
    DistinctSorted(c, WithParent(c, c.order, Some(n)), list);
    ChildrenAre(c, n);
    forall i, j | 0 <= i < |list| && 0 <= j < |list| && i != j ensures !Above(c, list[i], list[j]) {
      SiblingsApart(c, n, list[i], list[j]);
    }
  }

  lemma RootListApart(c: Calls)
    requires c.Valid()
    ensures Apart(c, Roots(c))
  {
    var list := Roots(c);
    WithParentDistinct(c, c.order, None);
    SortedIs(c, WithParent(c, c.order, None));
    DistinctSorted(c, WithParent(c, c.order, None), list);
    RootsAre(c);
    forall i, j | 0 <= i < |list| && 0 <= j < |list| && i != j ensures !Above(c, list[i], list[j]) {
      RootsApart(c, list[i], list[j]);
    }
  }

  // ---- Subtree totals ----

  lemma BelowFirstKnown(c: Calls, list: seq<Id>, k: nat)
    requires k <= |list|
    ensures BelowFirst(c, list, k) <= c.nodes.Keys
  {
    BelowFirstIs(c, list, k);
  }

  lemma {:induction false} RolledListIs(c: Calls, n: Id, k: nat)
    requires c.Valid() && n in c.nodes && Grounded(c, n) && k <= |Children(c, n)|
    ensures BelowFirst(c, Children(c, n), k) <= c.nodes.Keys
    ensures RolledList(c, n, k) == Own(c)[n].Plus(SumOf(Own(c), BelowFirst(c, Children(c, n), k)))
    decreases Below(c, n), 0, k
  {
    var list, own := Children(c, n), Own(c);
    BelowFirstKnown(c, list, k);
    if k == 0 {
      PlusLaws(own[n], ZERO, ZERO);
    } else {
      RolledListIs(c, n, k - 1);
      ChildAt(c, n, k - 1);
      RolledIs(c, list[k - 1]);
      ChildrenApart(c, n);
      NextApart(c, list, k - 1);
      SumUnion(own, BelowFirst(c, list, k - 1), Below(c, list[k - 1]));
      PlusLaws(own[n], SumOf(own, BelowFirst(c, list, k - 1)), SumOf(own, Below(c, list[k - 1])));
    }
  }

  /** A subtree total is what the call and all below it used. */
  lemma {:induction false} RolledIs(c: Calls, n: Id)
    requires c.Valid() && n in c.nodes && Grounded(c, n)
    ensures Rolled(c, n) == SumOf(Own(c), Below(c, n))
    decreases Below(c, n), 1, 0
  {
    RolledListIs(c, n, |Children(c, n)|);
    BelowSum(c, n);
  }

  lemma BelowSum(c: Calls, n: Id)
    requires c.Valid() && n in c.nodes && Grounded(c, n)
    requires BelowFirst(c, Children(c, n), |Children(c, n)|) <= c.nodes.Keys
    ensures SumOf(Own(c), Below(c, n)) == Own(c)[n].Plus(SumOf(Own(c), BelowFirst(c, Children(c, n), |Children(c, n)|)))
  {
    BelowIs(c, n);
    NotBelowItself(c, n);
    SumFirst(Own(c), BelowFirst(c, Children(c, n), |Children(c, n)|), n);
  }

  lemma SumFirst<T>(own: map<T, Usage>, s: set<T>, n: T)
    requires n !in s && s + {n} <= own.Keys
    ensures SumOf(own, {n} + s) == own[n].Plus(SumOf(own, s))
  {
    WithLess(s, n);
    SumInsert(own, {n} + s, n);
    PlusLaws(ZERO, SumOf(own, s), own[n]);
  }

  lemma NotBelowItself(c: Calls, n: Id)
    requires c.Valid() && Grounded(c, n)
    ensures n !in BelowFirst(c, Children(c, n), |Children(c, n)|)
  {
    var list := Children(c, n);
    BelowFirstIs(c, list, |list|);
    forall j | 0 <= j < |list| ensures n !in Below(c, list[j]) { ChildAt(c, n, j); }
  }

  lemma {:induction false} RootsUsedIs(c: Calls, k: nat)
    requires c.Valid() && k <= |Roots(c)|
    ensures BelowFirst(c, Roots(c), k) <= c.nodes.Keys
    ensures RootsUsed(c, k) == SumOf(Own(c), BelowFirst(c, Roots(c), k))
  {
    BelowFirstKnown(c, Roots(c), k);
    if k > 0 {
      RootsUsedIs(c, k - 1);
      RootAt(c, k - 1);
      RolledIs(c, Roots(c)[k - 1]);
      RootListApart(c);
      NextApart(c, Roots(c), k - 1);
      SumUnion(Own(c), BelowFirst(c, Roots(c), k - 1), Below(c, Roots(c)[k - 1]));
    }
  }

  // ---- From the log ----

  /** The event is about this call: a model or tool call about its parent if it gives one, and else, like
      every other event, about its own id. */
  predicate About(e: Event, n: Id) {
    match e
    case Start(call, _, _) => call == Some(n)
    case CacheHit(call, _, _) => call == Some(n)
    case End(call) => call == Some(n)
    case ModelCall(call, parent, _) => if parent.Some? then parent.value == n else call == Some(n)
    case Touch(call, parent) => if parent.Some? then parent.value == n else call == Some(n)
    case Ignored => false
  }

  lemma AboutIs(e: Event, n: Id)
    ensures About(e, n) <==> Target(e) == Some(n)
  {
  }

  function ModelUsage(e: Event): Usage {
    if e.ModelCall? && (e.parent.Some? || e.call.Some?) then e.usage else ZERO
  }

  /** All that the log's model calls used, where they have a call to put it down to. */
  function Targeted(events: seq<Event>): Usage {
    if events == [] then ZERO else Targeted(events[..|events| - 1]).Plus(ModelUsage(events[|events| - 1]))
  }

  /** What the model calls about this call used. */
  function TargetedTo(events: seq<Event>, n: Id): Usage {
    if events == [] then ZERO
    else
      var e := events[|events| - 1];
      TargetedTo(events[..|events| - 1], n).Plus(if e.ModelCall? && About(e, n) then e.usage else ZERO)
  }

  /** A call's own usage is that of the model calls that name it as their parent, and of those without a
      parent that have its id. */
  lemma {:induction false} OwnIsTargeted(events: seq<Event>, n: Id)
    ensures Read(events).At(n).own == TargetedTo(events, n)
  {
    if events != [] {
      var init, e := events[..|events| - 1], events[|events| - 1];
      OwnIsTargeted(init, n);
      AboutIs(e, n);
      OwnStep(Read(init), e, n);
      PlusLaws(TargetedTo(init, n), ZERO, ZERO);
      assert TargetUsage(e) == if e.ModelCall? && Target(e).Some? then e.usage else ZERO;
    }
  }

  /** The tree holds the calls that some event is about, in the order of the first such events. */
  lemma {:induction false} CallsSeen(events: seq<Event>)
    ensures forall n :: n in Read(events).order <==> n in Read(events).nodes
    ensures forall n :: n in Read(events).order <==> exists k :: 0 <= k < |events| && About(events[k], n)
    ensures forall i, j :: 0 <= i < j < |Read(events).order| ==>
              SeenFirst(events, Read(events).order[i], Read(events).order[j])
  {
    if events != [] {
      var init, e := events[..|events| - 1], events[|events| - 1];
      CallsSeen(init);
      forall n ensures About(e, n) <==> Target(e) == Some(n) { AboutIs(e, n); }
      var was, now := Read(init), Read(events);
      assert forall k :: 0 <= k < |init| ==> events[k] == init[k];
      forall n ensures n in now.order <==> exists k :: 0 <= k < |events| && About(events[k], n) {
        if n in was.order {
          var k :| 0 <= k < |init| && About(init[k], n);
          assert About(events[k], n);
        }
        if About(e, n) { assert events[|init|] == e; }
      }
      forall i, j | 0 <= i < j < |now.order| ensures SeenFirst(events, now.order[i], now.order[j]) {
        assert now.order[i] == was.order[i] && was.order[i] in was.order;
        if j < |was.order| {
          assert SeenFirst(init, was.order[i], was.order[j]);
          var k :| 0 <= k < |init| && About(init[k], was.order[i])
                   && forall m :: 0 <= m <= k ==> !About(init[m], was.order[j]);
          assert About(events[k], now.order[i]);
        } else {
          var k :| 0 <= k < |init| && About(init[k], was.order[i]);
          assert About(events[k], now.order[i]) && now.order[j] !in was.order;
        }
      }
    }
  }

  /** Some event is about `n` before any is about `m`. */
  ghost predicate SeenFirst(events: seq<Event>, n: Id, m: Id) {
    exists k :: 0 <= k < |events| && About(events[k], n) && forall j :: 0 <= j <= k ==> !About(events[j], m)
  }

  function ParentGiven(e: Event): Option<Id> {
    match e case Start(_, parent, _) => parent case CacheHit(_, parent, _) => parent case _ => None
  }

  function TimeGiven(e: Event): Option<int> {
    match e case Start(_, _, ts) => ts case CacheHit(_, _, ts) => ts case _ => None
  }

  /** The event at position `k` gives the call the value, and no start of it follows. */
  ghost predicate Gives(events: seq<Event>, n: Id, given: Event -> Option<int>, k: nat) {
    && k < |events| && (events[k].Start? || events[k].CacheHit?) && events[k].call == Some(n) && given(events[k]).Some?
    && forall j :: k < j < |events| && events[j].Start? ==> events[j].call != Some(n)
  }

  /** The value is the first one given so: by the call's last start, or by a cache hit after it, or by a cache
      hit of a call that never started. */
  ghost predicate FirstGiven(events: seq<Event>, n: Id, given: Event -> Option<int>, value: Option<int>) {
    match value
    case None => forall k: nat :: !Gives(events, n, given, k)
    case Some(_) => exists k: nat ::
      Gives(events, n, given, k) && given(events[k]) == value && forall j: nat :: j < k ==> !Gives(events, n, given, j)
  }

  lemma GivenStep(init: seq<Event>, e: Event, n: Id, given: Event -> Option<int>, value: Option<int>)
    requires FirstGiven(init, n, given, value)
    requires !e.Start? && !e.CacheHit? ==> given(e).None?
    ensures FirstGiven(init + [e], n, given,
                       if e.Start? && e.call == Some(n) then given(e)
                       else if e.CacheHit? && e.call == Some(n) then Or(value, given(e))
                       else value)
  {
    var events := init + [e];
    assert events[|init|] == e && forall j :: 0 <= j < |init| ==> events[j] == init[j];
    if e.Start? && e.call == Some(n) {
      forall k: nat | k < |init| ensures !Gives(events, n, given, k) { assert events[|init|].Start?; }
      assert given(e).Some? <==> Gives(events, n, given, |init|);
    } else {
      forall k: nat | k < |init| ensures Gives(events, n, given, k) <==> Gives(init, n, given, k) {}
      assert Gives(events, n, given, |init|) <==> e.CacheHit? && e.call == Some(n) && given(e).Some?;
    }
  }

  /** A call's parent and start time are those its last start gives, or else the first that a cache hit after
      it gives, or, when it never started, the first that any cache hit gives. */
  lemma {:induction false} ParentAndStart(events: seq<Event>, n: Id)
    ensures FirstGiven(events, n, ParentGiven, Read(events).At(n).parent)
    ensures FirstGiven(events, n, TimeGiven, Read(events).At(n).start)
  {
    if events != [] {
      var init, e := events[..|events| - 1], events[|events| - 1];
      ParentAndStart(init, n);
      assert events == init + [e];
      GivenStep(init, e, n, ParentGiven, Read(init).At(n).parent);
      GivenStep(init, e, n, TimeGiven, Read(init).At(n).start);
    }
  }

  function TargetUsage(e: Event): Usage {
    if e.ModelCall? && Target(e).Some? then e.usage else ZERO
  }

  lemma UsageIs(e: Event)
    ensures TargetUsage(e) == ModelUsage(e)
  {
  }

  lemma OwnStep(c: Calls, e: Event, n: Id)
    ensures After(c, e).At(n).own == if Target(e) == Some(n) then c.At(n).own.Plus(TargetUsage(e)) else c.At(n).own
  {
    PlusLaws(c.At(n).own, ZERO, ZERO);
  }

  lemma StepSum(c: Calls, e: Event)
    requires c.Valid()
    ensures SumOf(Own(After(c, e)), After(c, e).nodes.Keys) == SumOf(Own(c), c.nodes.Keys).Plus(TargetUsage(e))
  {
    PlusLaws(SumOf(Own(c), c.nodes.Keys), ZERO, ZERO);
    if Target(e).Some? {
      var n, d := Target(e).value, After(c, e);
      var rest := c.nodes.Keys - {n};
      OwnStep(c, e, n);
      AfterOthers(c, e);
      SumSame(Own(c), Own(d), rest);
      SumInsert(Own(d), d.nodes.Keys, n);
      if n in c.nodes {
        SumInsert(Own(c), c.nodes.Keys, n);
        PlusLaws(SumOf(Own(c), rest), c.At(n).own, TargetUsage(e));
      } else {
        PlusLaws(TargetUsage(e), ZERO, ZERO);
      }
    }
  }

  lemma AfterOthers(c: Calls, e: Event)
    requires Target(e).Some?
    ensures After(c, e).nodes.Keys == c.nodes.Keys + {Target(e).value}
    ensures After(c, e).nodes.Keys - {Target(e).value} == c.nodes.Keys - {Target(e).value}
    ensures Target(e).value !in c.nodes ==> c.nodes.Keys - {Target(e).value} == c.nodes.Keys
    ensures forall n :: n in c.nodes && n != Target(e).value ==> Own(After(c, e))[n] == Own(c)[n]
  {
  }

  lemma {:induction false} AllOwnIsTargeted(events: seq<Event>)
    ensures SumOf(Own(Read(events)), Read(events).nodes.Keys) == Targeted(events)
  {
    if events != [] {
      AllOwnIsTargeted(events[..|events| - 1]);
      ReadValid(events[..|events| - 1]);
      StepSum(Read(events[..|events| - 1]), events[|events| - 1]);
      UsageIs(events[|events| - 1]);
    }
  }

  /** The roots' subtree totals, with what the calls on or below a cycle of parents used, are all that the
      log's model calls used. */
  lemma CostConserved(events: seq<Event>)
    ensures var c := Read(events);
            c.Valid() && RootsUsed(c, |Roots(c)|).Plus(SumOf(Own(c), c.nodes.Keys - GroundedCalls(c)))
                == Targeted(events)
  {
    var c := Read(events);
    ReadValid(events);
    RootsUsedIs(c, |Roots(c)|);
    BelowRootsIs(c);
    AllOwnIsTargeted(events);
    SumUnion(Own(c), GroundedCalls(c), c.nodes.Keys - GroundedCalls(c));
    assert GroundedCalls(c) + (c.nodes.Keys - GroundedCalls(c)) == c.nodes.Keys;
  }

  /** Without a cycle, the roots account for everything. */
  lemma AcyclicConserved(events: seq<Event>)
    requires forall n :: n in Read(events).nodes ==> Grounded(Read(events), n)
    ensures Read(events).Valid() && RootsUsed(Read(events), |Roots(Read(events))|) == Targeted(events)
  {
    var c := Read(events);
    CostConserved(events);
    assert c.nodes.Keys - GroundedCalls(c) == {};
    PlusLaws(RootsUsed(c, |Roots(c)|), ZERO, ZERO);
  }

  // ---- Display references ----

  /** Each call comes after its parent, if that is listed. */
  ghost predicate ParentFirst(c: Calls, s: seq<Id>) {
    forall j :: 0 <= j < |s| && c.Parent(s[j]).Some? && c.Parent(s[j]).value in s ==> c.Parent(s[j]).value in s[..j]
  }

  /** A list of exactly these calls, each once, parents first. */
  ghost predicate Lists(c: Calls, s: seq<Id>, ids: set<Id>) {
    Distinct(s) && ParentFirst(c, s) && forall m :: m in s <==> m in ids
  }

  /** No call of `x` is in `y`, nor its parent. */
  ghost predicate Separate(c: Calls, x: set<Id>, y: set<Id>) {
    x !! y && forall m :: m in x ==> c.Parent(m).None? || c.Parent(m).value !in y
  }

  lemma ListsConcat(c: Calls, a: seq<Id>, x: set<Id>, b: seq<Id>, y: set<Id>)
    ensures Lists(c, a, x) && Lists(c, b, y) && Separate(c, x, y) ==> Lists(c, a + b, x + y)
  {
    if Lists(c, a, x) && Lists(c, b, y) && Separate(c, x, y) { ListsConcatHolds(c, a, x, b, y); }
  }

  lemma ListsConcatHolds(c: Calls, a: seq<Id>, x: set<Id>, b: seq<Id>, y: set<Id>)
    requires Lists(c, a, x) && Lists(c, b, y) && Separate(c, x, y)
    ensures Lists(c, a + b, x + y)
  {
    var s := a + b;
    forall i, j | 0 <= i < j < |s| ensures s[i] != s[j] {
      if i < |a| && j >= |a| { assert a[i] in x && b[j - |a|] in y; }
    }
    forall j | 0 <= j < |s| && c.Parent(s[j]).Some? && c.Parent(s[j]).value in s
      ensures c.Parent(s[j]).value in s[..j]
    {
      var p := c.Parent(s[j]).value;
      if j < |a| {
        assert s[j] == a[j] && a[j] in a;
        assert s[..j] == a[..j];
      } else {
        assert s[j] == b[j - |a|];
        assert s[..j] == a + b[..j - |a|];
      }
    }
  }

  lemma {:induction false} PreorderListIs(c: Calls, n: Id, k: nat)
    requires c.Valid() && n in c.nodes && Grounded(c, n) && k <= |Children(c, n)|
    ensures Lists(c, PreorderList(c, n, k), {n} + BelowFirst(c, Children(c, n), k))
    decreases Below(c, n), 0, k
  {
    var list := Children(c, n);
    if k == 0 {
      OneListed(c, n);
      assert {n} + BelowFirst(c, list, 0) == {n};
    } else {
      ChildAt(c, n, k - 1);
      PreorderIs(c, list[k - 1]);
      PreorderListIs(c, n, k - 1);
      PreorderNext(c, n, k);
    }
  }

  lemma PreorderNext(c: Calls, n: Id, k: nat)
    requires c.Valid() && n in c.nodes && Grounded(c, n) && 0 < k <= |Children(c, n)|
             && Grounded(c, Children(c, n)[k - 1])
    ensures var child := Children(c, n)[k - 1];
            Lists(c, PreorderList(c, n, k - 1), {n} + BelowFirst(c, Children(c, n), k - 1))
                && Lists(c, Preorder(c, child), Below(c, child))
            ==> Lists(c, PreorderList(c, n, k), {n} + BelowFirst(c, Children(c, n), k))
  {
    var list, child := Children(c, n), Children(c, n)[k - 1];
    ParentsElsewhere(c, n, k - 1);
    ListsConcat(c, PreorderList(c, n, k - 1), {n} + BelowFirst(c, list, k - 1), Preorder(c, child), Below(c, child));
    UnionAssoc({n}, BelowFirst(c, list, k - 1), Below(c, child));
    assert PreorderList(c, n, k) == PreorderList(c, n, k - 1) + Preorder(c, child);
  }

  lemma UnionAssoc<T>(a: set<T>, b: set<T>, c: set<T>)
    ensures a + b + c == a + (b + c)
  {
  }

  lemma OneListed(c: Calls, n: Id)
    requires Grounded(c, n)
    ensures Lists(c, [n], {n})
  {
    if c.Parent(n) == Some(n) {
      var end: nat :| Up(c, n, end).None?;
      assert Up(c, n, 1) == Up(c, n, 0);
      NoCycle(c, n, end, 1);
    }
  }

  /** What is listed before a child's subtree has no parent in it. */
  lemma ParentsElsewhere(c: Calls, n: Id, k: nat)
    requires c.Valid() && n in c.nodes && Grounded(c, n) && k < |Children(c, n)|
    ensures Separate(c, {n} + BelowFirst(c, Children(c, n), k), Below(c, Children(c, n)[k]))
  {
    var list := Children(c, n);
    ChildrenApart(c, n);
    ChildAt(c, n, k);
    NextApart(c, list, k);
    NotBelowItself(c, n);
    BelowFirstIs(c, list, |list|);
    BelowFirstIs(c, list, k);
    forall m | m in {n} + BelowFirst(c, list, k) && c.Parent(m).Some? ensures c.Parent(m).value !in Below(c, list[k]) {
      if c.Parent(m).value in Below(c, list[k]) { UnderParent(c, list[k], m); }
    }
  }

  lemma UnderParent(c: Calls, top: Id, m: Id)
    requires c.Parent(m).Some? && c.Parent(m).value in Below(c, top)
    ensures m in Below(c, top)
  {
    var k: nat :| Up(c, c.Parent(m).value, k) == Some(top);
    assert Up(c, m, k + 1) == Some(top);
  }

  lemma {:induction false} PreorderIs(c: Calls, n: Id)
    requires c.Valid() && n in c.nodes && Grounded(c, n)
    ensures Lists(c, Preorder(c, n), Below(c, n))
    decreases Below(c, n), 1, 0
  {
    PreorderListIs(c, n, |Children(c, n)|);
    BelowIs(c, n);
  }

  lemma {:induction false} ShownIs(c: Calls, k: nat)
    requires c.Valid() && k <= |Roots(c)|
    ensures Lists(c, Shown(c, k), BelowFirst(c, Roots(c), k))
  {
    if k > 0 {
      ShownIs(c, k - 1);
      ShownNext(c, k);
    }
  }

  lemma ShownNext(c: Calls, k: nat)
    requires c.Valid() && 0 < k <= |Roots(c)|
    ensures Lists(c, Shown(c, k - 1), BelowFirst(c, Roots(c), k - 1)) ==>
              Lists(c, Shown(c, k), BelowFirst(c, Roots(c), k))
  {
    var root := Roots(c)[k - 1];
    RootAt(c, k - 1);
    PreorderIs(c, root);
    RootParentsElsewhere(c, k - 1);
    ListsConcat(c, Shown(c, k - 1), BelowFirst(c, Roots(c), k - 1), Preorder(c, root), Below(c, root));
    assert Shown(c, k) == Shown(c, k - 1) + Preorder(c, root);
  }

  lemma RootParentsElsewhere(c: Calls, k: nat)
    requires c.Valid() && k < |Roots(c)|
    ensures Separate(c, BelowFirst(c, Roots(c), k), Below(c, Roots(c)[k]))
  {
    RootListApart(c);
    NextApart(c, Roots(c), k);
    var root := Roots(c)[k];
    forall m | m in BelowFirst(c, Roots(c), k) ensures c.Parent(m).None? || c.Parent(m).value !in Below(c, root) {
      if c.Parent(m).Some? && c.Parent(m).value in Below(c, root) { UnderParent(c, root, m); }
    }
  }

  /** The i-th call shown has the reference i + 1. */
  function Reference(i: nat): string { UniqueIds.Decimal(i + 1) }

  /** The references 1, 2, ... name every call that leads to a root exactly once, parents first. */
  lemma ReferencesAreOneToOne(c: Calls)
    requires c.Valid()
    ensures Lists(c, Shown(c, |Roots(c)|), GroundedCalls(c))
    ensures forall i: nat, j: nat :: Reference(i) == Reference(j) ==> i == j
  {
    ShownIs(c, |Roots(c)|);
    BelowRootsIs(c);
    forall i: nat, j: nat | Reference(i) == Reference(j) ensures i == j { UniqueIds.DecimalInjective(i + 1, j + 1); }
  }

  // ---- The order of siblings ----

  /** No call starts before one that stands ahead of it. */
  ghost predicate Ordered(c: Calls, ids: seq<Id>) {
    forall i, j :: 0 <= i < j < |ids| ==> !Before(c.At(ids[j]).start, c.At(ids[i]).start)
  }

  /** The calls of a list that start at `t`, in the list's order. */
  function StartingAt(c: Calls, ids: seq<Id>, t: Option<int>): seq<Id> {
    if ids == [] then []
    else
      var before := StartingAt(c, ids[..|ids| - 1], t);
      if c.At(ids[|ids| - 1]).start == t then before + [ids[|ids| - 1]] else before
  }

  lemma StartingAtSnoc(c: Calls, ids: seq<Id>, n: Id, t: Option<int>)
    ensures StartingAt(c, ids + [n], t) == if c.At(n).start == t then StartingAt(c, ids, t) + [n]
            else StartingAt(c, ids, t)
  {
    assert (ids + [n])[..|ids|] == ids;
  }

  lemma {:induction false} InsertedStable(c: Calls, n: Id, sorted: seq<Id>, t: Option<int>)
    ensures StartingAt(c, Inserted(c, n, sorted), t) == StartingAt(c, sorted + [n], t)
  {
    if sorted != [] && Before(c.At(n).start, c.At(sorted[|sorted| - 1]).start) {
      var init, x := sorted[..|sorted| - 1], sorted[|sorted| - 1];
      InsertedStable(c, n, init, t);
      StartingAtSnoc(c, Inserted(c, n, init), x, t);
      StartingAtSnoc(c, init, n, t);
      StartingAtSnoc(c, sorted, n, t);
    }
  }

  lemma {:induction false} InsertedOrdered(c: Calls, n: Id, sorted: seq<Id>)
    requires Ordered(c, sorted)
    ensures Ordered(c, Inserted(c, n, sorted))
  {
    if sorted != [] && Before(c.At(n).start, c.At(sorted[|sorted| - 1]).start) {
      var init := sorted[..|sorted| - 1];
      InsertedOrdered(c, n, init);
      InsertedIs(c, n, init);
      var r := Inserted(c, n, init);
      forall i | 0 <= i < |r| ensures !Before(c.At(sorted[|sorted| - 1]).start, c.At(r[i]).start) {
        assert r[i] == n || r[i] in init;
      }
    } else {
      forall i | 0 <= i < |sorted| ensures !Before(c.At(n).start, c.At(sorted[i]).start) {
        if i < |sorted| - 1 { assert !Before(c.At(sorted[|sorted| - 1]).start, c.At(sorted[i]).start); }
      }
    }
  }

  /** Sorting orders calls by start, those without one first, and keeps calls of one start in the order
      they had. */
  lemma {:induction false} SortedOrdered(c: Calls, ids: seq<Id>, t: Option<int>)
    ensures Ordered(c, Sorted(c, ids)) && StartingAt(c, Sorted(c, ids), t) == StartingAt(c, ids, t)
  {
    if ids != [] {
      var init, n := ids[..|ids| - 1], ids[|ids| - 1];
      SortedOrdered(c, init, t);
      InsertedOrdered(c, n, Sorted(c, init));
      InsertedStable(c, n, Sorted(c, init), t);
      StartingAtSnoc(c, Sorted(c, init), n, t);
    }
  }

  lemma {:induction false} WithParentStable(c: Calls, ids: seq<Id>, parent: Option<Id>, t: Option<int>)
    ensures StartingAt(c, WithParent(c, ids, parent), t) == WithParent(c, StartingAt(c, ids, t), parent)
  {
    if ids != [] {
      var init, n := ids[..|ids| - 1], ids[|ids| - 1];
      WithParentStable(c, init, parent, t);
      StartingAtSnoc(c, WithParent(c, init, parent), n, t);
      assert (StartingAt(c, init, t) + [n])[..|StartingAt(c, init, t)|] == StartingAt(c, init, t);
    }
  }

  /** A call's children are in order of start, and those of one start in the order the log showed them;
      so are the roots. */
  lemma SiblingsInOrder(c: Calls, n: Id, t: Option<int>)
    ensures Ordered(c, Children(c, n))
            && StartingAt(c, Children(c, n), t) == WithParent(c, StartingAt(c, c.order, t), Some(n))
    ensures Ordered(c, Roots(c)) && StartingAt(c, Roots(c), t) == WithParent(c, StartingAt(c, c.order, t), None)
  {
    SortedOrdered(c, WithParent(c, c.order, Some(n)), t);
    SortedOrdered(c, WithParent(c, c.order, None), t);
    WithParentStable(c, c.order, Some(n), t);
    WithParentStable(c, c.order, None, t);
  }
}
