/** Workers that check and then spend, interleaved in any way: how far a scope can overshoot its limit. */
module BudgetOvershoot {
  import opened Wrappers
  import Sets
  import opened BudgetTree
  import opened Budget

  /** The places in a scope's readings that spending moves: money, tokens and tool calls. */
  type Gauge = q: nat | q == 0 || q == 1 || q == 3 witness 0

  function Measure(c: Counters, subscription: bool, q: Gauge): real {
    if q == 0 then if subscription then c.apiUsd else c.usd
    else if q == 1 then c.tokens as real
    else c.toolCalls as real
  }

  /** A worker spends at its own tracker. A check that passed lets it spend once; whether overruns were
      allowed when it passed is remembered. */
  datatype Phase = Idle | Passed(overrun: bool)

  datatype Worker<T> = Worker(at: T, phase: Phase)

  datatype World<T> = World(tree: State<T>, specs: map<T, Option<Spec>>, workers: map<nat, Worker<T>>,
      over: map<T, Counters>)

  /** Scopes and workers may join at any time. */
  datatype Event<T> =
    | Check(w: nat, overrun: bool, wallclock: map<T, real>)
    | Spending(w: nat, d: Counters)
    | Scope(t: T, parent: Option<T>, spec: Option<Spec>)
    | Hire(w: nat, at: T)

  ghost predicate Valid<T>(v: World<T>) {
    && ValidState(v.tree) && v.specs.Keys == v.tree.used.Keys == v.over.Keys
    && forall id :: id in v.workers ==> v.workers[id].at in v.tree.used
  }

  /** No reading of the chain is exhausted. */
  ghost predicate Passes<T>(v: World<T>, x: T, wallclock: map<T, real>)
    requires Valid(v) && x in v.tree.used
  {
    forall n :: n in v.tree.forest.Chain(x) && v.specs[n].Some? ==>
      var elapsed := if n in wallclock then wallclock[n] else 0.0;
      forall r :: r in Readings(v.specs[n].value, v.tree.used[n], Subscription(v.tree, n), elapsed) ==> !r.Exhausted()
  }

  /** Nothing negative, and at most `cap`. */
  predicate Within(d: Counters, cap: Counters) {
    0.0 <= d.usd <= cap.usd && 0.0 <= d.apiUsd <= cap.apiUsd && 0 <= d.tokens <= cap.tokens
        && 0 <= d.toolCalls <= cap.toolCalls
  }

  ghost predicate Enabled<T>(v: World<T>, e: Event<T>, cap: Counters) {
    match e
    case Check(w, _, _) => w in v.workers
    case Spending(w, d) => w in v.workers && v.workers[w].phase.Passed? && Within(d, cap)
    case Scope(t, parent, _) => t !in v.tree.used && (parent.Some? ==> parent.value in v.tree.used)
    case Hire(w, at) => w !in v.workers && at in v.tree.used
  }

  ghost function Joined<T>(s: State<T>, t: T, parent: Option<T>): (r: State<T>)
    requires ValidState(s) && t !in s.used && (parent.Some? ==> parent.value in s.used)
    ensures ValidState(r) && r == Grown(s, t, parent)
  {
    match parent
    case Some(p) => BudgetTree.After(s, Child(t, p))
    case None => BudgetTree.After(s, Root(t))
  }

  ghost function After<T>(v: World<T>, e: Event<T>, cap: Counters): (r: World<T>)
    requires Valid(v) && Enabled(v, e, cap)
    ensures Valid(r)
  {
    match e
    case Check(w, overrun, wallclock) =>
      var worker := v.workers[w];
      var phase := if overrun || Passes(v, worker.at, wallclock) then Passed(overrun) else Idle;
      v.(workers := v.workers[w := worker.(phase := phase)])
    case Spending(w, d) =>
      var worker := v.workers[w];
      var tree := v.tree.(used := Raised(v.tree.forest, v.tree.used, worker.at, d));
      v.(tree := tree,
         over := if worker.phase.overrun then Raised(v.tree.forest, v.over, worker.at, d) else v.over,
         workers := v.workers[w := worker.(phase := Idle)])
    case Scope(t, parent, spec) =>
      v.(tree := Joined(v.tree, t, parent), specs := v.specs[t := spec], over := v.over[t := ZERO])
    case Hire(w, at) => v.(workers := v.workers[w := Worker(at, Idle)])
  }

  /** The workers below a scope. */
  ghost function Under<T>(v: World<T>, n: T): set<nat>
    requires Valid(v)
  {
    set id | id in v.workers && n in v.tree.forest.Chain(v.workers[id].at)
  }

  /** Those of them that passed a real check and have not spent since. */
  ghost function Ready<T>(v: World<T>, n: T): set<nat>
    requires Valid(v)
  {
    set id | id in v.workers && n in v.tree.forest.Chain(v.workers[id].at) && v.workers[id].phase == Passed(false)
  }

  ghost function LimitOf<T>(v: World<T>, n: T, q: Gauge): Option<real>
    requires Valid(v) && n in v.tree.used
  {
    if v.specs[n].None? then None else Readings(v.specs[n].value, ZERO, Subscription(v.tree, n), 0.0)[q].limit
  }

  /** What was spent, plus what `ready` workers may still spend, against the limit plus `c` for each of
      `under` workers. */
  ghost predicate Fits(limit: Option<real>, spent: real, ready: nat, under: nat, c: real) {
    limit.Some? && limit.value >= 0.0 ==>
      if limit.value == 0.0 then spent + Times(ready, c) <= Times(under, c)
      else spent + Times(ready, c) < limit.value + Times(under, c)
  }

  function Times(k: nat, c: real): real { k as real * c }

  /** Spending at `n`, other than under an allowed overrun. */
  ghost function Normal<T>(v: World<T>, n: T, q: Gauge): real
    requires Valid(v) && n in v.tree.used
  {
    Measure(v.tree.used[n], Subscription(v.tree, n), q) - Measure(v.over[n], Subscription(v.tree, n), q)
  }

  ghost predicate Bounded<T>(v: World<T>, cap: Counters, n: T, q: Gauge)
    requires Valid(v) && n in v.tree.used
  {
    && Measure(v.over[n], Subscription(v.tree, n), q) >= 0.0
    && Fits(LimitOf(v, n, q), Normal(v, n, q), |Ready(v, n)|, |Under(v, n)|, Measure(cap, Subscription(v.tree, n), q))
  }

  lemma TimesMonotone(j: nat, k: nat, c: real)
    requires j <= k && c >= 0.0
    ensures Times(j, c) <= Times(k, c) && (j < k ==> Times(j, c) + c <= Times(k, c))
  {
    assert Times(k, c) - Times(j, c) == (k - j) as real * c;
  }

  lemma FitsFewer(limit: Option<real>, spent: real, ready: nat, fewer: nat, under: nat, c: real)
    requires Fits(limit, spent, ready, under, c) && fewer <= ready && c >= 0.0
    ensures Fits(limit, spent, fewer, under, c)
  {
    TimesMonotone(fewer, ready, c);
  }

  lemma FitsSpent(limit: Option<real>, spent: real, d: real, ready: nat, under: nat, c: real)
    requires Fits(limit, spent, ready + 1, under, c) && 0.0 <= d <= c
    ensures Fits(limit, spent + d, ready, under, c)
  {
    TimesMonotone(ready, ready + 1, c);
  }

  lemma FitsPassed(r: Reading, over: real, ready: nat, under: nat, c: real)
    requires !r.Exhausted() && over >= 0.0 && ready <= under && c >= 0.0
    ensures Fits(r.limit, r.used - over, ready, under, c)
  {
    TimesMonotone(ready, under, c);
  }

  lemma ReadyUnder<T>(v: World<T>, n: T)
    requires Valid(v)
    ensures |Ready(v, n)| <= |Under(v, n)|
  {
    Sets.SubsetSize(Ready(v, n), Under(v, n));
  }

  lemma CheckWorkers<T>(v: World<T>, e: Event<T>, cap: Counters, n: T)
    requires Valid(v) && e.Check? && Enabled(v, e, cap) && n in v.tree.used
    ensures var r := After(v, e, cap);
            && r.tree == v.tree && r.over == v.over && r.specs == v.specs && Under(r, n) == Under(v, n)
            && (Ready(r, n) <= Ready(v, n)
                || (n in v.tree.forest.Chain(v.workers[e.w].at) && Passes(v, v.workers[e.w].at, e.wallclock)))
  {
    var r := After(v, e, cap);
    assert Under(r, n) == Under(v, n);
    if !(n in v.tree.forest.Chain(v.workers[e.w].at) && r.workers[e.w].phase == Passed(false)) {
      assert Ready(r, n) <= Ready(v, n);
    }
  }

  /** A scope on the chain of a check that passed has room. */
  lemma PassedFits<T>(v: World<T>, x: T, wallclock: map<T, real>, n: T, q: Gauge, ready: nat, under: nat, c: real)
    requires Valid(v) && x in v.tree.used && n in v.tree.forest.Chain(x) && Passes(v, x, wallclock)
    requires ready <= under && c >= 0.0 && Measure(v.over[n], Subscription(v.tree, n), q) >= 0.0
    ensures Fits(LimitOf(v, n, q), Normal(v, n, q), ready, under, c)
  {
    if v.specs[n].Some? {
      var elapsed := if n in wallclock then wallclock[n] else 0.0;
      var rs := Readings(v.specs[n].value, v.tree.used[n], Subscription(v.tree, n), elapsed);
      assert rs[q] in rs && !rs[q].Exhausted();
      FitsPassed(rs[q], Measure(v.over[n], Subscription(v.tree, n), q), ready, under, c);
    }
  }

  lemma CheckBounded<T>(v: World<T>, e: Event<T>, cap: Counters, n: T, q: Gauge)
    requires Valid(v) && e.Check? && Enabled(v, e, cap) && n in v.tree.used && Within(ZERO, cap)
    requires Bounded(v, cap, n, q)
    ensures Bounded(After(v, e, cap), cap, n, q)
  {
    var r := After(v, e, cap);
    CheckWorkers(v, e, cap, n);
    var c := Measure(cap, Subscription(v.tree, n), q);
    if Ready(r, n) <= Ready(v, n) {
      Sets.SubsetSize(Ready(r, n), Ready(v, n));
      FitsFewer(LimitOf(v, n, q), Normal(v, n, q), |Ready(v, n)|, |Ready(r, n)|, |Under(v, n)|, c);
    } else {
      ReadyUnder(r, n);
      PassedFits(v, v.workers[e.w].at, e.wallclock, n, q, |Ready(r, n)|, |Under(v, n)|, c);
    }
  }

  lemma SpendUnder<T>(v: World<T>, e: Event<T>, cap: Counters, n: T)
    requires Valid(v) && e.Spending? && Enabled(v, e, cap)
    ensures Under(After(v, e, cap), n) == Under(v, n)
  {
  }

  lemma SpendReady<T>(v: World<T>, e: Event<T>, cap: Counters, n: T)
    requires Valid(v) && e.Spending? && Enabled(v, e, cap)
    ensures var r := After(v, e, cap);
            var counted := n in v.tree.forest.Chain(v.workers[e.w].at) && !v.workers[e.w].phase.overrun;
            if counted then e.w in Ready(v, n) && Ready(r, n) == Ready(v, n) - {e.w} else Ready(r, n) == Ready(v, n)
  {
    var r := After(v, e, cap);
    forall id ensures id in Ready(r, n) <==> id in Ready(v, n) && id != e.w {
      assert id in r.workers <==> id in v.workers;
    }
  }

  lemma SpendGauges<T>(v: World<T>, e: Event<T>, cap: Counters, n: T, q: Gauge)
    requires Valid(v) && e.Spending? && Enabled(v, e, cap) && n in v.tree.used
    requires Measure(v.over[n], Subscription(v.tree, n), q) >= 0.0
    ensures var r := After(v, e, cap);
            var sub := Subscription(v.tree, n);
            var d := if n in v.tree.forest.Chain(v.workers[e.w].at) && !v.workers[e.w].phase.overrun
                     then Measure(e.d, sub, q) else 0.0;
            && n in r.tree.used && Subscription(r.tree, n) == sub && LimitOf(r, n, q) == LimitOf(v, n, q)
            && Measure(r.over[n], sub, q) >= 0.0 && Normal(r, n, q) == Normal(v, n, q) + d
  {
    assert Measure(e.d, Subscription(v.tree, n), q) >= 0.0;
  }

  lemma StillBounded<T>(v: World<T>, r: World<T>, cap: Counters, n: T, q: Gauge, d: real)
    requires Valid(v) && Valid(r) && n in v.tree.used && n in r.tree.used && Bounded(v, cap, n, q)
    requires Subscription(r.tree, n) == Subscription(v.tree, n) && LimitOf(r, n, q) == LimitOf(v, n, q)
    requires Measure(r.over[n], Subscription(v.tree, n), q) >= 0.0
    requires Normal(r, n, q) == Normal(v, n, q) + d && |Under(r, n)| == |Under(v, n)|
    requires if |Ready(v, n)| == |Ready(r, n)| + 1 then 0.0 <= d <= Measure(cap, Subscription(v.tree, n), q)
             else |Ready(v, n)| == |Ready(r, n)| && d == 0.0
    ensures Bounded(r, cap, n, q)
  {
    if |Ready(v, n)| == |Ready(r, n)| + 1 {
      FitsSpent(LimitOf(v, n, q), Normal(v, n, q), d, |Ready(r, n)|, |Under(r, n)|,
          Measure(cap, Subscription(v.tree, n), q));
    }
  }

  lemma SpendBounded<T>(v: World<T>, e: Event<T>, cap: Counters, n: T, q: Gauge)
    requires Valid(v) && e.Spending? && Enabled(v, e, cap) && n in v.tree.used && Within(ZERO, cap)
    requires Bounded(v, cap, n, q)
    ensures Bounded(After(v, e, cap), cap, n, q)
  {
    var r, sub := After(v, e, cap), Subscription(v.tree, n);
    SpendUnder(v, e, cap, n);
    SpendReady(v, e, cap, n);
    SpendGauges(v, e, cap, n, q);
    var counted := n in v.tree.forest.Chain(v.workers[e.w].at) && !v.workers[e.w].phase.overrun;
    assert 0.0 <= Measure(e.d, sub, q) <= Measure(cap, sub, q);
    StillBounded(v, r, cap, n, q, if counted then Measure(e.d, sub, q) else 0.0);
  }

  // ---- Scopes and workers that join ----

  /** A scope that joins is above none of those there. */
  lemma {:induction false} ChainStays<T>(s: State<T>, t: T, parent: Option<T>, x: T)
    requires ValidState(s) && t !in s.used && (parent.Some? ==> parent.value in s.used) && x in s.used
    ensures Joined(s, t, parent).forest.Chain(x) == s.forest.Chain(x)
    decreases s.forest.depth[x]
  {
    if s.forest.parent[x].Some? { ChainStays(s, t, parent, s.forest.parent[x].value); }
  }

  lemma ScopeWorkers<T>(v: World<T>, e: Event<T>, cap: Counters, n: T)
    requires Valid(v) && e.Scope? && Enabled(v, e, cap)
    ensures var r := After(v, e, cap);
            && (n in v.tree.used ==> Ready(r, n) == Ready(v, n) && Under(r, n) == Under(v, n))
            && (n == e.t ==> Ready(r, n) == {})
  {
    forall id | id in v.workers
      ensures After(v, e, cap).tree.forest.Chain(v.workers[id].at) == v.tree.forest.Chain(v.workers[id].at)
    {
      ChainStays(v.tree, e.t, e.parent, v.workers[id].at);
    }
  }

  lemma ScopeBounded<T>(v: World<T>, e: Event<T>, cap: Counters, n: T, q: Gauge)
    requires Valid(v) && e.Scope? && Enabled(v, e, cap) && n in After(v, e, cap).tree.used && Within(ZERO, cap)
    requires n in v.tree.used ==> Bounded(v, cap, n, q)
    ensures Bounded(After(v, e, cap), cap, n, q)
  {
    var r := After(v, e, cap);
    ScopeWorkers(v, e, cap, n);
    if n in v.tree.used {
      ChainStays(v.tree, e.t, e.parent, n);
      assert Subscription(r.tree, n) == Subscription(v.tree, n);
    } else {
      TimesMonotone(0, |Under(r, n)|, Measure(cap, Subscription(r.tree, n), q));
    }
  }

  lemma FitsMore(limit: Option<real>, spent: real, ready: nat, under: nat, more: nat, c: real)
    requires Fits(limit, spent, ready, under, c) && under <= more && c >= 0.0
    ensures Fits(limit, spent, ready, more, c)
  {
    TimesMonotone(under, more, c);
  }

  lemma HireReady<T>(v: World<T>, e: Event<T>, cap: Counters, n: T)
    requires Valid(v) && e.Hire? && Enabled(v, e, cap)
    ensures Ready(After(v, e, cap), n) == Ready(v, n)
  {
    var r := After(v, e, cap);
    forall id ensures id in Ready(r, n) <==> id in Ready(v, n) {
      assert id in r.workers <==> id in v.workers || id == e.w;
    }
  }

  lemma HireUnder<T>(v: World<T>, e: Event<T>, cap: Counters, n: T)
    requires Valid(v) && e.Hire? && Enabled(v, e, cap)
    ensures Under(v, n) <= Under(After(v, e, cap), n)
  {
  }

  lemma HireWorkers<T>(v: World<T>, e: Event<T>, cap: Counters, n: T)
    requires Valid(v) && e.Hire? && Enabled(v, e, cap)
    ensures var r := After(v, e, cap);
            Ready(r, n) == Ready(v, n) && |Under(v, n)| <= |Under(r, n)|
  {
    HireReady(v, e, cap, n);
    HireUnder(v, e, cap, n);
    Sets.SubsetSize(Under(v, n), Under(After(v, e, cap), n));
  }

  lemma SameGauges<T>(v: World<T>, r: World<T>, n: T, q: Gauge)
    requires Valid(v) && Valid(r) && r.tree == v.tree && r.over == v.over && r.specs == v.specs && n in v.tree.used
    ensures Subscription(r.tree, n) == Subscription(v.tree, n)
    ensures LimitOf(r, n, q) == LimitOf(v, n, q) && Normal(r, n, q) == Normal(v, n, q)
  {
  }

  lemma HireBounded<T>(v: World<T>, e: Event<T>, cap: Counters, n: T, q: Gauge)
    requires Valid(v) && e.Hire? && Enabled(v, e, cap) && n in v.tree.used && Within(ZERO, cap)
    requires Bounded(v, cap, n, q)
    ensures Bounded(After(v, e, cap), cap, n, q)
  {
    var r, c := After(v, e, cap), Measure(cap, Subscription(v.tree, n), q);
    HireWorkers(v, e, cap, n);
    SameGauges(v, r, n, q);
    assert c >= 0.0;
    FitsMore(LimitOf(v, n, q), Normal(v, n, q), |Ready(v, n)|, |Under(v, n)|, |Under(r, n)|, c);
  }

  // ---- Runs ----

  ghost predicate Legal<T>(v: World<T>, events: seq<Event<T>>, cap: Counters)
    requires Valid(v)
    decreases events
  {
    events != [] ==> Enabled(v, events[0], cap) && Legal(After(v, events[0], cap), events[1..], cap)
  }

  ghost function Runs<T>(v: World<T>, events: seq<Event<T>>, cap: Counters): (r: World<T>)
    requires Valid(v) && Legal(v, events, cap)
    ensures Valid(r)
    decreases events
  {
    if events == [] then v else Runs(After(v, events[0], cap), events[1..], cap)
  }

  /** Nothing spent yet, no check passed yet. */
  ghost predicate Initial<T>(v: World<T>) {
    && Valid(v)
    && (forall n :: n in v.tree.used ==> v.tree.used[n] == ZERO && v.over[n] == ZERO)
    && (forall id :: id in v.workers ==> v.workers[id].phase == Idle)
  }

  lemma InitialBounded<T>(v: World<T>, cap: Counters, n: T, q: Gauge)
    requires Initial(v) && n in v.tree.used && Within(ZERO, cap)
    ensures Bounded(v, cap, n, q)
  {
    assert Ready(v, n) == {};
    TimesMonotone(0, |Under(v, n)|, Measure(cap, Subscription(v.tree, n), q));
  }

  lemma StepBounded<T>(v: World<T>, e: Event<T>, cap: Counters, n: T, q: Gauge)
    requires Valid(v) && Enabled(v, e, cap) && Within(ZERO, cap)
    requires n in v.tree.used ==> Bounded(v, cap, n, q)
    ensures n in After(v, e, cap).tree.used ==> Bounded(After(v, e, cap), cap, n, q)
  {
    if n in After(v, e, cap).tree.used {
      match e
      case Check(_, _, _) => CheckBounded(v, e, cap, n, q);
      case Spending(_, _) => SpendBounded(v, e, cap, n, q);
      case Scope(_, _, _) => ScopeBounded(v, e, cap, n, q);
      case Hire(_, _) => HireBounded(v, e, cap, n, q);
    }
  }

  lemma {:induction false} RunBounded<T>(v: World<T>, events: seq<Event<T>>, cap: Counters, n: T, q: Gauge)
    requires Valid(v) && Legal(v, events, cap) && Within(ZERO, cap)
    requires n in v.tree.used ==> Bounded(v, cap, n, q)
    ensures n in Runs(v, events, cap).tree.used ==> Bounded(Runs(v, events, cap), cap, n, q)
    decreases events
  {
    if events != [] {
      StepBounded(v, events[0], cap, n, q);
      RunBounded(After(v, events[0], cap), events[1..], cap, n, q);
    }
  }

  /** However the k workers that ever joined below a scope interleave their checks and spends of at most c
      each, and whatever scopes join meanwhile, what was not spent under an allowed overrun stays below the
      limit plus k times c, and within k times c when the limit is zero. */
  lemma OvershootBounded<T>(v: World<T>, events: seq<Event<T>>, cap: Counters, n: T, q: Gauge)
    requires Initial(v) && Legal(v, events, cap) && Within(ZERO, cap) && n in Runs(v, events, cap).tree.used
    ensures var r := Runs(v, events, cap);
            Fits(LimitOf(r, n, q), Normal(r, n, q), 0, |Under(r, n)|, Measure(cap, Subscription(r.tree, n), q))
  {
    if n in v.tree.used { InitialBounded(v, cap, n, q); }
    RunBounded(v, events, cap, n, q);
    var r := Runs(v, events, cap);
    var c := Measure(cap, Subscription(r.tree, n), q);
    FitsFewer(LimitOf(r, n, q), Normal(r, n, q), |Ready(r, n)|, 0, |Under(r, n)|, c);
  }
}
