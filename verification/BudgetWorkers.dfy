/** Which workers there are and which of them may spend, told from the events of a run. */
module BudgetWorkers {
  import opened Wrappers
  import BudgetTree
  import opened Budget
  import opened BudgetOvershoot

  lemma {:induction false} RunsLast<T>(v: World<T>, events: seq<Event<T>>, e: Event<T>, cap: BudgetTree.Counters)
    requires Valid(v) && Legal(v, events + [e], cap)
    ensures Legal(v, events, cap) && Enabled(Runs(v, events, cap), e, cap)
    ensures Runs(v, events + [e], cap) == After(Runs(v, events, cap), e, cap)
    decreases events
  {
    var all := events + [e];
    if events == [] {
      assert all[0] == e && all[1..] == [];
    } else {
      assert all[0] == events[0] && all[1..] == events[1..] + [e];
      RunsLast(After(v, events[0], cap), events[1..], e, cap);
    }
  }

  /** A worker may spend after its last event if that was a check that allowed overruns or found no limit of
      its scopes spent. */
  ghost predicate MaySpend<T>(v: World<T>, events: seq<Event<T>>, cap: BudgetTree.Counters, id: nat, overrun: bool)
    requires Valid(v)
  {
    if events == [] then id in v.workers && v.workers[id].phase == Passed(overrun)
    else
      var init := events[..|events| - 1];
      match events[|events| - 1]
      case Check(w, o, wallclock) =>
        if w != id then MaySpend(v, init, cap, id, overrun)
        else
          && o == overrun && Legal(v, init, cap) && id in Runs(v, init, cap).workers
          && (o || Passes(Runs(v, init, cap), Runs(v, init, cap).workers[id].at, wallclock))
      case Spending(w, _) => w != id && MaySpend(v, init, cap, id, overrun)
      case Hire(w, _) => w != id && MaySpend(v, init, cap, id, overrun)
      case Scope(_, _, _) => MaySpend(v, init, cap, id, overrun)
  }

  lemma StepWorkers<T>(v: World<T>, e: Event<T>, cap: BudgetTree.Counters, id: nat)
    requires Valid(v) && Enabled(v, e, cap)
    ensures var t := After(v, e, cap);
            && (id in t.workers <==> id in v.workers || (e.Hire? && e.w == id))
            && (id in t.workers ==> t.workers[id].at == if e.Hire? && e.w == id then e.at else v.workers[id].at)
  {
  }

  lemma StepPhase<T>(v: World<T>, e: Event<T>, cap: BudgetTree.Counters, id: nat)
    requires Valid(v) && Enabled(v, e, cap) && id in After(v, e, cap).workers
    ensures var phase := After(v, e, cap).workers[id].phase;
            match e
            case Check(w, o, wallclock) =>
              if w != id then id in v.workers && phase == v.workers[id].phase
              else id in v.workers && phase == if o || Passes(v, v.workers[id].at, wallclock) then Passed(o) else Idle
            case Spending(w, _) => if w == id then phase == Idle else id in v.workers && phase == v.workers[id].phase
            case Hire(w, _) => if w == id then phase == Idle else id in v.workers && phase == v.workers[id].phase
            case Scope(_, _, _) => id in v.workers && phase == v.workers[id].phase
  {
  }

  lemma PhaseLast<T>(v: World<T>, init: seq<Event<T>>, e: Event<T>, cap: BudgetTree.Counters, id: nat, overrun: bool)
    requires Valid(v) && Legal(v, init, cap) && Enabled(Runs(v, init, cap), e, cap)
    requires id in Runs(v, init, cap).workers && Runs(v, init, cap).workers[id].phase == Passed(overrun)
             <==> MaySpend(v, init, cap, id, overrun)
    ensures var t := After(Runs(v, init, cap), e, cap);
            id in t.workers && t.workers[id].phase == Passed(overrun) <==> MaySpend(v, init + [e], cap, id, overrun)
  {
    var r := Runs(v, init, cap);
    assert (init + [e])[..|init|] == init && (init + [e])[|init|] == e;
    StepWorkers(r, e, cap, id);
    if id in After(r, e, cap).workers { StepPhase(r, e, cap, id); }
  }

  /** Which workers may spend is told by the last event of each. */
  lemma {:induction false} SpendersTold<T>(v: World<T>, events: seq<Event<T>>, cap: BudgetTree.Counters, id: nat,
                                           overrun: bool)
    requires Valid(v) && Legal(v, events, cap)
    ensures var r := Runs(v, events, cap);
            id in r.workers && r.workers[id].phase == Passed(overrun) <==> MaySpend(v, events, cap, id, overrun)
    decreases |events|
  {
    if events != [] {
      var init, e := events[..|events| - 1], events[|events| - 1];
      assert events == init + [e];
      RunsLast(v, init, e, cap);
      SpendersTold(v, init, cap, id, overrun);
      PhaseLast(v, init, e, cap, id, overrun);
    }
  }

  /** `r` has the workers of `v` and those hired, each where it was hired. */
  ghost predicate HasWorkers<T(!new)>(v: World<T>, r: World<T>, events: seq<Event<T>>, id: nat) {
    && (id in r.workers <==> id in v.workers || exists at :: Hire(id, at) in events)
    && (id in v.workers && id in r.workers ==> r.workers[id].at == v.workers[id].at)
    && (id in r.workers && id !in v.workers ==> Hire(id, r.workers[id].at) in events)
  }

  lemma HiresLast<T(!new)>(init: seq<Event<T>>, e: Event<T>, id: nat)
    ensures forall at :: Hire(id, at) in init + [e] <==> Hire(id, at) in init || e == Hire(id, at)
  {
  }

  lemma WorkersLast<T(!new)>(v: World<T>, r: World<T>, t: World<T>, init: seq<Event<T>>, e: Event<T>, id: nat)
    requires HasWorkers(v, r, init, id)
    requires id in t.workers <==> id in r.workers || (e.Hire? && e.w == id)
    requires id in r.workers ==> !(e.Hire? && e.w == id)
    requires id in t.workers ==> t.workers[id].at == if e.Hire? && e.w == id then e.at else r.workers[id].at
    ensures HasWorkers(v, t, init + [e], id)
  {
    HiresLast(init, e, id);
    if e.Hire? && e.w == id { assert e == Hire(id, e.at); }
  }

  /** The workers of a run are those there at the start and those hired, each where it was hired. */
  lemma {:induction false} WorkersTold<T(!new)>(v: World<T>, events: seq<Event<T>>, cap: BudgetTree.Counters, id: nat)
    requires Valid(v) && Legal(v, events, cap)
    ensures HasWorkers(v, Runs(v, events, cap), events, id)
    decreases |events|
  {
    if events != [] {
      var init, e := events[..|events| - 1], events[|events| - 1];
      assert events == init + [e];
      RunsLast(v, init, e, cap);
      WorkersTold(v, init, cap, id);
      StepWorkers(Runs(v, init, cap), e, cap, id);
      WorkersLast(v, Runs(v, init, cap), Runs(v, events, cap), init, e, id);
    }
  }
}
