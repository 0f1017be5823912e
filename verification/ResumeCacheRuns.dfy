/** What a run has stored, returned and left in flight, told from its steps. */
module ResumeCacheRuns {
  import opened Wrappers
  import opened ResumeCache

  // ---- The steps of one call ----

  function IdOf(s: Step): CallId {
    match s case Start(id, _) => id case End(id, _) => id case Return(id) => id case Fail(id) => id
  }

  /** The key that the last start of this call asked for. */
  function KeyOf(steps: seq<Step>, id: CallId): Option<Key> {
    if steps == [] then None
    else
      match steps[|steps| - 1]
      case Start(i, key) => if i == id then Some(key) else KeyOf(steps[..|steps| - 1], id)
      case _ => KeyOf(steps[..|steps| - 1], id)
  }

  /** The value that the last end of this call's run had. */
  function ValueAt(steps: seq<Step>, id: CallId): Option<string> {
    if steps == [] then None
    else
      match steps[|steps| - 1]
      case End(i, value) => if i == id then Some(value) else ValueAt(steps[..|steps| - 1], id)
      case _ => ValueAt(steps[..|steps| - 1], id)
  }

  /** What a call that starts is answered with at once. */
  function HitOf(p: Policy, r: Run, s: Step): Option<string> {
    match s case Start(_, key) => Replayable(p, [r.dir] + r.prior, key) case _ => None
  }

  /** What a step returns to its caller: at a start what the cache answers, and at a return the value of the
      call's own run. */
  function AnswerOf(p: Policy, r: Run, before: seq<Step>, s: Step): Option<Answer> {
    match s
    case Start(_, key) => (match HitOf(p, r, s) case Some(value) => Some(Answer(key, value, false)) case None => None)
    case Return(id) =>
      var key, value := KeyOf(before, id), ValueAt(before, id);
      if key.Some? && value.Some? then Some(Answer(key.value, value.value, true)) else None
    case _ => None
  }

  /** What it stores: what the cache answered, and at the end of a run its value, if the agent uses the cache and
      may reuse it. */
  function PutOf(p: Policy, r: Run, before: seq<Step>, s: Step): Option<(Key, string)> {
    match s
    case Start(_, key) => (match HitOf(p, r, s) case Some(value) => Some((key, value)) case None => None)
    case End(id, value) =>
      var key := KeyOf(before, id);
      if key.Some? && p.enabled(key.value) && p.reusable(key.value, value) then Some((key.value, value)) else None
    case _ => None
  }

  function With<T>(xs: seq<T>, x: Option<T>): seq<T> {
    match x case Some(y) => xs + [y] case None => xs
  }

  ghost function Answers(p: Policy, start: Run, steps: seq<Step>): seq<Answer> {
    if steps == [] then []
    else
      var init := steps[..|steps| - 1];
      With(Answers(p, start, init), if Legal(p, start, init) then AnswerOf(p, Runs(p, start, init), init,
                                                                            steps[|steps| - 1]) else None)
  }

  ghost function Puts(p: Policy, start: Run, steps: seq<Step>): seq<(Key, string)> {
    if steps == [] then []
    else
      var init := steps[..|steps| - 1];
      With(Puts(p, start, init), if Legal(p, start, init) then PutOf(p, Runs(p, start, init), init, steps[|steps| - 1])
                                 else None)
  }

  /** A call is in flight from a start that the cache does not answer until it returns or fails. */
  ghost predicate InFlight(p: Policy, start: Run, steps: seq<Step>, id: CallId) {
    if steps == [] then false
    else
      var init, last := steps[..|steps| - 1], steps[|steps| - 1];
      if IdOf(last) != id then InFlight(p, start, init, id)
      else
        match last
        case Start(_, _) => Legal(p, start, init) && HitOf(p, Runs(p, start, init), last).None?
        case End(_, _) => true
        case _ => false
  }

  /** Its run has ended. */
  predicate Ended(steps: seq<Step>, id: CallId) {
    if steps == [] then false
    else if IdOf(steps[|steps| - 1]) != id then Ended(steps[..|steps| - 1], id)
    else steps[|steps| - 1].End?
  }

  /** What the directory holds for a key: the value put last, or what it held at the start. */
  function Held(dir: Dir, puts: seq<(Key, string)>, key: Key): Option<Entry> {
    if puts == [] then (if key in dir then Some(dir[key]) else None)
    else if puts[|puts| - 1].0 == key then Some(Output(puts[|puts| - 1].1))
    else Held(dir, puts[..|puts| - 1], key)
  }

  // ---- Runs by their last step ----

  lemma {:induction false} RunsLast(p: Policy, r: Run, steps: seq<Step>, s: Step)
    requires Legal(p, r, steps + [s])
    ensures Legal(p, r, steps) && Enabled(Runs(p, r, steps), s)
    ensures Runs(p, r, steps + [s]) == After(p, Runs(p, r, steps), s)
    decreases steps
  {
    var all := steps + [s];
    if steps == [] {
      assert all[0] == s && all[1..] == [];
    } else {
      assert all[0] == steps[0] && all[1..] == steps[1..] + [s];
      RunsLast(p, After(p, r, steps[0]), steps[1..], s);
    }
  }

  ghost predicate CallTold(p: Policy, start: Run, steps: seq<Step>, r: Run, id: CallId) {
    && (id in r.calls <==> InFlight(p, start, steps, id))
    && (id in r.calls ==>
          && KeyOf(steps, id) == Some(r.calls[id].key)
          && (r.calls[id].Kept? <==> Ended(steps, id))
          && (r.calls[id].Kept? ==> ValueAt(steps, id) == Some(r.calls[id].value)))
  }

  ghost predicate DirTold(start: Run, r: Run) {
    forall key :: (if key in r.dir then Some(r.dir[key]) else None) == Held(start.dir, r.puts, key)
  }

  lemma CallStep(p: Policy, start: Run, steps: seq<Step>, s: Step, id: CallId)
    requires Legal(p, start, steps) && Enabled(Runs(p, start, steps), s)
    requires CallTold(p, start, steps, Runs(p, start, steps), id)
    ensures CallTold(p, start, steps + [s], After(p, Runs(p, start, steps), s), id)
  {
    var all := steps + [s];
    assert all[..|all| - 1] == steps && all[|all| - 1] == s;
  }

  lemma ListsStep(p: Policy, start: Run, steps: seq<Step>, s: Step)
    requires Legal(p, start, steps) && Enabled(Runs(p, start, steps), s)
    requires forall id :: CallTold(p, start, steps, Runs(p, start, steps), id)
    ensures var r, t := Runs(p, start, steps), After(p, Runs(p, start, steps), s);
            && t.returned == With(r.returned, AnswerOf(p, r, steps, s)) && t.puts == With(r.puts, PutOf(p, r, steps, s))
            && t.prior == r.prior
  {
    assert CallTold(p, start, steps, Runs(p, start, steps), IdOf(s));
  }

  lemma DirStep(p: Policy, start: Run, r: Run, s: Step)
    requires Enabled(r, s) && DirTold(start, r)
    ensures DirTold(start, After(p, r, s))
  {
    var t := After(p, r, s);
    if t.puts != r.puts {
      assert t.puts[..|t.puts| - 1] == r.puts;
    }
  }

  lemma ToldNext(p: Policy, start: Run, steps: seq<Step>, s: Step)
    requires Legal(p, start, steps)
    ensures Answers(p, start, steps + [s])
            == With(Answers(p, start, steps), AnswerOf(p, Runs(p, start, steps), steps, s))
    ensures Puts(p, start, steps + [s]) == With(Puts(p, start, steps), PutOf(p, Runs(p, start, steps), steps, s))
  {
    var all := steps + [s];
    assert all[..|all| - 1] == steps && all[|all| - 1] == s;
  }

  /** A run returns and stores exactly what its steps say, in their order; its directory holds the values put
      last; and the calls in flight are those not yet answered, returned or failed, each with the key it asked
      for and, once its run ended, that run's value. */
  lemma {:induction false} RunTold(p: Policy, start: Run, steps: seq<Step>)
    requires Legal(p, start, steps) && start == NewRun(start.dir, start.prior)
    ensures var r := Runs(p, start, steps);
            && r.returned == Answers(p, start, steps) && r.puts == Puts(p, start, steps) && r.prior == start.prior
            && DirTold(start, r) && forall id :: CallTold(p, start, steps, r, id)
    decreases |steps|
  {
    if steps != [] {
      var init, s := steps[..|steps| - 1], steps[|steps| - 1];
      assert steps == init + [s];
      RunsLast(p, start, init, s);
      RunTold(p, start, init);
      ListsStep(p, start, init, s);
      DirStep(p, start, Runs(p, start, init), s);
      ToldNext(p, start, init, s);
      forall id ensures CallTold(p, start, steps, Runs(p, start, steps), id) { CallStep(p, start, init, s, id); }
    }
  }

  ghost predicate Next(p: Policy, start: Run, steps: seq<Step>, s: Step) {
    match s
    case Start(id, _) => !InFlight(p, start, steps, id)
    case End(id, _) => InFlight(p, start, steps, id) && !Ended(steps, id)
    case Return(id) => InFlight(p, start, steps, id) && Ended(steps, id)
    case Fail(id) => InFlight(p, start, steps, id) && !Ended(steps, id)
  }

  /** Which steps can come next: a call starts that is not in flight, its run ends or fails while it runs, and it
      returns once its run has ended. */
  lemma MayCome(p: Policy, start: Run, steps: seq<Step>, s: Step)
    requires Legal(p, start, steps) && start == NewRun(start.dir, start.prior)
    ensures Enabled(Runs(p, start, steps), s) <==> Next(p, start, steps, s)
  {
    RunTold(p, start, steps);
    assert CallTold(p, start, steps, Runs(p, start, steps), IdOf(s));
  }
}
