/** What no run of the stage machine does, whatever interrupts it. */
module StageMachineProperties {
  import opened Wrappers
  import opened StageMachine

  // ---- Provenance ----

  /** Where a document may come from: it is the fallback, a text the compile check accepted or published
      bytes seen before, or, if the first stub could not be written, what the file held at the start. */
  ghost predicate Known(disk: Option<Doc>, stubOk: bool, seen: seq<Event>, doc: Doc) {
    || doc.Fallback?
    || Accepted(doc.tex) in seen || PublishedRead(doc.tex) in seen
    || (!stubOk && disk == Some(doc))
  }

  ghost predicate Sound(disk: Option<Doc>, stubOk: bool, trace: seq<Event>) {
    forall i :: 0 <= i < |trace| ==>
      match trace[i]
      case Wrote(doc) => Known(disk, stubOk, trace[..i], doc)
      case Recorded(r) => Known(disk, stubOk, trace[..i], r.doc)
      case _ => true
  }

  ghost predicate SoundWorld(disk: Option<Doc>, stubOk: bool, w: World) {
    && Sound(disk, stubOk, w.trace)
    && (w.disk.Some? ==> Known(disk, stubOk, w.trace, w.disk.value))
    && (w.recorded.Some? ==> Known(disk, stubOk, w.trace, w.recorded.value.doc))
  }

  lemma KnownLater(disk: Option<Doc>, stubOk: bool, seen: seq<Event>, more: seq<Event>, doc: Doc)
    requires Known(disk, stubOk, seen, doc)
    ensures Known(disk, stubOk, seen + more, doc)
  {
  }

  lemma SoundSnoc(disk: Option<Doc>, stubOk: bool, trace: seq<Event>, e: Event)
    requires Sound(disk, stubOk, trace)
    requires e.Wrote? ==> Known(disk, stubOk, trace, e.doc)
    requires e.Recorded? ==> Known(disk, stubOk, trace, e.result.doc)
    ensures Sound(disk, stubOk, trace + [e])
  {
    var all := trace + [e];
    forall i | 0 <= i < |all|
      ensures all[i].Wrote? ==> Known(disk, stubOk, all[..i], all[i].doc)
      ensures all[i].Recorded? ==> Known(disk, stubOk, all[..i], all[i].result.doc)
    {
      if i < |trace| { assert all[..i] == trace[..i]; } else { assert all[..i] == trace; }
    }
  }

  /** What an attempt ships is known once what it saw is counted. */
  ghost predicate SoundAttempt(disk: Option<Doc>, stubOk: bool, w: World, a: Attempt) {
    && (|a.seen| <= 1 && forall e :: e in a.seen ==> e.Accepted? || e.PublishedRead?)
    && (a.Shipped? ==> Known(disk, stubOk, w.trace + a.seen, a.doc))
  }

  lemma VerifiedKnown(disk: Option<Doc>, stubOk: bool, w: World, solution: Option<Read>, check: Check,
                      fallback: Status, verified: Status)
    ensures SoundAttempt(disk, stubOk, w, VerifiedOrFallback(solution, check, fallback, verified))
  {
    var a := VerifiedOrFallback(solution, check, fallback, verified);
    assert a.seen != [] ==> (w.trace + a.seen)[|w.trace|] == a.seen[0];
  }

  lemma ShippedKnown(disk: Option<Doc>, stubOk: bool, w: World, s: Shipping, fallback: Status, verified: Status)
    requires SoundWorld(disk, stubOk, w)
    ensures SoundAttempt(disk, stubOk, w, ShipOrFallback(w.disk, s, fallback, verified))
  {
    VerifiedKnown(disk, stubOk, w, s.solution, s.check, fallback, verified);
    var a := ShipOrFallback(w.disk, s, fallback, verified);
    if a.seen == [] { assert w.trace + a.seen == w.trace; }
    else { assert (w.trace + a.seen)[|w.trace|] == a.seen[0]; }
  }

  lemma PreferredKnown(disk: Option<Doc>, stubOk: bool, w: World, a: Attempt, best: Option<Doc>)
    requires SoundAttempt(disk, stubOk, w, a) && (best.Some? ==> Known(disk, stubOk, w.trace, best.value))
    ensures SoundAttempt(disk, stubOk, w, PreferBest(a, best))
  {
    if best.Some? { KnownLater(disk, stubOk, w.trace, a.seen, best.value); }
  }

  lemma SoundSees(disk: Option<Doc>, stubOk: bool, w: World, a: Attempt)
    requires SoundWorld(disk, stubOk, w) && SoundAttempt(disk, stubOk, w, a)
    ensures SoundWorld(disk, stubOk, Sees(w, a.seen))
  {
    if a.seen == [] {
      assert w.trace + a.seen == w.trace;
    } else {
      assert a.seen == [a.seen[0]] && a.seen[0] in a.seen;
      SoundSnoc(disk, stubOk, w.trace, a.seen[0]);
    }
  }

  lemma SoundWrite(disk: Option<Doc>, stubOk: bool, w: World, doc: Doc)
    requires SoundWorld(disk, stubOk, w) && Known(disk, stubOk, w.trace, doc)
    ensures SoundWorld(disk, stubOk, Wrote1(w, doc))
    ensures Known(disk, stubOk, Wrote1(w, doc).trace, doc)
  {
    SoundSnoc(disk, stubOk, w.trace, Wrote(doc));
  }

  ghost function WorldOf(s: Step): World {
    match s case Onward(w, _, _, _) => w case Left(w) => w case Returned(w, _) => w
  }

  ghost predicate SoundStep(disk: Option<Doc>, stubOk: bool, s: Step) {
    && SoundWorld(disk, stubOk, WorldOf(s))
    && (s.Onward? && s.best.Some? ==> Known(disk, stubOk, s.world.trace, s.best.value))
    && (s.Returned? ==> Known(disk, stubOk, s.world.trace, s.result.doc))
  }

  lemma EarlySound(disk: Option<Doc>, stubOk: bool, w: World, best: Option<Doc>, s: Shipping, fallback: Status,
                   verified: Status)
    requires SoundWorld(disk, stubOk, w) && (best.Some? ==> Known(disk, stubOk, w.trace, best.value))
    ensures SoundStep(disk, stubOk, EndEarly(w, best, s, fallback, verified))
  {
    ShippedKnown(disk, stubOk, w, s, fallback, verified);
    PreferredKnown(disk, stubOk, w, ShipOrFallback(w.disk, s, fallback, verified), best);
    var a := PreferBest(ShipOrFallback(w.disk, s, fallback, verified), best);
    SoundSees(disk, stubOk, w, a);
    if a.Shipped? { SoundWrite(disk, stubOk, Sees(w, a.seen), a.doc); }
  }

  lemma SnapshotKnown(disk: Option<Doc>, stubOk: bool, w: World, s: StageInput)
    requires s.ran.Exited?
    ensures SoundAttempt(disk, stubOk, w, Snapshot(s))
  {
    if Candidate(s).Some? {
      VerifiedKnown(disk, stubOk, w, Candidate(s), s.check, BudgetExhausted, BudgetExhaustedWithSolution);
      VerifiedKnown(disk, stubOk, w, Candidate(s), s.check, SolutionContractError, StageStatus(s));
    }
  }

  lemma StageSound(disk: Option<Doc>, stubOk: bool, w: World, best: Option<Doc>, s: StageInput, hasNext: bool)
    requires SoundWorld(disk, stubOk, w) && (best.Some? ==> Known(disk, stubOk, w.trace, best.value))
    ensures SoundStep(disk, stubOk, StageStep(w, best, s, hasNext))
  {
    match s.ran
    case Cancelled =>
      EarlySound(disk, stubOk, w, best, s.ship, if s.ship.stopBefore then OperatorStopped else DeadlineCancelled,
                 if s.ship.stopBefore then OperatorStoppedWithSolution else DeadlineCancelledWithSolution);
    case Failed => EarlySound(disk, stubOk, w, best, s.ship, AdapterError, AdapterErrorWithSolution);
    case Exited(code) =>
      var a := Snapshot(s);
      SnapshotKnown(disk, stubOk, w, s);
      SoundSees(disk, stubOk, w, a);
      if best.Some? { KnownLater(disk, stubOk, w.trace, a.seen, best.value); }
      if a.Shipped? && s.cut != BeforeWrite {
        var doc := BestForSnapshot(a, best);
        SoundWrite(disk, stubOk, Sees(w, a.seen), doc);
        if best.Some? { KnownLater(disk, stubOk, w.trace + a.seen, [Wrote(doc)], best.value); }
        var solved := StageSolved(s, a.status);
        RecordSound(disk, stubOk, Wrote1(Sees(w, a.seen), doc), best, doc,
                    Result(a.status, doc, solved, hasNext && !(solved || code != 0 || s.budget)));
      }
  }

  lemma RecordSound(disk: Option<Doc>, stubOk: bool, w: World, best: Option<Doc>, doc: Doc, r: Result)
    requires SoundWorld(disk, stubOk, w) && Known(disk, stubOk, w.trace, doc) && r.doc == doc
    requires best.Some? ==> Known(disk, stubOk, w.trace, best.value)
    ensures SoundWorld(disk, stubOk, w.(recorded := Some(r), trace := w.trace + [Recorded(r)]))
    ensures Known(disk, stubOk, w.trace + [Recorded(r)], doc)
    ensures best.Some? ==> Known(disk, stubOk, w.trace + [Recorded(r)], best.value)
  {
    SoundSnoc(disk, stubOk, w.trace, Recorded(r));
  }

  lemma {:induction false} LoopSound(disk: Option<Doc>, stubOk: bool, w: World, best: Option<Doc>, code: int,
                                     script: Script, i: nat)
    requires i <= |script.stages|
    requires SoundWorld(disk, stubOk, w) && (best.Some? ==> Known(disk, stubOk, w.trace, best.value))
    ensures SoundStep(disk, stubOk, Loop(w, best, code, script, i))
    decreases |script.stages| - i
  {
    if i < |script.stages| {
      StageSound(disk, stubOk, w, best, script.stages[i], i + 1 < |script.stages|);
      var step := StageStep(w, best, script.stages[i], i + 1 < |script.stages|);
      if step.Onward? && !step.stop { LoopSound(disk, stubOk, step.world, step.best, step.code, script, i + 1); }
    }
  }

  ghost predicate SoundEnded(disk: Option<Doc>, stubOk: bool, e: Ended) {
    && SoundWorld(disk, stubOk, e.world)
    && (e.result.Some? ==> Known(disk, stubOk, e.world.trace, e.result.value.doc))
  }

  lemma FinishSound(disk: Option<Doc>, stubOk: bool, w: World, best: Option<Doc>, code: int, f: FinalInput)
    requires SoundWorld(disk, stubOk, w) && (best.Some? ==> Known(disk, stubOk, w.trace, best.value))
    ensures SoundEnded(disk, stubOk, Finish(w, best, code, f))
  {
    var a0 := FinalAttempt(w, code, f);
    var a := PreferBest(a0, best);
    ShippedKnown(disk, stubOk, w, f.ship, WorkflowError, WorkflowErrorWithSolution);
    ShippedKnown(disk, stubOk, w, f.ship, BudgetExhausted, BudgetExhaustedWithSolution);
    VerifiedKnown(disk, stubOk, w, f.found, f.check, SolutionContractError, if f.partial then PartialUnreviewed
        else Ok);
    PreferredKnown(disk, stubOk, w, a0, best);
    SoundSees(disk, stubOk, w, a);
    if a.Shipped? { SoundWrite(disk, stubOk, Sees(w, a.seen), a.doc); }
  }

  lemma ExceptionSound(disk: Option<Doc>, stubOk: bool, w: World, s: Shipping)
    requires SoundWorld(disk, stubOk, w)
    ensures SoundEnded(disk, stubOk, ExceptionResult(w, s))
  {
    var a := ShipOrFallback(w.disk, s, AdapterError, AdapterErrorWithSolution);
    ShippedKnown(disk, stubOk, w, s, AdapterError, AdapterErrorWithSolution);
    SoundSees(disk, stubOk, w, a);
    if a.Shipped? { SoundWrite(disk, stubOk, Sees(w, a.seen), a.doc); }
  }

  /** Over every run, each document written to the file, recorded or returned is a fallback, a text the
      exact-compile check had accepted, or hash-checked published bytes (or, when not even the first stub
      could be written, what the file held before). */
  lemma EveryDocumentKnown(disk: Option<Doc>, script: Script)
    ensures SoundEnded(disk, script.stubOk, Run(disk, script))
  {
    var w0 := World(disk, None, []);
    if script.stubOk {
      SoundSnoc(None, true, [], Wrote(Fallback));
      assert Stub(w0, script).trace == [Wrote(Fallback)];
    }
    var w := Stub(w0, script);
    assert SoundWorld(disk, script.stubOk, w);
    if script.inputError {
      SoundWrite(disk, script.stubOk, w, Fallback);
    } else {
      LoopSound(disk, script.stubOk, w, None, 0, script, 0);
      var step := Loop(w, None, 0, script, 0);
      if step.Onward? { FinishSound(disk, script.stubOk, step.world, step.best, step.code, script.final); }
    }
    var e := RunProblem(w0, script);
    assert SoundEnded(disk, script.stubOk, e);
    ExceptionSound(disk, script.stubOk, e.world, script.recovery);
    var r := Recover(e, script);
    ExceptionSound(disk, script.stubOk, r.world, script.last);
  }
}
