/** When a verified document can be lost to a fallback, exactly. */
module StageMachineSafety {
  import opened Wrappers
  import opened StageMachine

  ghost predicate WroteText(trace: seq<Event>) {
    exists i :: 0 <= i < |trace| && trace[i].Wrote? && trace[i].doc.Text?
  }

  /** A fallback was written over a document. */
  ghost predicate Lost(trace: seq<Event>) {
    exists i, k :: 0 <= i < k < |trace| && trace[i].Wrote? && trace[i].doc.Text? && trace[k] == Wrote(Fallback)
  }

  /** A stage result that the adapter counts as a verified stage solution reached the result list. */
  ghost predicate CleanRecorded(trace: seq<Event>) {
    exists i :: 0 <= i < |trace| && trace[i].Recorded? && Clean(trace[i].result.status)
  }

  lemma TraceSnoc(trace: seq<Event>, e: Event)
    ensures WroteText(trace + [e]) <==> WroteText(trace) || (e.Wrote? && e.doc.Text?)
    ensures Lost(trace + [e]) <==> Lost(trace) || (WroteText(trace) && e == Wrote(Fallback))
    ensures CleanRecorded(trace + [e]) <==> CleanRecorded(trace) || (e.Recorded? && Clean(e.result.status))
  {
    var all := trace + [e];
    assert all[|trace|] == e && forall i :: 0 <= i < |trace| ==> all[i] == trace[i];
    if i :| 0 <= i < |trace| && trace[i].Wrote? && trace[i].doc.Text? { assert all[i] == trace[i]; }
    if i, k :| 0 <= i < k < |trace| && trace[i].Wrote? && trace[i].doc.Text? && trace[k] == Wrote(Fallback) {
      assert all[i] == trace[i] && all[k] == trace[k];
    }
    if i :| 0 <= i < |trace| && trace[i].Recorded? && Clean(trace[i].result.status) { assert all[i] == trace[i]; }
  }

  lemma TraceSees(trace: seq<Event>, seen: seq<Event>)
    requires |seen| <= 1 && forall e :: e in seen ==> e.Accepted? || e.PublishedRead?
    ensures WroteText(trace + seen) <==> WroteText(trace)
    ensures Lost(trace + seen) <==> Lost(trace)
    ensures CleanRecorded(trace + seen) <==> CleanRecorded(trace)
  {
    if seen == [] { assert trace + seen == trace; }
    else {
      assert seen[0] in seen && seen == [seen[0]];
      TraceSnoc(trace, seen[0]);
    }
  }

  predicate HasText(d: Option<Doc>) {
    d.Some? && d.value.Text?
  }

  /** Nothing lost so far; a document once written is still on disk, and a clean stage is on record. */
  ghost predicate Good(w: World) {
    && !Lost(w.trace)
    && (WroteText(w.trace) ==> HasText(w.disk))
    && (CleanRecorded(w.trace) ==> WroteText(w.trace) && w.recorded.Some? && w.recorded.value.doc.Text?)
  }

  ghost predicate Quiet(a: Attempt) {
    |a.seen| <= 1 && forall e :: e in a.seen ==> e.Accepted? || e.PublishedRead?
  }

  lemma GoodSees(w: World, a: Attempt)
    requires Good(w) && Quiet(a)
    ensures Good(Sees(w, a.seen)) && (WroteText(Sees(w, a.seen).trace) <==> WroteText(w.trace))
    ensures CleanRecorded(Sees(w, a.seen).trace) <==> CleanRecorded(w.trace)
  {
    TraceSees(w.trace, a.seen);
  }

  lemma GoodWrite(w: World, doc: Doc)
    requires Good(w)
    ensures Lost(Wrote1(w, doc).trace) <==> WroteText(w.trace) && doc.Fallback?
    ensures WroteText(Wrote1(w, doc).trace) <==> WroteText(w.trace) || doc.Text?
    ensures CleanRecorded(Wrote1(w, doc).trace) <==> CleanRecorded(w.trace)
    ensures doc.Text? || !WroteText(w.trace) ==> Good(Wrote1(w, doc))
  {
    TraceSnoc(w.trace, Wrote(doc));
  }

  /** A finalization without a shutdown finds nothing it can verify. */
  predicate Unverifiable(s: Shipping) {
    !s.escapes && !s.Shutdown() && (s.solution.None? || s.solution.value.ReadError? || s.check == Reject)
  }

  lemma ShipWithText(w: World, s: Shipping, fallback: Status, verified: Status)
    requires Good(w) && WroteText(w.trace) && s.readable
    ensures var a := ShipOrFallback(w.disk, s, fallback, verified);
            a.Shipped? ==> ((a.doc.Fallback? <==> Unverifiable(s)) && (a.doc.Fallback? ==> a.status == fallback))
  {
  }

  lemma ShipQuiet(disk: Option<Doc>, s: Shipping, fallback: Status, verified: Status)
    ensures Quiet(ShipOrFallback(disk, s, fallback, verified))
  {
  }

  // ---- The stages ----

  ghost predicate LoopInv(w: World, best: Option<Doc>) {
    && Good(w) && (WroteText(w.trace) <==> best.Some?) && (best.Some? ==> best.value.Text?)
    && (best.None? ==> !CleanRecorded(w.trace))
    && (best.Some? ==> w.recorded.Some? && w.recorded.value.doc.Text?)
  }

  ghost predicate StepInv(s: Step) {
    match s
    case Left(w) => Good(w)
    case Returned(w, r) =>
      && Good(w) && !r.inProgress && (WroteText(w.trace) <==> r.doc.Text?)
      && (CleanRecorded(w.trace) ==> r.doc.Text?)
    case Onward(w, best, code, stop) =>
      if !stop then LoopInv(w, best)
      else
        && Good(w) && w.recorded.Some?
        && (best.Some? ==> best.value.Text? && WroteText(w.trace) && w.recorded.value.doc.Text?)
        && (best.None? ==> !CleanRecorded(w.trace)) && (best.None? && WroteText(w.trace) ==> code == 0)
  }

  lemma EarlyInv(w: World, best: Option<Doc>, s: Shipping, fallback: Status, verified: Status)
    requires LoopInv(w, best) && s.readable
    requires FinalFallback(fallback) || (fallback == OperatorStopped && s.stopBefore)
    ensures StepInv(EndEarly(w, best, s, fallback, verified))
  {
    var a := PreferBest(ShipOrFallback(w.disk, s, fallback, verified), best);
    ShipQuiet(w.disk, s, fallback, verified);
    GoodSees(w, a);
    if best.Some? { ShipWithText(w, s, fallback, verified); }
    if a.Shipped? { GoodWrite(Sees(w, a.seen), a.doc); }
  }

  lemma SnapshotDoc(s: StageInput)
    requires s.ran.Exited?
    ensures var a := Snapshot(s);
            Quiet(a) && (a.Shipped? ==>
              && (FinalFallback(a.status) <==> !Clean(a.status))
              && (a.doc.Text? <==> Clean(a.status) || a.status == BudgetExhaustedWithSolution)
              && (a.status == BudgetExhaustedWithSolution ==> s.budget && s.ran.code == 0))
  {
  }

  lemma RecordInv(w: World, r: Result)
    requires Good(w) && (Clean(r.status) || CleanRecorded(w.trace) ==> r.doc.Text? && WroteText(w.trace))
    ensures var v := w.(recorded := Some(r), trace := w.trace + [Recorded(r)]);
            Good(v) && (WroteText(v.trace) <==> WroteText(w.trace))
            && (CleanRecorded(v.trace) <==> CleanRecorded(w.trace) || Clean(r.status))
  {
    TraceSnoc(w.trace, Recorded(r));
  }

  lemma StageInv(w: World, best: Option<Doc>, s: StageInput, hasNext: bool)
    requires LoopInv(w, best) && s.ship.readable
    ensures StepInv(StageStep(w, best, s, hasNext))
  {
    match s.ran
    case Cancelled =>
      EarlyInv(w, best, s.ship, if s.ship.stopBefore then OperatorStopped else DeadlineCancelled,
               if s.ship.stopBefore then OperatorStoppedWithSolution else DeadlineCancelledWithSolution);
    case Failed => EarlyInv(w, best, s.ship, AdapterError, AdapterErrorWithSolution);
    case Exited(code) =>
      var a := Snapshot(s);
      SnapshotDoc(s);
      GoodSees(w, a);
      if a.Shipped? && s.cut != BeforeWrite {
        var doc := BestForSnapshot(a, best);
        var written := Wrote1(Sees(w, a.seen), doc);
        GoodWrite(Sees(w, a.seen), doc);
        var solved := StageSolved(s, a.status);
        RecordInv(written, Result(a.status, doc, solved, hasNext && !(solved || code != 0 || s.budget)));
      }
  }

  predicate Readable(script: Script) {
    && (forall s :: s in script.stages ==> s.ship.readable)
    && script.final.ship.readable && script.recovery.readable && script.last.readable
  }

  /** A stop, once requested, stays requested. */
  predicate StopsStay(script: Script) {
    (script.stopAtRecovery ==> script.recovery.Stop()) && (script.stopAtEnd ==> script.last.Stop())
  }

  lemma {:induction false} LoopKeeps(w: World, best: Option<Doc>, code: int, script: Script, i: nat)
    requires i <= |script.stages| && Readable(script) && LoopInv(w, best)
    requires i == |script.stages| ==> w.recorded.Some?
    ensures StepInv(Loop(w, best, code, script, i))
    ensures Loop(w, best, code, script, i).Onward? ==> Loop(w, best, code, script, i).stop
    decreases |script.stages| - i
  {
    if i < |script.stages| {
      assert script.stages[i] in script.stages;
      StageInv(w, best, script.stages[i], i + 1 < |script.stages|);
      var step := StageStep(w, best, script.stages[i], i + 1 < |script.stages|);
      if step.Onward? && !step.stop { LoopKeeps(step.world, step.best, step.code, script, i + 1); }
    }
  }

  // ---- The finalization ----

  /** The finalization after exit code 0 finds nothing it can verify. */
  predicate FinalUnverifiable(f: FinalInput) {
    if f.budget then Unverifiable(f.ship)
    else f.found.None? || f.rejects || f.found.value.ReadError? || f.check == Reject
  }

  lemma FinishInv(w: World, best: Option<Doc>, code: int, f: FinalInput)
    requires StepInv(Onward(w, best, code, true)) && f.ship.readable
    ensures var e := Finish(w, best, code, f);
            && (Lost(e.world.trace) <==> best.None? && WroteText(w.trace) && !f.escapes && FinalUnverifiable(f))
            && (!Lost(e.world.trace) ==> Good(e.world))
            && (CleanRecorded(e.world.trace) <==> CleanRecorded(w.trace))
            && e.world.recorded == w.recorded
            && (e.result.Some? ==> !e.result.value.inProgress && (best.Some? ==> e.result.value.doc.Text?))
            && (Lost(e.world.trace) ==> e.result.Some? && e.result.value.doc.Fallback?)
  {
    var a := PreferBest(FinalAttempt(w, code, f), best);
    assert Quiet(a);
    GoodSees(w, a);
    if WroteText(w.trace) {
      ShipWithText(w, f.ship, WorkflowError, WorkflowErrorWithSolution);
      ShipWithText(w, f.ship, BudgetExhausted, BudgetExhaustedWithSolution);
    }
    if a.Shipped? { GoodWrite(Sees(w, a.seen), a.doc); }
  }

  // ---- Recovery ----

  lemma ExceptionInv(w: World, s: Shipping)
    requires Good(w) && s.readable
    ensures var e := ExceptionResult(w, s);
            && (Lost(e.world.trace) <==> WroteText(w.trace) && Unverifiable(s) && !s.writeFails)
            && (!Lost(e.world.trace) ==> Good(e.world))
            && e.world.recorded == w.recorded
            && (CleanRecorded(e.world.trace) <==> CleanRecorded(w.trace))
            && (e.result.Some? ==>
                  !e.result.value.inProgress && (WroteText(w.trace) && s.Shutdown() ==> e.result.value.doc.Text?))
  {
    var a := ShipOrFallback(w.disk, s, AdapterError, AdapterErrorWithSolution);
    ShipQuiet(w.disk, s, AdapterError, AdapterErrorWithSolution);
    GoodSees(w, a);
    if WroteText(w.trace) { ShipWithText(w, s, AdapterError, AdapterErrorWithSolution); }
    if a.Shipped? { GoodWrite(Sees(w, a.seen), a.doc); }
  }

  lemma {:induction false} LostStays(w: World, s: Shipping)
    requires Lost(w.trace)
    ensures Lost(ExceptionResult(w, s).world.trace)
  {
    var a := ShipOrFallback(w.disk, s, AdapterError, AdapterErrorWithSolution);
    ShipQuiet(w.disk, s, AdapterError, AdapterErrorWithSolution);
    TraceSees(w.trace, a.seen);
    if a.Shipped? { TraceSnoc(w.trace + a.seen, Wrote(a.doc)); }
  }

  /** The stages ended on a document verified only under an exhausted budget, no stage counted as a
      verified one, and the finalization cannot verify anything again. */
  ghost predicate EndsOnBudgetText(disk: Option<Doc>, script: Script) {
    && !script.inputError
    && var step := Loop(Stub(World(disk, None, []), script), None, 0, script, 0);
       && step.Onward? && step.best.None? && WroteText(step.world.trace)
       && !script.final.escapes && FinalUnverifiable(script.final)
  }

  /** Nothing is on record, a document was written, and a pass that cannot verify it again follows. */
  ghost predicate EndsUnrecorded(disk: Option<Doc>, script: Script) {
    var e := RunProblem(World(disk, None, []), script);
    var r := Recover(e, script);
    && e.world.recorded.None?
    && ((e.result.None? && WroteText(e.world.trace) && Unverifiable(script.recovery) && !script.recovery.writeFails)
        || (Held(r, script).None? && WroteText(r.world.trace) && Unverifiable(script.last) && !script.last.writeFails))
  }

  lemma StubInv(disk: Option<Doc>, script: Script)
    ensures LoopInv(Stub(World(disk, None, []), script), None)
  {
    var w0 := World(disk, None, []);
    assert Good(w0) && !WroteText([]);
    GoodWrite(w0, Fallback);
  }

  lemma RunProblemInv(disk: Option<Doc>, script: Script)
    requires Readable(script) && script.stages != []
    ensures var e := RunProblem(World(disk, None, []), script);
            && (Lost(e.world.trace) <==> EndsOnBudgetText(disk, script))
            && (!Lost(e.world.trace) ==> Good(e.world))
            && (Lost(e.world.trace) ==> e.world.recorded.Some? && !CleanRecorded(e.world.trace))
            && (Lost(e.world.trace) ==> e.result.Some? && e.result.value.doc.Fallback?)
            && (e.result.Some? ==>
                  !e.result.value.inProgress && (CleanRecorded(e.world.trace) ==> e.result.value.doc.Text?))
  {
    var w := Stub(World(disk, None, []), script);
    StubInv(disk, script);
    if script.inputError {
      GoodWrite(w, Fallback);
    } else {
      LoopKeeps(w, None, 0, script, 0);
      var step := Loop(w, None, 0, script, 0);
      if step.Onward? { FinishInv(step.world, step.best, step.code, script.final); }
    }
  }

  lemma LostByRun(disk: Option<Doc>, script: Script)
    requires Readable(script) && StopsStay(script) && script.stages != []
    ensures Lost(Run(disk, script).world.trace) <==> EndsOnBudgetText(disk, script) || EndsUnrecorded(disk, script)
  {
    RunProblemInv(disk, script);
    var e := RunProblem(World(disk, None, []), script);
    var r := Recover(e, script);
    if Lost(e.world.trace) {
      LostStays(e.world, script.recovery);
      LostStays(r.world, script.last);
    } else {
      ExceptionInv(e.world, script.recovery);
      if Lost(r.world.trace) { LostStays(r.world, script.last); } else { ExceptionInv(r.world, script.last); }
    }
  }

  // ---- The two situations, told from the inputs alone ----

  /** A stage that wrote a text verified under an exhausted budget, and went on to the finalization. */
  predicate BudgetText(s: StageInput) {
    && s.ran == Exited(0) && s.budget && s.cut == NoCut
    && s.found.Some? && s.found.value.ReadText? && s.check == Accept
  }

  /** A stage that ran well, verified nothing, and went on to the next. */
  predicate Passed(s: StageInput) {
    && s.ran == Exited(0) && !s.budget && s.cut == NoCut
    && Snapshot(s).Shipped? && !Clean(Snapshot(s).status)
  }

  predicate BudgetTextAt(stages: seq<StageInput>, i: nat, k: nat) {
    i <= k < |stages| && BudgetText(stages[k]) && forall j :: i <= j < k ==> Passed(stages[j])
  }

  ghost predicate BudgetTextFrom(stages: seq<StageInput>, i: nat) {
    exists k: nat :: BudgetTextAt(stages, i, k)
  }

  /** Some stage exhausted its budget on a text that verified then, all stages before it verified nothing,
      and the finalization cannot verify the text again. */
  ghost predicate BudgetEndgame(script: Script) {
    && !script.inputError && BudgetTextFrom(script.stages, 0)
    && !script.final.escapes && FinalUnverifiable(script.final)
  }

  lemma BudgetTextStep(stages: seq<StageInput>, i: nat)
    requires i < |stages|
    ensures BudgetTextFrom(stages, i) <==> BudgetText(stages[i]) || (Passed(stages[i]) && BudgetTextFrom(stages, i + 1))
  {
    var next := i + 1;
    if BudgetTextFrom(stages, i) {
      var k: nat :| BudgetTextAt(stages, i, k);
      if k > i { assert Passed(stages[i]) && BudgetTextAt(stages, next, k); }
    }
    if BudgetText(stages[i]) { assert BudgetTextAt(stages, i, i); }
    if Passed(stages[i]) && BudgetTextFrom(stages, next) {
      var k: nat :| BudgetTextAt(stages, next, k);
      assert BudgetTextAt(stages, i, k);
    }
  }

  /** What one stage does while nothing has been verified. */
  lemma StageWrites(w: World, s: StageInput, hasNext: bool)
    requires !WroteText(w.trace)
    ensures var step := StageStep(w, None, s, hasNext);
            && (BudgetText(s) ==> step.Onward? && step.stop && step.best.None? && WroteText(step.world.trace))
            && (Passed(s) ==> step.Onward? && !step.stop && step.best.None? && !WroteText(step.world.trace))
            && (!BudgetText(s) && !Passed(s) && step.Onward? ==>
                  step.best.Some? || (step.stop && !WroteText(step.world.trace)))
  {
    if s.ran.Exited? {
      var a := Snapshot(s);
      SnapshotDoc(s);
      TraceSees(w.trace, a.seen);
      if a.Shipped? && s.cut != BeforeWrite {
        TraceSnoc(w.trace + a.seen, Wrote(a.doc));
        var solved := StageSolved(s, a.status);
        var result := Result(a.status, a.doc, solved, hasNext && !(solved || s.ran.code != 0 || s.budget));
        TraceSnoc(w.trace + a.seen + [Wrote(a.doc)], Recorded(result));
      }
    }
  }

  lemma {:induction false} BestStays(w: World, best: Option<Doc>, code: int, script: Script, i: nat)
    requires i <= |script.stages| && best.Some?
    ensures var step := Loop(w, best, code, script, i); step.Onward? ==> step.best.Some?
    decreases |script.stages| - i
  {
    if i < |script.stages| {
      var step := StageStep(w, best, script.stages[i], i + 1 < |script.stages|);
      if step.Onward? && !step.stop { BestStays(step.world, step.best, step.code, script, i + 1); }
    }
  }

  lemma {:induction false} LoopBudgetText(w: World, code: int, script: Script, i: nat)
    requires i <= |script.stages| && !WroteText(w.trace)
    ensures var step := Loop(w, None, code, script, i);
            (step.Onward? && step.best.None? && WroteText(step.world.trace)) <==> BudgetTextFrom(script.stages, i)
    decreases |script.stages| - i
  {
    if i < |script.stages| {
      var s := script.stages[i];
      var step := StageStep(w, None, s, i + 1 < |script.stages|);
      StageWrites(w, s, i + 1 < |script.stages|);
      BudgetTextStep(script.stages, i);
      if step.Onward? && !step.stop {
        if step.best.Some? {
          BestStays(step.world, step.best, step.code, script, i + 1);
        } else {
          LoopBudgetText(step.world, step.code, script, i + 1);
        }
      }
    }
  }

  // What a finalization or a recovery pass comes to, told from what it sees.

  predicate Escapes(s: Shipping) {
    s.escapes || (!s.Shutdown() && s.solution.Some? && s.solution.value.ReadText? && s.check == Cut)
  }

  /** The pass ships a text when the file holds `disk`. */
  predicate ShipsText(disk: Option<Doc>, s: Shipping) {
    && !s.escapes
    && if s.Shutdown() then s.published.Some? || (s.readable && HasText(disk))
       else s.solution.Some? && s.solution.value.ReadText? && s.check == Accept
  }

  lemma ShippedText(disk: Option<Doc>, s: Shipping, fallback: Status, verified: Status)
    ensures var a := ShipOrFallback(disk, s, fallback, verified);
            (a.Escaped? <==> Escapes(s)) && (a.Shipped? && a.doc.Text? <==> ShipsText(disk, s))
  {
  }

  lemma PassWrites(w: World, s: Shipping)
    ensures var e := ExceptionResult(w, s);
            && (e.result.None? <==> Escapes(s)) && e.world.recorded == w.recorded
            && (WroteText(e.world.trace) <==> WroteText(w.trace) || (!s.writeFails && ShipsText(w.disk, s)))
  {
    var a := ShipOrFallback(w.disk, s, AdapterError, AdapterErrorWithSolution);
    ShipQuiet(w.disk, s, AdapterError, AdapterErrorWithSolution);
    ShippedText(w.disk, s, AdapterError, AdapterErrorWithSolution);
    TraceSees(w.trace, a.seen);
    if a.Shipped? { TraceSnoc(w.trace + a.seen, Wrote(a.doc)); }
  }

  function AtStart(disk: Option<Doc>, script: Script): Option<Doc> {
    if script.stubOk then Some(Fallback) else disk
  }

  /** The first stage ends the run before anything is on record. */
  predicate Unrecorded(s: StageInput) {
    !s.ran.Exited? || s.cut in {BeforeWrite, BeforeRecord} || Snapshot(s).Escaped?
  }

  /** It does so with a result of its own. */
  predicate ReturnsEarly(s: StageInput) {
    !s.ran.Exited? && !s.ship.writeFails && !Escapes(s.ship)
  }

  /** It does so with a document written. */
  predicate WritesUnrecorded(s: StageInput) {
    if s.ran.Exited? then s.cut == BeforeRecord && Snapshot(s).Shipped? else ReturnsEarly(s)
  }

  /** That document is a text. */
  predicate WritesText(disk: Option<Doc>, s: StageInput) {
    && WritesUnrecorded(s)
    && if s.ran.Exited? then Snapshot(s).doc.Text? else ShipsText(disk, s.ship)
  }

  /** The file once the first stage has ended so, if it wrote no text. */
  function FileAfter(disk: Option<Doc>, s: StageInput): Option<Doc> {
    if WritesUnrecorded(s) then Some(Fallback) else disk
  }

  predicate Destroys(s: Shipping) {
    Unverifiable(s) && !s.writeFails
  }

  /** The first stage ends the run unrecorded. Either it wrote a text and the recovery pass finds nothing to
      verify; or it, or the recovery pass, wrote a text, the result did not reach the list or there is none,
      and the final pass finds nothing to verify. */
  predicate UnrecordedCut(disk: Option<Doc>, script: Script)
    requires script.stages != []
  {
    var s, start := script.stages[0], AtStart(disk, script);
    && !script.inputError && Unrecorded(s)
    && if ReturnsEarly(s) then script.resultLost && WritesText(start, s) && Destroys(script.last)
       else
         || (WritesText(start, s) && Destroys(script.recovery))
         || ((script.resultLost || Escapes(script.recovery)) && Destroys(script.last)
             && (WritesText(start, s)
                 || (!script.recovery.writeFails && ShipsText(FileAfter(start, s), script.recovery))))
  }

  lemma {:induction false} RecordStays(w: World, best: Option<Doc>, code: int, script: Script, i: nat)
    requires i <= |script.stages| && w.recorded.Some?
    ensures AfterLoop(Loop(w, best, code, script, i), script.final).world.recorded.Some?
    decreases |script.stages| - i
  {
    if i < |script.stages| {
      var step := StageStep(w, best, script.stages[i], i + 1 < |script.stages|);
      if step.Onward? && !step.stop { RecordStays(step.world, step.best, step.code, script, i + 1); }
    }
  }

  lemma FirstStage(w: World, s: StageInput, hasNext: bool)
    requires w.recorded.None? && !WroteText(w.trace)
    ensures var step := StageStep(w, None, s, hasNext);
            var v := match step case Onward(v, _, _, _) => v case Left(v) => v case Returned(v, _) => v;
            && (v.recorded.None? <==> Unrecorded(s))
            && (Unrecorded(s) ==>
                  && (if ReturnsEarly(s) then step.Returned? else step.Left?)
                  && (WroteText(v.trace) <==> WritesText(w.disk, s))
                  && (!WritesText(w.disk, s) ==> v.disk == FileAfter(w.disk, s)))
  {
    if s.ran.Exited? {
      var a := Snapshot(s);
      SnapshotDoc(s);
      TraceSees(w.trace, a.seen);
      if a.Shipped? { TraceSnoc(w.trace + a.seen, Wrote(a.doc)); }
    } else {
      var fallback := if s.ran.Failed? then AdapterError else if s.ship.stopBefore then OperatorStopped
          else DeadlineCancelled;
      var verified := if s.ran.Failed? then AdapterErrorWithSolution
                      else if s.ship.stopBefore then OperatorStoppedWithSolution else DeadlineCancelledWithSolution;
      var a := ShipOrFallback(w.disk, s.ship, fallback, verified);
      ShipQuiet(w.disk, s.ship, fallback, verified);
      ShippedText(w.disk, s.ship, fallback, verified);
      TraceSees(w.trace, a.seen);
      if a.Shipped? { TraceSnoc(w.trace + a.seen, Wrote(a.doc)); }
    }
  }

  /** How a run that records nothing ends, told from its first stage. */
  lemma FirstEnds(disk: Option<Doc>, script: Script)
    requires script.stages != [] && !script.inputError
    ensures var e, s, start := RunProblem(World(disk, None, []), script), script.stages[0], AtStart(disk, script);
            && (e.world.recorded.None? <==> Unrecorded(s))
            && (Unrecorded(s) ==>
                  && (e.result.Some? <==> ReturnsEarly(s))
                  && (WroteText(e.world.trace) <==> WritesText(start, s))
                  && (!WritesText(start, s) ==> e.world.disk == FileAfter(start, s)))
  {
    var w := Stub(World(disk, None, []), script);
    StubInv(disk, script);
    FirstStage(w, script.stages[0], 1 < |script.stages|);
    var step := StageStep(w, None, script.stages[0], 1 < |script.stages|);
    if step.Onward? && !step.stop { RecordStays(step.world, step.best, step.code, script, 1); }
  }

  lemma UnrecordedExactly(disk: Option<Doc>, script: Script)
    requires script.stages != []
    ensures EndsUnrecorded(disk, script) <==> UnrecordedCut(disk, script)
  {
    var e := RunProblem(World(disk, None, []), script);
    var r := Recover(e, script);
    if script.inputError {
      StubInv(disk, script);
      TraceSnoc(Stub(World(disk, None, []), script).trace, Wrote(Fallback));
    } else {
      FirstEnds(disk, script);
      PassWrites(e.world, script.recovery);
    }
  }

  /** A verified document is overwritten by a fallback in exactly two situations, both told from what the
      run is given alone. */
  lemma LostExactly(disk: Option<Doc>, script: Script)
    requires Readable(script) && StopsStay(script) && script.stages != []
    ensures Lost(Run(disk, script).world.trace) <==> BudgetEndgame(script) || UnrecordedCut(disk, script)
  {
    LostByRun(disk, script);
    UnrecordedExactly(disk, script);
    StubInv(disk, script);
    LoopBudgetText(Stub(World(disk, None, []), script), 0, script, 0);
  }

  /** Once a stage recorded a verified document, no later write is a fallback and neither is the result. */
  lemma CleanStageNeverLost(disk: Option<Doc>, script: Script)
    requires Readable(script) && StopsStay(script) && script.stages != []
    requires CleanRecorded(Run(disk, script).world.trace)
    ensures !Lost(Run(disk, script).world.trace)
    ensures WroteText(Run(disk, script).world.trace) && HasText(Run(disk, script).world.disk)
    ensures Run(disk, script).result.Some? ==> Run(disk, script).result.value.doc.Text?
  {
    RunProblemInv(disk, script);
    var e := RunProblem(World(disk, None, []), script);
    var r := Recover(e, script);
    if Lost(e.world.trace) {
      RecoveryRecords(e.world, script.recovery);
      RecoveryRecords(r.world, script.last);
    } else {
      ExceptionInv(e.world, script.recovery);
      if Lost(r.world.trace) {
        RecoveryRecords(r.world, script.last);
      } else {
        ExceptionInv(r.world, script.last);
      }
    }
  }

  /** Recovery records no stage. */
  lemma RecoveryRecords(w: World, s: Shipping)
    ensures CleanRecorded(ExceptionResult(w, s).world.trace) <==> CleanRecorded(w.trace)
  {
    var a := ShipOrFallback(w.disk, s, AdapterError, AdapterErrorWithSolution);
    ShipQuiet(w.disk, s, AdapterError, AdapterErrorWithSolution);
    TraceSees(w.trace, a.seen);
    if a.Shipped? { TraceSnoc(w.trace + a.seen, Wrote(a.doc)); }
  }

  /** A stage result that says solved yet carries the fallback: exactly an agreed run that exhausted its
      budget and whose solution no longer reads or compiles. */
  lemma SolvedWithFallback(w: World, best: Option<Doc>, s: StageInput, hasNext: bool)
    requires LoopInv(w, best) && s.ran.Exited? && StageStep(w, best, s, hasNext).Onward?
    ensures var r := StageStep(w, best, s, hasNext).world.recorded.value;
            r.solved && r.doc.Fallback? <==>
              && best.None? && s.ran.code == 0 && s.budget && !s.rejects && s.agreed
              && s.found.Some? && (s.found.value.ReadError? || s.check == Reject)
  {
    SnapshotDoc(s);
  }

  // ---- Whether the file holds the result's document ----

  /** The document a stage makes, and the best one before it, told from the stages' inputs. */
  function StageDoc(stages: seq<StageInput>, k: nat): Doc
    requires k < |stages|
    decreases k, 1
  {
    if stages[k].ran.Exited?
        && Snapshot(stages[k]).Shipped? then BestForSnapshot(Snapshot(stages[k]), BestBefore(stages, k))
    else Fallback
  }

  function BestBefore(stages: seq<StageInput>, k: nat): Option<Doc>
    requires k <= |stages|
    decreases k, 0
  {
    if k == 0 then None
    else
      var s := stages[k - 1];
      if s.ran.Exited? && Snapshot(s).Shipped? && Clean(Snapshot(s).status) then Some(StageDoc(stages, k - 1))
      else BestBefore(stages, k - 1)
  }

  /** A stage that the next one follows. */
  predicate GoesOn(s: StageInput) {
    && s.ran == Exited(0) && !s.budget && s.cut == NoCut
    && Snapshot(s).Shipped? && !StageSolved(s, Snapshot(s).status)
  }

  /** A later stage was cut between its write and its record, with a document other than the one on record. */
  predicate CutAhead(stages: seq<StageInput>, k: nat) {
    && 0 < k < |stages| && (forall j :: 0 <= j < k ==> GoesOn(stages[j]))
    && stages[k].ran.Exited? && Snapshot(stages[k]).Shipped? && stages[k].cut == BeforeRecord
    && StageDoc(stages, k) != StageDoc(stages, k - 1)
  }

  ghost predicate FileAhead(script: Script) {
    !script.inputError && exists k: nat :: CutAhead(script.stages, k)
  }

  ghost predicate OnDisk(w: World, r: Result) {
    w.disk == Some(r.doc)
  }

  /** At the start of stage `i`: the file holds what the stage before it recorded. */
  ghost predicate LevelAt(w: World, best: Option<Doc>, stages: seq<StageInput>, i: nat) {
    && i <= |stages| && (forall j :: 0 <= j < i ==> GoesOn(stages[j])) && best == BestBefore(stages, i)
    && if i == 0 then w.recorded.None?
       else w.recorded.Some? && OnDisk(w, w.recorded.value) && w.recorded.value.doc == StageDoc(stages, i - 1)
            && (i < |stages| ==> w.recorded.value.inProgress)
  }

  /** A run that ended with a result left it on disk; one that ended without left there what is on record,
      unless it was cut ahead. */
  ghost predicate LevelEnd(e: Ended, ahead: bool) {
    && (e.result.Some? ==> OnDisk(e.world, e.result.value) && !ahead)
    && (e.result.None? && e.world.recorded.Some? ==> (OnDisk(e.world, e.world.recorded.value) <==> !ahead))
    && (ahead ==> e.world.recorded.Some? && e.world.recorded.value.inProgress)
  }

  lemma EndsHere(stages: seq<StageInput>, i: nat)
    requires i < |stages| && !GoesOn(stages[i]) && forall j :: 0 <= j < i ==> GoesOn(stages[j])
    ensures (exists k: nat :: CutAhead(stages, k)) <==> CutAhead(stages, i)
  {
    forall k: nat | k < i ensures !CutAhead(stages, k) { assert GoesOn(stages[k]); }
  }

  lemma NeverCut(stages: seq<StageInput>)
    requires forall j :: 0 <= j < |stages| ==> GoesOn(stages[j])
    ensures !exists k: nat :: CutAhead(stages, k)
  {
    forall k: nat | k < |stages| ensures !CutAhead(stages, k) { assert GoesOn(stages[k]); }
  }

  lemma FinishLevel(w: World, best: Option<Doc>, code: int, f: FinalInput)
    requires w.recorded.Some? && OnDisk(w, w.recorded.value)
    ensures LevelEnd(Finish(w, best, code, f), false)
  {
  }

  lemma LastStageLevel(w: World, best: Option<Doc>, script: Script, i: nat)
    requires i < |script.stages| && LevelAt(w, best, script.stages, i) && !GoesOn(script.stages[i])
    ensures LevelEnd(AfterLoop(StageStep(w, best, script.stages[i], i + 1 < |script.stages|), script.final),
                     CutAhead(script.stages, i))
  {
    var step := StageStep(w, best, script.stages[i], i + 1 < |script.stages|);
    if step.Onward? { FinishLevel(step.world, step.best, step.code, script.final); }
  }

  lemma {:induction false} LoopLevel(w: World, best: Option<Doc>, code: int, script: Script, i: nat)
    requires script.stages != [] && LevelAt(w, best, script.stages, i)
    ensures LevelEnd(AfterLoop(Loop(w, best, code, script, i), script.final),
            exists k: nat :: CutAhead(script.stages, k))
    decreases |script.stages| - i
  {
    if i == |script.stages| {
      NeverCut(script.stages);
      FinishLevel(w, best, code, script.final);
    } else {
      var step := StageStep(w, best, script.stages[i], i + 1 < |script.stages|);
      if GoesOn(script.stages[i]) {
        assert StageDoc(script.stages, i) == BestForSnapshot(Snapshot(script.stages[i]), best);
        LoopLevel(step.world, step.best, step.code, script, i + 1);
      } else {
        EndsHere(script.stages, i);
        LastStageLevel(w, best, script, i);
      }
    }
  }

  /** When the result reaches the list and no recovery write fails, the file holds the document of the
      returned result, save in exactly this case: a later stage was cut between its write and its record
      with another document, and neither the recovery pass nor the final pass wrote a result of its own. */
  lemma ResultOnDiskExactly(disk: Option<Doc>, script: Script)
    requires script.stages != [] && !script.resultLost && !script.recovery.writeFails && !script.last.writeFails
    requires Run(disk, script).result.Some?
    ensures !OnDisk(Run(disk, script).world, Run(disk, script).result.value) <==>
              FileAhead(script) && !script.stopAtEnd && (!script.stopAtRecovery || Escapes(script.recovery))
  {
    var e := RunProblem(World(disk, None, []), script);
    if !script.inputError {
      LoopLevel(Stub(World(disk, None, []), script), None, 0, script, 0);
    }
    assert LevelEnd(e, FileAhead(script));
    ShippedText(e.world.disk, script.recovery, AdapterError, AdapterErrorWithSolution);
  }

  // ---- Whether the returned result is a fallback after a text ----

  /** The stages before it verified nothing, and the k-th was cut between writing a text and recording it. */
  predicate TextCut(stages: seq<StageInput>, k: nat) {
    && k < |stages| && (forall j :: 0 <= j < k ==> Passed(stages[j]))
    && stages[k].ran.Exited? && stages[k].cut == BeforeRecord
    && Snapshot(stages[k]).Shipped? && Snapshot(stages[k]).doc.Text?
  }

  ghost predicate LaterTextCut(stages: seq<StageInput>) {
    exists k: nat :: 0 < k && TextCut(stages, k)
  }

  /** When the returned result is a fallback although a text was written: the stages ended on a text verified
      under an exhausted budget alone; the first stage was cut on its text and the pass that makes up a result
      verifies nothing; or a later one was, and the result of the stage before it is returned. */
  ghost predicate FallbackReturned(script: Script) {
    || BudgetEndgame(script)
    || (!script.inputError && TextCut(script.stages, 0)
        && (Unverifiable(script.recovery) || (Escapes(script.recovery) && Unverifiable(script.last))))
    || (!script.inputError && LaterTextCut(script.stages)
        && !script.stopAtEnd && (!script.stopAtRecovery || Escapes(script.recovery)))
  }

  /** The run was left with a text on disk and a fallback on record. */
  ghost predicate LeftBehind(e: Ended) {
    && e.result.None? && WroteText(e.world.trace)
    && e.world.recorded.Some? && e.world.recorded.value.doc.Fallback?
  }

  lemma {:induction false} TextRecordStays(w: World, best: Option<Doc>, code: int, script: Script, i: nat)
    requires i <= |script.stages| && best.Some? && best.value.Text?
    requires w.recorded.Some? && w.recorded.value.doc.Text?
    ensures var e := AfterLoop(Loop(w, best, code, script, i), script.final);
            e.world.recorded.Some? && e.world.recorded.value.doc.Text?
    decreases |script.stages| - i
  {
    if i < |script.stages| {
      var s := script.stages[i];
      var step := StageStep(w, best, s, i + 1 < |script.stages|);
      if s.ran.Exited? { SnapshotDoc(s); }
      if step.Onward? && !step.stop { TextRecordStays(step.world, step.best, step.code, script, i + 1); }
    }
  }

  lemma FinishLeft(w: World, best: Option<Doc>, code: int, f: FinalInput)
    requires Finish(w, best, code, f).result.None?
    ensures var e := Finish(w, best, code, f);
            e.world.recorded == w.recorded && (WroteText(e.world.trace) <==> WroteText(w.trace))
  {
    var a := PreferBest(FinalAttempt(w, code, f), best);
    assert Quiet(a);
    TraceSees(w.trace, a.seen);
  }

  /** What one stage that does not pass leaves behind while nothing has been verified. */
  lemma StageLeaves(w: World, script: Script, i: nat)
    requires i < |script.stages| && !WroteText(w.trace) && !Passed(script.stages[i])
    requires w.recorded.Some? ==> w.recorded.value.doc.Fallback?
    ensures var s, step := script.stages[i], StageStep(w, None, script.stages[i], i + 1 < |script.stages|);
            var cutOnText := s.ran.Exited? && s.cut == BeforeRecord && Snapshot(s).Shipped? && Snapshot(s).doc.Text?;
            match step
            case Left(v) =>
              && (WroteText(v.trace) && (v.recorded.None? || v.recorded.value.doc.Fallback?) <==> cutOnText)
              && (cutOnText ==> v.recorded == w.recorded)
            case Returned(_, _) => !cutOnText
            case Onward(v, best, _, stop) =>
              && !cutOnText && v.recorded.Some? && (best.Some? ==> best.value.Text? && v.recorded.value.doc.Text?)
              && (best.None? ==> stop && (WroteText(v.trace) ==> v.recorded.value.doc.Text?))
  {
    var s := script.stages[i];
    if s.ran.Exited? {
      var a := Snapshot(s);
      SnapshotDoc(s);
      TraceSees(w.trace, a.seen);
      if a.Shipped? && s.cut != BeforeWrite {
        TraceSnoc(w.trace + a.seen, Wrote(a.doc));
        var solved := StageSolved(s, a.status);
        var stop := solved || s.ran.code != 0 || s.budget;
        var result := Result(a.status, a.doc, solved, i + 1 < |script.stages| && !stop);
        TraceSnoc(w.trace + a.seen + [Wrote(a.doc)], Recorded(result));
      }
    } else {
      var fallback := if s.ran.Failed? then AdapterError else if s.ship.stopBefore then OperatorStopped
                      else DeadlineCancelled;
      var verified := if s.ran.Failed? then AdapterErrorWithSolution
                      else if s.ship.stopBefore then OperatorStoppedWithSolution else DeadlineCancelledWithSolution;
      var a := ShipOrFallback(w.disk, s.ship, fallback, verified);
      ShipQuiet(w.disk, s.ship, fallback, verified);
      TraceSees(w.trace, a.seen);
    }
  }

  lemma CutHere(stages: seq<StageInput>, i: nat)
    requires i < |stages| && !Passed(stages[i]) && forall j :: 0 <= j < i ==> Passed(stages[j])
    ensures forall k: nat :: TextCut(stages, k) ==> k == i
  {
    forall k: nat | k < i ensures !TextCut(stages, k) { assert Passed(stages[k]); }
  }

  lemma NoneCut(stages: seq<StageInput>)
    requires forall j :: 0 <= j < |stages| ==> Passed(stages[j])
    ensures !LaterTextCut(stages)
  {
    forall k: nat | k < |stages| ensures !TextCut(stages, k) { assert Passed(stages[k]); }
  }

  lemma PassedRecords(w: World, s: StageInput, hasNext: bool)
    requires Passed(s)
    ensures var step := StageStep(w, None, s, hasNext);
            && step.Onward? && step.world.recorded.Some? && step.world.recorded.value.doc.Fallback?
            && (hasNext ==> step.world.recorded.value.inProgress)
  {
    SnapshotDoc(s);
  }

  lemma {:induction false} LoopLeaves(w: World, code: int, script: Script, i: nat)
    requires i <= |script.stages| && !WroteText(w.trace) && forall j :: 0 <= j < i ==> Passed(script.stages[j])
    requires if i == 0 then w.recorded.None?
             else w.recorded.Some? && w.recorded.value.doc.Fallback?
                  && (i < |script.stages| ==> w.recorded.value.inProgress)
    requires script.stages != []
    ensures var e := AfterLoop(Loop(w, None, code, script, i), script.final);
            && (LeftBehind(e) <==> LaterTextCut(script.stages))
            && (LeftBehind(e) ==> e.world.recorded.value.inProgress)
    decreases |script.stages| - i
  {
    if i == |script.stages| {
      NoneCut(script.stages);
      if Finish(w, None, code, script.final).result.None? { FinishLeft(w, None, code, script.final); }
    } else {
      var s, step := script.stages[i], StageStep(w, None, script.stages[i], i + 1 < |script.stages|);
      if Passed(s) {
        PassedRecords(w, s, i + 1 < |script.stages|);
        StageWrites(w, s, i + 1 < |script.stages|);
        LoopLeaves(step.world, step.code, script, i + 1);
      } else {
        CutHere(script.stages, i);
        StageLeaves(w, script, i);
        if step.Left? && LeftBehind(AfterLoop(step, script.final)) { assert TextCut(script.stages, i); }
        if step.Onward? {
          if step.stop {
            if Finish(step.world, step.best, step.code, script.final).result.None? {
              FinishLeft(step.world, step.best, step.code, script.final);
            }
          } else {
            TextRecordStays(step.world, step.best, step.code, script, i + 1);
          }
        }
      }
    }
  }

  /** A pass that makes up a result when a text is on disk returns the fallback exactly when it verifies nothing. */
  lemma PassReturns(w: World, s: Shipping)
    requires Good(w) && s.readable
    ensures var e := ExceptionResult(w, s);
            && (e.result.Some? && e.result.value.doc.Fallback? && WroteText(e.world.trace) <==>
                  WroteText(w.trace) && Unverifiable(s))
            && (e.result.None? <==> Escapes(s)) && (e.result.Some? ==> !e.result.value.inProgress)
            && (e.result.None? ==> Good(e.world) && e.world.recorded == w.recorded
                                   && (WroteText(e.world.trace) <==> WroteText(w.trace)))
  {
    var a := ShipOrFallback(w.disk, s, AdapterError, AdapterErrorWithSolution);
    ShipQuiet(w.disk, s, AdapterError, AdapterErrorWithSolution);
    ShippedText(w.disk, s, AdapterError, AdapterErrorWithSolution);
    GoodSees(w, a);
    TraceSees(w.trace, a.seen);
    if WroteText(w.trace) { ShipWithText(w, s, AdapterError, AdapterErrorWithSolution); }
    if a.Shipped? { TraceSnoc(w.trace + a.seen, Wrote(a.doc)); }
  }

  /** How the run itself ends, as far as that matters here. */
  lemma EndsLeveled(disk: Option<Doc>, script: Script)
    requires Readable(script) && script.stages != []
    ensures var e := RunProblem(World(disk, None, []), script);
            && (e.result.Some? ==> !e.result.value.inProgress)
            && (e.result.Some? ==>
                  (e.result.value.doc.Fallback? && WroteText(e.world.trace) <==> BudgetEndgame(script)))
            && (e.result.None? ==> Good(e.world) && !BudgetEndgame(script))
            && (LeftBehind(e) <==> !script.inputError && LaterTextCut(script.stages))
            && (LeftBehind(e) ==> e.world.recorded.value.inProgress)
  {
    var w := Stub(World(disk, None, []), script);
    var e := RunProblem(World(disk, None, []), script);
    RunProblemInv(disk, script);
    StubInv(disk, script);
    LoopBudgetText(w, 0, script, 0);
    if script.inputError {
      TraceSnoc(w.trace, Wrote(Fallback));
    } else {
      LoopLeaves(w, 0, script, 0);
      LoopLevel(w, None, 0, script, 0);
    }
  }

  lemma CutFirst(disk: Option<Doc>, script: Script)
    requires script.stages != [] && !script.inputError
    ensures var e := RunProblem(World(disk, None, []), script);
            (e.result.None? && e.world.recorded.None? && WroteText(e.world.trace)) <==> TextCut(script.stages, 0)
  {
    FirstEnds(disk, script);
  }

  /** When the result reaches the list, it is a fallback although a verified text was written in exactly
      three situations, told from what the run is given alone, whether recovery writes fail or not. */
  lemma FallbackReturnedExactly(disk: Option<Doc>, script: Script)
    requires Readable(script) && StopsStay(script) && script.stages != [] && !script.resultLost
    ensures var end := Run(disk, script);
            (end.result.Some? && end.result.value.doc.Fallback? && WroteText(end.world.trace))
            <==> FallbackReturned(script)
  {
    var e := RunProblem(World(disk, None, []), script);
    var r := Recover(e, script);
    EndsLeveled(disk, script);
    if !script.inputError { CutFirst(disk, script); }
    if e.result.None? {
      PassReturns(e.world, script.recovery);
      if r.result.None? || r.world == e.world { PassReturns(r.world, script.last); }
    }
  }

  // ---- Both situations happen ----

  const QUIET := Shipping(false, false, false, None, true, None, Accept, false, false)

  /** The compile check accepts the stage's text under an exhausted budget and rejects it at the end. */
  lemma BudgetSolutionLost(tex: string)
    ensures var stage := StageInput(Exited(0), true, false, Some(ReadText(tex)), false, false, false, Accept, NoCut,
            QUIET);
            var final := FinalInput(true, false, Some(ReadText(tex)), false, false, Reject, false,
                                    QUIET.(solution := Some(ReadText(tex)), check := Reject));
            Lost(Run(None, Script(true, false, [stage], final, false, QUIET, false, false, QUIET)).world.trace)
  {
    var stage := StageInput(Exited(0), true, false, Some(ReadText(tex)), false, false, false, Accept, NoCut, QUIET);
    var final := FinalInput(true, false, Some(ReadText(tex)), false, false, Reject, false,
                            QUIET.(solution := Some(ReadText(tex)), check := Reject));
    var script := Script(true, false, [stage], final, false, QUIET, false, false, QUIET);
    assert BudgetTextAt(script.stages, 0, 0);
    LostExactly(None, script);
  }

  /** A cancellation between the first stage's write and its record, with neither stop nor deadline, and
      no solution file left to verify. */
  lemma UnrecordedSolutionLost(tex: string, final: FinalInput)
    requires final.ship.readable
    ensures var stage := StageInput(Exited(0), false, false, Some(ReadText(tex)), false, false, false, Accept,
            BeforeRecord, QUIET);
            Lost(Run(None, Script(true, false, [stage], final, false, QUIET, false, false, QUIET)).world.trace)
  {
    var stage := StageInput(Exited(0), false, false, Some(ReadText(tex)), false, false, false, Accept, BeforeRecord,
        QUIET);
    var script := Script(true, false, [stage], final, false, QUIET, false, false, QUIET);
    LostExactly(None, script);
  }
}
