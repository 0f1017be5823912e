/** One problem's run through the round schedule, with every outcome of the subprocess, the compiler,
    the disk and every interruption left open as input. */
module StageMachine {
  import opened Wrappers

  /** A document for the top-level `.tex`: the generated fallback or some LaTeX text. */
  datatype Doc = Fallback | Text(tex: string)

  datatype Status =
    | Solved | NeedsMoreRounds | PartialUnreviewed | Ok | InputError | BestStageSolution
    | WorkflowError | WorkflowErrorWithSolution
    | BudgetExhausted | BudgetExhaustedWithSolution
    | DeadlineCancelled | DeadlineCancelledWithSolution
    | OperatorStopped | OperatorStoppedWithSolution
    | AdapterError | AdapterErrorWithSolution
    | MissingSolution | SolutionContractError | SolutionReadError

  predicate FinalFallback(s: Status) {
    s in {DeadlineCancelled, AdapterError, WorkflowError, BudgetExhausted, BudgetExhaustedWithSolution,
          MissingSolution, SolutionContractError, SolutionReadError, DeadlineCancelledWithSolution,
          AdapterErrorWithSolution, WorkflowErrorWithSolution}
  }

  predicate Clean(s: Status) {
    s in {NeedsMoreRounds, Solved, PartialUnreviewed}
  }

  datatype Result = Result(status: Status, doc: Doc, solved: bool, inProgress: bool)

  // ---- The round schedule ----

  function Max(a: int, b: int): int {
    if a < b then b else a
  }

  datatype Settings = Settings(batch3: bool, nRounds: int, batchSize: int, adaptive: bool, adaptiveMax: int)

  function MaxScheduledRounds(s: Settings): int {
    var initial := Max(s.nRounds, 1);
    if s.adaptive then Max(initial, s.adaptiveMax) else initial
  }

  function Steps(from: int, total: int, step: int): seq<int>
    requires step > 0
    decreases total - from
  {
    if from >= total then [] else [from] + Steps(from + step, total, step)
  }

  function RoundSchedule(s: Settings): seq<int> {
    if s.batch3 then [s.nRounds]
    else
      var total, batch := MaxScheduledRounds(s), Max(s.batchSize, 1);
      if batch >= total then [total]
      else
        var schedule := Steps(batch, total, batch);
        if schedule == [] || schedule[|schedule| - 1] != total then schedule + [total] else schedule
  }

  lemma {:induction false} StepsShape(from: int, total: int, step: int)
    requires step > 0 && from < total
    ensures var xs := Steps(from, total, step);
            && xs != [] && total <= xs[|xs| - 1] + step
            && forall i :: 0 <= i < |xs| ==> xs[i] == from + i * step < total
    decreases total - from
  {
    var xs, rest := Steps(from, total, step), Steps(from + step, total, step);
    if from + step < total {
      StepsShape(from + step, total, step);
      assert xs[1..] == rest;
      forall i | 0 <= i < |xs| ensures xs[i] == from + i * step < total {
        if i > 0 { NextStep(from, step, i); assert xs[i] == rest[i - 1]; }
      }
    } else {
      assert rest == [];
    }
  }

  lemma NextStep(from: int, step: int, i: int)
    ensures (from + step) + (i - 1) * step == from + i * step
  {
  }

  /** All the whole batches below the limit, in order. */
  lemma BatchesShape(batch: int, total: int)
    requires 0 < batch < total
    ensures var xs := Steps(batch, total, batch);
            && xs != [] && xs[|xs| - 1] < total <= (|xs| + 1) * batch
            && forall i :: 0 <= i < |xs| ==> xs[i] == (i + 1) * batch < total
  {
    StepsShape(batch, total, batch);
    var xs := Steps(batch, total, batch);
    forall i | 0 <= i < |xs| ensures xs[i] == (i + 1) * batch < total { NextStep(0, batch, i + 1); }
    NextStep(0, batch, |xs| + 1);
  }

  function LimitOf(s: Settings): int {
    var limit := if s.nRounds > 1 then s.nRounds else 1;
    if s.adaptive && s.adaptiveMax > limit then s.adaptiveMax else limit
  }

  /** The stages end with the round limit, which an adaptive run may raise; those before it are, in order,
      all the whole batches below it. */
  lemma ScheduleShape(s: Settings)
    ensures var xs, batch := RoundSchedule(s), if s.batchSize > 1 then s.batchSize else 1;
            && xs != []
            && (s.batch3 ==> xs == [s.nRounds])
            && (!s.batch3 ==>
                  && xs[|xs| - 1] == LimitOf(s) <= |xs| * batch
                  && (forall i :: 0 <= i < |xs| - 1 ==> xs[i] == (i + 1) * batch < LimitOf(s)))
  {
    var total, batch := MaxScheduledRounds(s), Max(s.batchSize, 1);
    assert total == LimitOf(s);
    if !s.batch3 && batch < total {
      BatchesShape(batch, total);
      var batches, xs := Steps(batch, total, batch), RoundSchedule(s);
      assert xs == batches + [total];
      forall i | 0 <= i < |xs| - 1 ensures xs[i] == (i + 1) * batch < total { assert xs[i] == batches[i]; }
    }
  }

  // ---- What the environment answers ----

  /** Reading and normalizing a solution file. */
  datatype Read = ReadError | ReadText(tex: string)

  /** The exact-compile check; `Cut` when a stop, a deadline or an exception ends it. */
  datatype Check = Accept | Reject | Cut

  /** What one finalization sees: a stop requested before or during it, the deadline, a hash-checked
      publication, whether the top-level file reads back, the solution file found, the compile check,
      and whether an exception escapes before it or at its write. */
  datatype Shipping = Shipping(
    stopBefore: bool, stopSince: bool, deadline: bool, published: Option<string>, readable: bool,
    solution: Option<Read>, check: Check, escapes: bool, writeFails: bool)
  {
    predicate Stop() { stopBefore || stopSince }
    predicate Shutdown() { Stop() || deadline }
  }

  datatype Ran = Exited(code: int) | Cancelled | Failed

  /** Where an exception leaves a stage that ran to its end, if it does. */
  datatype CutPoint = NoCut | BeforeWrite | BeforeRecord | AfterRecord

  datatype StageInput = StageInput(
    ran: Ran, budget: bool, rejects: bool, found: Option<Read>, short: bool, agreed: bool, partial: bool,
    check: Check, cut: CutPoint, ship: Shipping)

  datatype FinalInput = FinalInput(
    budget: bool, rejects: bool, found: Option<Read>, agreed: bool, partial: bool,
    check: Check, escapes: bool, ship: Shipping)

  /** Everything one run is told. `stopAtRecovery` and `recovery` serve an exception that left the run;
      `resultLost` says that a cancellation kept the final result from the shared list; `stopAtEnd` and
      `last` serve the final pass over that list. */
  datatype Script = Script(
    stubOk: bool, inputError: bool, stages: seq<StageInput>, final: FinalInput,
    stopAtRecovery: bool, recovery: Shipping, resultLost: bool, stopAtEnd: bool, last: Shipping)

  // ---- The observable run ----

  datatype Event =
    | Accepted(tex: string)        // the exact-compile check accepted this text
    | PublishedRead(tex: string)   // these published bytes matched their hash
    | Wrote(doc: Doc)              // the top-level file now holds this document
    | Recorded(result: Result)     // the stage result reached the shared result list

  datatype World = World(disk: Option<Doc>, recorded: Option<Result>, trace: seq<Event>)

  function Wrote1(w: World, doc: Doc): World {
    w.(disk := Some(doc), trace := w.trace + [Wrote(doc)])
  }

  function Sees(w: World, seen: seq<Event>): World {
    w.(trace := w.trace + seen)
  }

  datatype Attempt = Shipped(doc: Doc, status: Status, seen: seq<Event>) | Escaped(seen: seq<Event>)

  // ---- Finalization ----

  function VerifiedOrFallback(solution: Option<Read>, check: Check, fallback: Status, verified: Status): Attempt {
    match solution
    case None => Shipped(Fallback, fallback, [])
    case Some(ReadError) => Shipped(Fallback, fallback, [])
    case Some(ReadText(tex)) =>
      match check
      case Cut => Escaped([])
      case Reject => Shipped(Fallback, fallback, [])
      case Accept => Shipped(Text(tex), verified, [Accepted(tex)])
  }

  function ShipOrFallback(disk: Option<Doc>, s: Shipping, fallback: Status, verified: Status): Attempt {
    if s.escapes then Escaped([])
    else if s.Shutdown() then
      if s.published.Some? then
        Shipped(Text(s.published.value),
                if s.Stop() then OperatorStoppedWithSolution else DeadlineCancelledWithSolution,
                [PublishedRead(s.published.value)])
      else
        Shipped(if s.readable && disk.Some? then disk.value else Fallback,
                if s.Stop() then OperatorStopped else DeadlineCancelled, [])
    else VerifiedOrFallback(s.solution, s.check, fallback, verified)
  }

  function PreferBest(a: Attempt, best: Option<Doc>): Attempt {
    if a.Shipped? && FinalFallback(a.status) && best.Some? then Shipped(best.value, BestStageSolution, a.seen) else a
  }

  // ---- One stage ----

  function Candidate(s: StageInput): Option<Read>
    requires s.ran.Exited?
  {
    if s.budget then s.found
    else if s.ran.code != 0 || (s.short && !s.agreed && !s.partial) then None
    else s.found
  }

  function StageStatus(s: StageInput): Status
    requires s.ran.Exited?
  {
    if s.ran.code != 0 then WorkflowError
    else if s.budget then BudgetExhausted
    else if s.rejects then SolutionContractError
    else if Candidate(s).Some? && s.agreed then Solved
    else if Candidate(s).Some? && s.partial then PartialUnreviewed
    else NeedsMoreRounds
  }

  /** Whether the stage counts as solved once its document is made; an exhausted budget does not clear it. */
  function StageSolved(s: StageInput, status: Status): bool
    requires s.ran.Exited?
  {
    && s.ran.code == 0 && Candidate(s).Some? && !s.rejects && s.agreed
    && (Clean(StageStatus(s)) ==> Clean(status))
  }

  /** The stage's document, and its status after the document was made. */
  function Snapshot(s: StageInput): Attempt
    requires s.ran.Exited?
  {
    var status := StageStatus(s);
    match Candidate(s)
    case None => Shipped(Fallback, if Clean(status) then MissingSolution else status, [])
    case Some(read) =>
      if status == BudgetExhausted then
        VerifiedOrFallback(Some(read), s.check, BudgetExhausted, BudgetExhaustedWithSolution)
      else if !Clean(status) then Shipped(Fallback, status, [])
      else if read.ReadError? then Shipped(Fallback, SolutionReadError, [])
      else VerifiedOrFallback(Some(read), s.check, SolutionContractError, status)
  }

  function BestForSnapshot(a: Attempt, best: Option<Doc>): Doc
    requires a.Shipped?
  {
    if FinalFallback(a.status) && best.Some? then best.value else a.doc
  }

  datatype Step =
    | Onward(world: World, best: Option<Doc>, code: int, stop: bool)
    | Left(world: World)                       // an exception left the run
    | Returned(world: World, result: Result)   // the run ended inside the stage

  function StageStep(w: World, best: Option<Doc>, s: StageInput, hasNext: bool): Step {
    match s.ran
    case Cancelled =>
      EndEarly(w, best, s.ship, if s.ship.stopBefore then OperatorStopped else DeadlineCancelled,
               if s.ship.stopBefore then OperatorStoppedWithSolution else DeadlineCancelledWithSolution)
    case Failed => EndEarly(w, best, s.ship, AdapterError, AdapterErrorWithSolution)
    case Exited(code) =>
      var a := Snapshot(s);
      if a.Escaped? || s.cut == BeforeWrite then Left(Sees(w, a.seen))
      else
        var doc := BestForSnapshot(a, best);
        var written := Wrote1(Sees(w, a.seen), doc);
        if s.cut == BeforeRecord then Left(written)
        else
          var solved := StageSolved(s, a.status);
          var stop := solved || code != 0 || s.budget;
          var result := Result(a.status, doc, solved, hasNext && !stop);
          var recorded := written.(recorded := Some(result), trace := written.trace + [Recorded(result)]);
          if s.cut == AfterRecord then Left(recorded)
          else Onward(recorded, if Clean(a.status) then Some(doc) else best, code, stop)
  }

  function EndEarly(w: World, best: Option<Doc>, s: Shipping, fallback: Status, verified: Status): Step {
    var a := PreferBest(ShipOrFallback(w.disk, s, fallback, verified), best);
    if a.Escaped? || s.writeFails then Left(Sees(w, a.seen))
    else Returned(Wrote1(Sees(w, a.seen), a.doc), Result(a.status, a.doc, false, false))
  }

  // ---- The end of the run ----

  function FinalAttempt(w: World, code: int, f: FinalInput): Attempt {
    if code != 0 then ShipOrFallback(w.disk, f.ship, WorkflowError, WorkflowErrorWithSolution)
    else if f.budget then ShipOrFallback(w.disk, f.ship, BudgetExhausted, BudgetExhaustedWithSolution)
    else if f.found.None? then Shipped(Fallback, MissingSolution, [])
    else if f.rejects then Shipped(Fallback, SolutionContractError, [])
    else if f.found.value.ReadError? then Shipped(Fallback, SolutionReadError, [])
    else VerifiedOrFallback(f.found, f.check, SolutionContractError, if f.partial then PartialUnreviewed else Ok)
  }

  datatype Ended = Ended(world: World, result: Option<Result>)   // no result: an exception left the run

  function Finish(w: World, best: Option<Doc>, code: int, f: FinalInput): Ended {
    var a := PreferBest(FinalAttempt(w, code, f), best);
    if a.Escaped? || f.escapes then Ended(Sees(w, a.seen), None)
    else Ended(Wrote1(Sees(w, a.seen), a.doc), Some(Result(a.status, a.doc, a.status == Ok && f.agreed, false)))
  }

  /** The stages from the i-th on, up to the finalization, or to where the run left or returned. */
  function Loop(w: World, best: Option<Doc>, code: int, script: Script, i: nat): Step
    requires i <= |script.stages|
    decreases |script.stages| - i
  {
    if i == |script.stages| then Onward(w, best, code, true)
    else
      var step := StageStep(w, best, script.stages[i], i + 1 < |script.stages|);
      if step.Onward? && !step.stop then Loop(step.world, step.best, step.code, script, i + 1) else step
  }

  function AfterLoop(step: Step, f: FinalInput): Ended {
    match step
    case Left(w) => Ended(w, None)
    case Returned(w, r) => Ended(w, Some(r))
    case Onward(w, best, code, _) => Finish(w, best, code, f)
  }

  function Stub(w: World, script: Script): World {
    if script.stubOk then Wrote1(w, Fallback) else w
  }

  function RunProblem(w: World, script: Script): Ended {
    if script.inputError then
      Ended(Wrote1(Stub(w, script), Fallback), Some(Result(InputError, Fallback, false, false)))
    else AfterLoop(Loop(Stub(w, script), None, 0, script, 0), script.final)
  }

  // ---- Recovery of a run an exception left ----

  /** A failing write is reported in the result and leaves the file alone. */
  function ExceptionResult(w: World, s: Shipping): Ended {
    var a := ShipOrFallback(w.disk, s, AdapterError, AdapterErrorWithSolution);
    if a.Escaped? then Ended(Sees(w, a.seen), None)
    else Ended(if s.writeFails then Sees(w, a.seen) else Wrote1(Sees(w, a.seen), a.doc),
               Some(Result(a.status, a.doc, false, false)))
  }

  function Recover(e: Ended, script: Script): Ended {
    if e.result.Some? then e
    else if e.world.recorded.Some? && !script.stopAtRecovery then e.(result := e.world.recorded)
    else ExceptionResult(e.world, script.recovery)
  }

  /** What the shared list holds: the final result if it got there, or else the last one recorded. */
  function Held(e: Ended, script: Script): Option<Result> {
    if e.result.Some? && !script.resultLost then e.result else e.world.recorded
  }

  /** The final pass makes up a missing result, and one still in progress at a stop. */
  function Conclude(e: Ended, script: Script): Ended {
    var held := Held(e, script);
    if held.None? || (script.stopAtEnd && held.value.inProgress) then ExceptionResult(e.world, script.last)
    else e.(result := held)
  }

  function Run(disk: Option<Doc>, script: Script): Ended {
    Conclude(Recover(RunProblem(World(disk, None, []), script), script), script)
  }

  // ---- The same run step by step ----

  class ProblemRun {
    var disk: Option<Doc>
    var recorded: Option<Result>
    ghost var trace: seq<Event>

    ghost function Now(): World reads this { World(disk, recorded, trace) }

    constructor (disk: Option<Doc>)
      ensures Now() == World(disk, None, [])
    {
      this.disk, recorded, trace := disk, None, [];
    }

    method Write(doc: Doc)
      modifies this
      ensures Now() == Wrote1(old(Now()), doc)
    {
      disk, trace := Some(doc), trace + [Wrote(doc)];
    }

    method Record(result: Result)
      modifies this
      ensures Now() == old(Now()).(recorded := Some(result), trace := old(trace) + [Recorded(result)])
    {
      recorded, trace := Some(result), trace + [Recorded(result)];
    }

    /** The run itself; no result means that an exception left it. */
    method RunStages(script: Script) returns (result: Option<Result>)
      modifies this
      ensures Ended(Now(), result) == RunProblem(old(Now()), script)
    {
      if script.stubOk { Write(Fallback); }
      if script.inputError {
        Write(Fallback);
        return Some(Result(InputError, Fallback, false, false));
      }
      var best: Option<Doc> := None;
      var code := 0;
      var i := 0;
      var stop := false;
      while i < |script.stages| && !stop
        invariant i <= |script.stages|
        invariant RunProblem(old(Now()), script) ==
          if stop then Finish(Now(), best, code, script.final)
          else AfterLoop(Loop(Now(), best, code, script, i), script.final)
        decreases |script.stages| - i
      {
        var s := script.stages[i];
        if !s.ran.Exited? {
          var fallback, verified :=
            if s.ran.Failed? then AdapterError else if s.ship.stopBefore then OperatorStopped else DeadlineCancelled,
            if s.ran.Failed? then AdapterErrorWithSolution
            else if s.ship.stopBefore then OperatorStoppedWithSolution else DeadlineCancelledWithSolution;
          var a := PreferBest(ShipOrFallback(disk, s.ship, fallback, verified), best);
          trace := trace + a.seen;
          if a.Escaped? || s.ship.writeFails { return None; }
          Write(a.doc);
          return Some(Result(a.status, a.doc, false, false));
        }
        code := s.ran.code;
        var a := Snapshot(s);
        trace := trace + a.seen;
        if a.Escaped? || s.cut == BeforeWrite { return None; }
        var doc := BestForSnapshot(a, best);
        Write(doc);
        if s.cut == BeforeRecord { return None; }
        var solved := StageSolved(s, a.status);
        stop := solved || code != 0 || s.budget;
        Record(Result(a.status, doc, solved, i + 1 < |script.stages| && !stop));
        if s.cut == AfterRecord { return None; }
        if Clean(a.status) { best := Some(doc); }
        i := i + 1;
      }
      var a := PreferBest(FinalAttempt(World(disk, recorded, []), code, script.final), best);
      trace := trace + a.seen;
      if a.Escaped? || script.final.escapes { return None; }
      Write(a.doc);
      return Some(Result(a.status, a.doc, a.status == Ok && script.final.agreed, false));
    }
  }
}
