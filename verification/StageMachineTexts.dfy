/** Which text each stage writes and records, and which one a run returns, told from the stages' inputs. */
module StageMachineTexts {
  import opened Wrappers
  import opened StageMachine
  import StageMachineSafety

  // ---- What the inputs of a stage say ----

  predicate HasAnswer(s: StageInput) {
    s.found.Some? && s.found.value.ReadText?
  }

  /** A workflow that stopped short counts when its critic agreed or the text is marked partial. */
  predicate LongEnough(s: StageInput) {
    !s.short || s.agreed || s.partial
  }

  /** The stage counts as verified: it ran well within its budget, and the check accepted its text. */
  predicate Verified(s: StageInput) {
    s.ran == Exited(0) && !s.budget && !s.rejects && LongEnough(s) && HasAnswer(s) && s.check == Accept
  }

  /** The check accepted its text, but the budget was exhausted. */
  predicate BudgetVerified(s: StageInput) {
    s.ran == Exited(0) && s.budget && HasAnswer(s) && s.check == Accept
  }

  function TextOf(s: StageInput): string
    requires HasAnswer(s)
  {
    s.found.value.tex
  }

  /** The stage's check was cut. */
  predicate CheckCut(s: StageInput) {
    s.ran == Exited(0) && (s.budget || (!s.rejects && LongEnough(s))) && HasAnswer(s) && s.check == Cut
  }

  predicate Writes(s: StageInput) {
    s.ran.Exited? && !CheckCut(s) && s.cut != BeforeWrite
  }

  predicate Records(s: StageInput) {
    Writes(s) && s.cut != BeforeRecord
  }

  predicate Solves(s: StageInput) {
    if s.budget then s.ran == Exited(0) && s.found.Some? && !s.rejects && s.agreed else Verified(s) && s.agreed
  }

  /** The next stage, if there is one, follows. */
  predicate Continues(s: StageInput) {
    Records(s) && s.cut == NoCut && s.ran == Exited(0) && !s.budget && !Solves(s)
  }

  /** The status a stage is recorded with. */
  ghost predicate HasStatus(s: StageInput, status: Status)
    requires s.ran.Exited?
  {
    && (s.ran.code != 0 ==> status == WorkflowError)
    && (BudgetVerified(s) ==> status == BudgetExhaustedWithSolution)
    && (s.ran.code == 0 && s.budget && !BudgetVerified(s) ==> status == BudgetExhausted)
    && (Verified(s) ==> status == if s.agreed then Solved else if s.partial then PartialUnreviewed else NeedsMoreRounds)
    && (s.ran.code == 0 && !s.budget && !Verified(s) ==>
          status == if s.rejects then SolutionContractError
                    else if s.found.None? || !LongEnough(s) then MissingSolution
                    else if s.found.value.ReadError? then SolutionReadError
                    else SolutionContractError)
  }

  /** The run gets to stage `k`. */
  predicate Reached(stages: seq<StageInput>, k: nat) {
    k < |stages| && forall j :: 0 <= j < k ==> Continues(stages[j])
  }

  /** `j` is the last verified stage of the first `k`. */
  predicate LastVerified(stages: seq<StageInput>, k: nat, j: nat) {
    j < k <= |stages| && Verified(stages[j]) && forall i :: j < i < k ==> !Verified(stages[i])
  }

  predicate NoneVerified(stages: seq<StageInput>, k: nat) {
    k <= |stages| && forall i :: 0 <= i < k ==> !Verified(stages[i])
  }

  /** The document of stage `k`: its own text if that verified, or else the text of the last stage that did. */
  ghost predicate HasDoc(stages: seq<StageInput>, k: nat, doc: Doc)
    requires k < |stages|
  {
    && (Verified(stages[k]) ==> doc == Text(TextOf(stages[k])))
    && (!Verified(stages[k]) ==>
          && (forall j: nat :: LastVerified(stages, k, j) ==> doc == Text(TextOf(stages[j])))
          && (NoneVerified(stages, k) ==>
                doc == if BudgetVerified(stages[k]) then Text(TextOf(stages[k])) else Fallback))
  }

  ghost predicate IsBest(stages: seq<StageInput>, k: nat, best: Option<Doc>) {
    && (forall j: nat :: LastVerified(stages, k, j) ==> best == Some(Text(TextOf(stages[j]))))
    && (NoneVerified(stages, k) ==> best == None)
  }

  lemma {:induction false} SomeLast(stages: seq<StageInput>, k: nat)
    requires k <= |stages|
    ensures NoneVerified(stages, k) || exists j: nat :: LastVerified(stages, k, j)
  {
    if k > 0 {
      if Verified(stages[k - 1]) {
        assert LastVerified(stages, k, k - 1);
      } else {
        SomeLast(stages, k - 1);
        if !NoneVerified(stages, k - 1) {
          var j: nat :| LastVerified(stages, k - 1, j);
          assert LastVerified(stages, k, j);
        }
      }
    }
  }

  lemma StageInputs(s: StageInput)
    requires s.ran.Exited?
    ensures var a := Snapshot(s);
            && (a.Escaped? <==> CheckCut(s)) && Quiet(a)
            && (a.Shipped? ==>
                  && HasStatus(s, a.status) && (Clean(a.status) <==> Verified(s))
                  && (FinalFallback(a.status) <==> !Verified(s))
                  && (StageSolved(s, a.status) <==> Solves(s))
                  && a.doc == if Verified(s) || BudgetVerified(s) then Text(TextOf(s)) else Fallback)
  {
  }

  lemma NextBest(stages: seq<StageInput>, k: nat, best: Option<Doc>)
    requires k < |stages| && IsBest(stages, k, best)
    ensures IsBest(stages, k + 1, if Verified(stages[k]) then Some(Text(TextOf(stages[k]))) else best)
  {
    var next := k + 1;
    if Verified(stages[k]) {
      forall j: nat | LastVerified(stages, next, j) ensures j == k {}
    } else {
      forall j: nat | LastVerified(stages, next, j) ensures LastVerified(stages, k, j) {}
    }
  }

  lemma StageDocument(stages: seq<StageInput>, k: nat, best: Option<Doc>)
    requires k < |stages| && IsBest(stages, k, best) && stages[k].ran.Exited? && !CheckCut(stages[k])
    ensures HasDoc(stages, k, BestForSnapshot(Snapshot(stages[k]), best))
    ensures Verified(stages[k]) ==> BestForSnapshot(Snapshot(stages[k]), best) == Text(TextOf(stages[k]))
  {
    StageInputs(stages[k]);
    SomeLast(stages, k);
  }

  lemma {:induction false} BestBeforeIs(stages: seq<StageInput>, k: nat)
    requires k <= |stages|
    ensures IsBest(stages, k, StageMachineSafety.BestBefore(stages, k))
  {
    if k > 0 {
      var s := stages[k - 1];
      BestBeforeIs(stages, k - 1);
      NextBest(stages, k - 1, StageMachineSafety.BestBefore(stages, k - 1));
      if s.ran.Exited? {
        StageInputs(s);
        if !CheckCut(s) { StageDocument(stages, k - 1, StageMachineSafety.BestBefore(stages, k - 1)); }
      }
    }
  }

  /** The document that `ResultOnDiskExactly` speaks of is told in the same way. */
  lemma StageDocTold(stages: seq<StageInput>, k: nat)
    requires k < |stages| && Writes(stages[k])
    ensures HasDoc(stages, k, StageMachineSafety.StageDoc(stages, k))
  {
    BestBeforeIs(stages, k);
    StageInputs(stages[k]);
    StageDocument(stages, k, StageMachineSafety.BestBefore(stages, k));
  }

  // ---- What the run writes and records ----

  function Written(trace: seq<Event>): seq<Doc> {
    if trace == [] then []
    else
      var e := trace[|trace| - 1];
      Written(trace[..|trace| - 1]) + if e.Wrote? then [e.doc] else []
  }

  function Recorded(trace: seq<Event>): seq<Result> {
    if trace == [] then []
    else
      var e := trace[|trace| - 1];
      Recorded(trace[..|trace| - 1]) + if e.Recorded? then [e.result] else []
  }

  lemma TraceSnoc(trace: seq<Event>, e: Event)
    ensures Written(trace + [e]) == Written(trace) + if e.Wrote? then [e.doc] else []
    ensures Recorded(trace + [e]) == Recorded(trace) + if e.Recorded? then [e.result] else []
  {
    assert (trace + [e])[..|trace|] == trace;
  }

  ghost predicate Quiet(a: Attempt) {
    a.seen == [] || (|a.seen| == 1 && !a.seen[0].Wrote? && !a.seen[0].Recorded?)
  }

  lemma TraceSees(w: World, a: Attempt)
    requires Quiet(a)
    ensures Written(Sees(w, a.seen).trace) == Written(w.trace) && Recorded(Sees(w, a.seen).trace) == Recorded(w.trace)
  {
    if a.seen == [] {
      assert w.trace + a.seen == w.trace;
    } else {
      assert a.seen == [a.seen[0]];
      TraceSnoc(w.trace, a.seen[0]);
    }
  }

  lemma TraceWrites(w: World, doc: Doc)
    ensures Written(Wrote1(w, doc).trace) == Written(w.trace) + [doc]
    ensures Recorded(Wrote1(w, doc).trace) == Recorded(w.trace)
  {
    TraceSnoc(w.trace, Wrote(doc));
  }

  /** What stage `k` puts on record with its document. */
  ghost predicate IsRecord(stages: seq<StageInput>, k: nat, r: Result, doc: Doc)
    requires k < |stages| && stages[k].ran.Exited?
  {
    && HasStatus(stages[k], r.status) && r.doc == doc && r.solved == Solves(stages[k])
    && r.inProgress == (k + 1 < |stages| && !Solves(stages[k]) && stages[k].ran.code == 0 && !stages[k].budget)
  }

  /** Stage `k` wrote its document as the next one after `stubs` others, and recorded it. */
  ghost predicate StageTold(stages: seq<StageInput>, k: nat, stubs: nat, docs: seq<Doc>, results: seq<Result>)
    requires k < |stages|
  {
    && (Writes(stages[k]) ==> stubs + k < |docs| && HasDoc(stages, k, docs[stubs + k]))
    && (Records(stages[k]) ==>
          stubs + k < |docs| && k < |results| && IsRecord(stages, k, results[k], docs[stubs + k]))
  }

  ghost predicate Told(stages: seq<StageInput>, i: nat, stubs: nat, docs: seq<Doc>, results: seq<Result>) {
    && i <= |stages| && |docs| == stubs + i && |results| == i
    && forall j: nat :: j < i ==> Continues(stages[j]) && StageTold(stages, j, stubs, docs, results)
  }

  ghost predicate AllTold(stages: seq<StageInput>, stubs: nat, docs: seq<Doc>, results: seq<Result>) {
    && (forall k: nat :: Reached(stages, k) ==> StageTold(stages, k, stubs, docs, results))
    && (forall k: nat :: k < |results| ==> Reached(stages, k) && Records(stages[k]))
  }

  ghost function WorldOf(s: Step): World {
    match s case Onward(w, _, _, _) => w case Left(w) => w case Returned(w, _) => w
  }

  lemma ShipSees(disk: Option<Doc>, s: Shipping, fallback: Status, verified: Status)
    ensures Quiet(ShipOrFallback(disk, s, fallback, verified))
  {
    assert Quiet(VerifiedOrFallback(s.solution, s.check, fallback, verified));
  }

  lemma PreferSees(a: Attempt, best: Option<Doc>)
    ensures PreferBest(a, best).seen == a.seen
  {
  }

  lemma ShipQuiet(disk: Option<Doc>, s: Shipping, fallback: Status, verified: Status, best: Option<Doc>)
    ensures Quiet(ShipOrFallback(disk, s, fallback, verified))
    ensures Quiet(PreferBest(ShipOrFallback(disk, s, fallback, verified), best))
  {
    ShipSees(disk, s, fallback, verified);
    PreferSees(ShipOrFallback(disk, s, fallback, verified), best);
  }

  lemma EarlyTold(w: World, best: Option<Doc>, s: Shipping, fallback: Status, verified: Status)
    ensures var v := WorldOf(EndEarly(w, best, s, fallback, verified));
            Written(w.trace) <= Written(v.trace) && Recorded(v.trace) == Recorded(w.trace) && v.recorded == w.recorded
  {
    var a := PreferBest(ShipOrFallback(w.disk, s, fallback, verified), best);
    ShipQuiet(w.disk, s, fallback, verified, best);
    TraceSees(w, a);
    if a.Shipped? { TraceWrites(Sees(w, a.seen), a.doc); }
  }

  lemma StageWrites(w: World, a: Attempt, doc: Doc, r: Result)
    requires Quiet(a)
    ensures var written := Wrote1(Sees(w, a.seen), doc);
            && Written(written.trace) == Written(w.trace) + [doc] && Recorded(written.trace) == Recorded(w.trace)
            && Written(written.trace + [Event.Recorded(r)]) == Written(w.trace) + [doc]
            && Recorded(written.trace + [Event.Recorded(r)]) == Recorded(w.trace) + [r]
  {
    TraceSees(w, a);
    TraceWrites(Sees(w, a.seen), doc);
    TraceSnoc(Wrote1(Sees(w, a.seen), doc).trace, Event.Recorded(r));
  }

  lemma StageWorld(w: World, best: Option<Doc>, s: StageInput, hasNext: bool, a: Attempt, doc: Doc, r: Result)
    requires s.ran.Exited? && a == Snapshot(s) && a.Shipped? && doc == BestForSnapshot(a, best)
    requires r.status == a.status && r.doc == doc && r.solved == StageSolved(s, a.status)
    requires r.inProgress == (hasNext && !(r.solved || s.ran.code != 0 || s.budget))
    ensures var written, v := Wrote1(Sees(w, a.seen), doc), WorldOf(StageStep(w, best, s, hasNext));
            v.trace == if s.cut == BeforeWrite then Sees(w, a.seen).trace
                       else if s.cut == BeforeRecord then written.trace
                       else written.trace + [Event.Recorded(r)]
    ensures WorldOf(StageStep(w, best, s, hasNext)).recorded ==
            if s.cut == BeforeWrite || s.cut == BeforeRecord then w.recorded else Some(r)
    ensures WorldOf(StageStep(w, best, s, hasNext)).disk == if s.cut == BeforeWrite then w.disk else Some(doc)
  {
  }

  /** What a stage that ran to its end adds to what was written and recorded, and leaves in the file. */
  lemma StageBooks(w: World, best: Option<Doc>, s: StageInput, hasNext: bool) returns (doc: Doc, r: Result)
    requires s.ran.Exited?
    ensures var v := WorldOf(StageStep(w, best, s, hasNext));
            && (if Writes(s) then Written(v.trace) == Written(w.trace) + [doc] && v.disk == Some(doc)
                else Written(v.trace) == Written(w.trace) && v.disk == w.disk)
            && (if Records(s) then Recorded(v.trace) == Recorded(w.trace) + [r] && v.recorded == Some(r)
                else Recorded(v.trace) == Recorded(w.trace) && v.recorded == w.recorded)
    ensures Writes(s) ==>
              var a := Snapshot(s);
              && a.Shipped? && doc == BestForSnapshot(a, best)
              && r.status == a.status && r.doc == doc && r.solved == StageSolved(s, a.status)
              && r.inProgress == (hasNext && !(r.solved || s.ran.code != 0 || s.budget))
  {
    var a := Snapshot(s);
    StageInputs(s);
    TraceSees(w, a);
    doc, r := Fallback, Result(Ok, Fallback, false, false);
    if a.Shipped? {
      doc := BestForSnapshot(a, best);
      var solved := StageSolved(s, a.status);
      r := Result(a.status, doc, solved, hasNext && !(solved || s.ran.code != 0 || s.budget));
      StageWrites(w, a, doc, r);
      StageWorld(w, best, s, hasNext, a, doc, r);
    }
  }

  /** They are what the stages' inputs call for. */
  lemma StageAdds(w: World, best: Option<Doc>, stages: seq<StageInput>, i: nat) returns (doc: Doc, r: Result)
    requires i < |stages| && IsBest(stages, i, best) && stages[i].ran.Exited?
    ensures var s, v := stages[i], WorldOf(StageStep(w, best, stages[i], i + 1 < |stages|));
            && Written(v.trace) == (if Writes(s) then Written(w.trace) + [doc] else Written(w.trace))
            && Recorded(v.trace) == (if Records(s) then Recorded(w.trace) + [r] else Recorded(w.trace))
            && (Writes(s) ==> HasDoc(stages, i, doc) && IsRecord(stages, i, r, doc))
  {
    doc, r := StageBooks(w, best, stages[i], i + 1 < |stages|);
    StageInputs(stages[i]);
    if Writes(stages[i]) { StageDocument(stages, i, best); }
  }

  lemma StageLeads(w: World, best: Option<Doc>, stages: seq<StageInput>, i: nat)
    requires i < |stages| && IsBest(stages, i, best)
    ensures var step := StageStep(w, best, stages[i], i + 1 < |stages|);
            && (Continues(stages[i]) <==> step.Onward? && !step.stop)
            && (step.Onward? ==> IsBest(stages, i + 1, step.best) && step.code == stages[i].ran.code)
  {
    if stages[i].ran.Exited? {
      StageInputs(stages[i]);
      NextBest(stages, i, best);
      if !CheckCut(stages[i]) { StageDocument(stages, i, best); }
    }
  }

  lemma ToldLater(stages: seq<StageInput>, k: nat, stubs: nat, docs: seq<Doc>, results: seq<Result>,
                  docs2: seq<Doc>, results2: seq<Result>)
    requires k < |stages| && StageTold(stages, k, stubs, docs, results) && docs <= docs2 && results <= results2
    ensures StageTold(stages, k, stubs, docs2, results2)
  {
  }

  lemma OnlyStagesRecord(stages: seq<StageInput>, i: nat, results: seq<Result>)
    requires i <= |stages| && forall j: nat :: j < i ==> Continues(stages[j])
    requires |results| == i + if i < |stages| && Records(stages[i]) then 1 else 0
    ensures forall k: nat :: k < |results| ==> Reached(stages, k) && Records(stages[k])
  {
  }

  lemma ToldReached(stages: seq<StageInput>, i: nat, stubs: nat, docs: seq<Doc>, results: seq<Result>,
                    docs2: seq<Doc>, results2: seq<Result>, k: nat)
    requires Told(stages, i, stubs, docs, results) && docs <= docs2 && results <= results2
    requires i < |stages| ==> !Continues(stages[i]) && StageTold(stages, i, stubs, docs2, results2)
    ensures Reached(stages, k) ==> StageTold(stages, k, stubs, docs2, results2)
  {
    if k < i { ToldLater(stages, k, stubs, docs, results, docs2, results2); }
  }

  /** Stage `i` is the last one reached. */
  lemma ToldAtEnd(stages: seq<StageInput>, i: nat, stubs: nat, docs: seq<Doc>, results: seq<Result>,
                  docs2: seq<Doc>, results2: seq<Result>)
    requires Told(stages, i, stubs, docs, results) && docs <= docs2 && results <= results2
    requires i < |stages| ==> !Continues(stages[i]) && StageTold(stages, i, stubs, docs2, results2)
    requires |results2| == i + if i < |stages| && Records(stages[i]) then 1 else 0
    ensures AllTold(stages, stubs, docs2, results2)
  {
    forall k: nat ensures Reached(stages, k) ==> StageTold(stages, k, stubs, docs2, results2) {
      ToldReached(stages, i, stubs, docs, results, docs2, results2, k);
    }
    OnlyStagesRecord(stages, i, results2);
  }

  lemma ToldHere(stages: seq<StageInput>, i: nat, stubs: nat, docs: seq<Doc>, results: seq<Result>, doc: Doc, r: Result)
    requires i < |stages| && |docs| == stubs + i && |results| == i
    requires Writes(stages[i]) ==> HasDoc(stages, i, doc) && IsRecord(stages, i, r, doc)
    ensures StageTold(stages, i, stubs, if Writes(stages[i]) then docs + [doc] else docs,
                      if Records(stages[i]) then results + [r] else results)
  {
  }

  lemma ToldNext(stages: seq<StageInput>, i: nat, stubs: nat, docs: seq<Doc>, results: seq<Result>, doc: Doc, r: Result)
    requires i < |stages| && Told(stages, i, stubs, docs, results) && Continues(stages[i])
    requires StageTold(stages, i, stubs, docs + [doc], results + [r])
    ensures Told(stages, i + 1, stubs, docs + [doc], results + [r])
  {
    forall j: nat | j < i + 1
      ensures Continues(stages[j]) && StageTold(stages, j, stubs, docs + [doc], results + [r])
    {
      if j < i { ToldLater(stages, j, stubs, docs, results, docs + [doc], results + [r]); }
    }
  }

  lemma FinishTold(w: World, best: Option<Doc>, code: int, f: FinalInput)
    ensures var v := Finish(w, best, code, f).world;
            Written(w.trace) <= Written(v.trace) && Recorded(v.trace) == Recorded(w.trace)
  {
    var a := PreferBest(FinalAttempt(w, code, f), best);
    FinalQuiet(w, code, f);
    TraceSees(w, a);
    if a.Shipped? { TraceWrites(Sees(w, a.seen), a.doc); }
  }

  lemma FinalQuiet(w: World, code: int, f: FinalInput)
    ensures Quiet(FinalAttempt(w, code, f))
  {
    ShipQuiet(w.disk, f.ship, WorkflowError, WorkflowErrorWithSolution, None);
    ShipQuiet(w.disk, f.ship, BudgetExhausted, BudgetExhaustedWithSolution, None);
  }

  lemma EarlyStageTold(w: World, best: Option<Doc>, s: StageInput, hasNext: bool)
    requires !s.ran.Exited?
    ensures var v := WorldOf(StageStep(w, best, s, hasNext));
            Written(w.trace) <= Written(v.trace) && Recorded(v.trace) == Recorded(w.trace) && v.recorded == w.recorded
  {
    EarlyTold(w, best, s.ship, if s.ran.Failed? then AdapterError else if s.ship.stopBefore then OperatorStopped
        else DeadlineCancelled,
      if s.ran.Failed? then AdapterErrorWithSolution
      else if s.ship.stopBefore then OperatorStoppedWithSolution else DeadlineCancelledWithSolution);
  }

  lemma StepTold(w: World, best: Option<Doc>, stages: seq<StageInput>, i: nat, stubs: nat)
    requires i < |stages| && IsBest(stages, i, best) && Told(stages, i, stubs, Written(w.trace), Recorded(w.trace))
    ensures var v := WorldOf(StageStep(w, best, stages[i], i + 1 < |stages|));
            && Written(w.trace) <= Written(v.trace) && Recorded(w.trace) <= Recorded(v.trace)
            && |Recorded(v.trace)| == i + (if Records(stages[i]) then 1 else 0)
            && StageTold(stages, i, stubs, Written(v.trace), Recorded(v.trace))
  {
    if stages[i].ran.Exited? {
      var doc, r := StageAdds(w, best, stages, i);
      ToldHere(stages, i, stubs, Written(w.trace), Recorded(w.trace), doc, r);
    } else {
      EarlyStageTold(w, best, stages[i], i + 1 < |stages|);
    }
  }

  lemma StepEnds(step: Step, f: FinalInput)
    ensures var v, t := WorldOf(step), AfterLoop(step, f).world.trace;
            Written(v.trace) <= Written(t) && Recorded(t) == Recorded(v.trace)
  {
    if step.Onward? { FinishTold(step.world, step.best, step.code, f); }
  }

  lemma LastStageTold(w: World, best: Option<Doc>, script: Script, i: nat, stubs: nat)
    requires i < |script.stages| && !Continues(script.stages[i]) && IsBest(script.stages, i, best)
    requires Told(script.stages, i, stubs, Written(w.trace), Recorded(w.trace))
    ensures var t := AfterLoop(StageStep(w, best, script.stages[i], i + 1 < |script.stages|), script.final).world.trace;
            AllTold(script.stages, stubs, Written(t), Recorded(t))
  {
    var stages := script.stages;
    var step := StageStep(w, best, stages[i], i + 1 < |stages|);
    var v, t := WorldOf(step), AfterLoop(step, script.final).world.trace;
    StepTold(w, best, stages, i, stubs);
    StepEnds(step, script.final);
    ToldLater(stages, i, stubs, Written(v.trace), Recorded(v.trace), Written(t), Recorded(t));
    ToldAtEnd(stages, i, stubs, Written(w.trace), Recorded(w.trace), Written(t), Recorded(t));
  }

  lemma {:induction false} LoopTold(w: World, best: Option<Doc>, code: int, script: Script, i: nat, stubs: nat)
    requires i <= |script.stages| && IsBest(script.stages, i, best)
    requires Told(script.stages, i, stubs, Written(w.trace), Recorded(w.trace))
    ensures var t := AfterLoop(Loop(w, best, code, script, i), script.final).world.trace;
            AllTold(script.stages, stubs, Written(t), Recorded(t))
    decreases |script.stages| - i
  {
    var stages := script.stages;
    if i == |stages| {
      FinishTold(w, best, code, script.final);
      var t := Finish(w, best, code, script.final).world.trace;
      ToldAtEnd(stages, i, stubs, Written(w.trace), Recorded(w.trace), Written(t), Recorded(t));
    } else if Continues(stages[i]) {
      var step := StageStep(w, best, stages[i], i + 1 < |stages|);
      var doc, r := StageAdds(w, best, stages, i);
      StageLeads(w, best, stages, i);
      ToldHere(stages, i, stubs, Written(w.trace), Recorded(w.trace), doc, r);
      ToldNext(stages, i, stubs, Written(w.trace), Recorded(w.trace), doc, r);
      LoopTold(step.world, step.best, step.code, script, i + 1, stubs);
    } else {
      StageLeads(w, best, stages, i);
      LastStageTold(w, best, script, i, stubs);
    }
  }

  lemma RecoveryTold(w: World, s: Shipping)
    ensures var v := ExceptionResult(w, s).world;
            Written(w.trace) <= Written(v.trace) && Recorded(v.trace) == Recorded(w.trace)
  {
    var a := ShipOrFallback(w.disk, s, AdapterError, AdapterErrorWithSolution);
    ShipQuiet(w.disk, s, AdapterError, AdapterErrorWithSolution, None);
    TraceSees(w, a);
    if a.Shipped? { TraceWrites(Sees(w, a.seen), a.doc); }
  }

  lemma AllToldLater(stages: seq<StageInput>, stubs: nat, docs: seq<Doc>, results: seq<Result>, docs2: seq<Doc>)
    requires AllTold(stages, stubs, docs, results) && docs <= docs2
    ensures AllTold(stages, stubs, docs2, results)
  {
    forall k: nat | Reached(stages, k) ensures StageTold(stages, k, stubs, docs2, results) {
      ToldLater(stages, k, stubs, docs, results, docs2, results);
    }
  }

  lemma ProblemTold(disk: Option<Doc>, script: Script)
    requires !script.inputError
    ensures var t := RunProblem(World(disk, None, []), script).world.trace;
            AllTold(script.stages, if script.stubOk then 1 else 0, Written(t), Recorded(t))
  {
    var w0 := World(disk, None, []);
    var w, stubs := Stub(w0, script), if script.stubOk then 1 else 0;
    TraceWrites(w0, Fallback);
    assert |Written(w.trace)| == stubs && Recorded(w.trace) == [];
    LoopTold(w, None, 0, script, 0, stubs);
  }

  lemma EndTold(e: Ended, script: Script)
    ensures var v := Conclude(Recover(e, script), script).world;
            Written(e.world.trace) <= Written(v.trace) && Recorded(v.trace) == Recorded(e.world.trace)
  {
    var r := Recover(e, script);
    RecoveryTold(e.world, script.recovery);
    RecoveryTold(r.world, script.last);
  }

  /** Over every run each stage it reaches writes, after the stub, its own text if the check accepted that in a
      stage that counts as verified, else the text of the last stage that did, else a text verified under an
      exhausted budget, or the fallback; it records the same document, with the status its inputs call for;
      and nothing but stages records. */
  lemma StagesWriteExactly(disk: Option<Doc>, script: Script)
    requires !script.inputError
    ensures var t := Run(disk, script).world.trace;
            AllTold(script.stages, if script.stubOk then 1 else 0, Written(t), Recorded(t))
  {
    var e := RunProblem(World(disk, None, []), script);
    ProblemTold(disk, script);
    EndTold(e, script);
    AllToldLater(script.stages, if script.stubOk then 1 else 0, Written(e.world.trace), Recorded(e.world.trace),
                 Written(Run(disk, script).world.trace));
  }

  // ---- What the run returns ----

  /** The stages end with the `n`-th, or after the last. */
  predicate EndsAt(stages: seq<StageInput>, n: nat) {
    && n <= |stages| && (forall j :: 0 <= j < n ==> Continues(stages[j]))
    && (n < |stages| ==> !Continues(stages[n]))
  }

  /** They end well enough for the finalization, the last one with this exit code. */
  predicate Finalizes(stages: seq<StageInput>, n: nat, code: int) {
    && EndsAt(stages, n)
    && if n == |stages| then code == 0
       else Records(stages[n]) && stages[n].cut == NoCut && stages[n].ran == Exited(code)
  }

  /** `j` is the last verified stage of those the run reaches. */
  ghost predicate LastReached(stages: seq<StageInput>, j: nat) {
    && Reached(stages, j) && Verified(stages[j])
    && forall k: nat :: j < k && Reached(stages, k) ==> !Verified(stages[k])
  }

  /** The file holds the document written last, or, before any write, what it held at the start. */
  ghost predicate FileIs(start: Option<Doc>, w: World) {
    w.disk == if Written(w.trace) == [] then start else Some(Written(w.trace)[|Written(w.trace)| - 1])
  }

  lemma StubFile(disk: Option<Doc>, script: Script)
    ensures FileIs(disk, Stub(World(disk, None, []), script))
  {
    TraceWrites(World(disk, None, []), Fallback);
  }

  lemma StageFile(start: Option<Doc>, w: World, best: Option<Doc>, s: StageInput, hasNext: bool)
    requires FileIs(start, w) && s.ran.Exited?
    ensures FileIs(start, WorldOf(StageStep(w, best, s, hasNext)))
  {
    var doc, r := StageBooks(w, best, s, hasNext);
  }

  /** What the loop comes to from a stage that the next one does not follow, or after the last. */
  ghost function LoopEnd(v: World, b: Option<Doc>, script: Script, n: nat): Step
    requires n <= |script.stages|
  {
    if n == |script.stages| then Onward(v, b, 0, true)
    else StageStep(v, b, script.stages[n], n + 1 < |script.stages|)
  }

  lemma LoopStops(w: World, best: Option<Doc>, script: Script, n: nat)
    requires EndsAt(script.stages, n) && IsBest(script.stages, n, best)
    ensures Loop(w, best, 0, script, n) == LoopEnd(w, best, script, n)
  {
    if n < |script.stages| { StageLeads(w, best, script.stages, n); }
  }

  lemma NextStage(start: Option<Doc>, w: World, best: Option<Doc>, stages: seq<StageInput>, i: nat)
    requires i < |stages| && IsBest(stages, i, best) && FileIs(start, w) && Continues(stages[i])
    ensures var step := StageStep(w, best, stages[i], i + 1 < |stages|);
            && step.Onward? && !step.stop && step.code == 0
            && IsBest(stages, i + 1, step.best) && FileIs(start, step.world)
  {
    StageLeads(w, best, stages, i);
    StageFile(start, w, best, stages[i], i + 1 < |stages|);
  }

  /** What the stages came to when the n-th began, or after the last. */
  lemma {:induction false} LoopAt(start: Option<Doc>, w: World, best: Option<Doc>, script: Script, i: nat, n: nat)
    returns (v: World, b: Option<Doc>)
    requires i <= n && EndsAt(script.stages, n) && IsBest(script.stages, i, best) && FileIs(start, w)
    ensures IsBest(script.stages, n, b) && FileIs(start, v)
    ensures Loop(w, best, 0, script, i) == Loop(v, b, 0, script, n)
    decreases n - i
  {
    if i == n {
      v, b := w, best;
    } else {
      assert Continues(script.stages[i]);
      NextStage(start, w, best, script.stages, i);
      var step := StageStep(w, best, script.stages[i], i + 1 < |script.stages|);
      v, b := LoopAt(start, step.world, step.best, script, i + 1, n);
    }
  }

  /** The best text at the end is that of the last verified stage reached. */
  lemma BestAtEnd(stages: seq<StageInput>, n: nat, m: nat, best: Option<Doc>, j: nat)
    requires EndsAt(stages, n) && n <= m <= |stages| && m <= n + 1 && IsBest(stages, m, best)
    requires m == n && n < |stages| ==> !Verified(stages[n])
    ensures LastReached(stages, j) ==> best == Some(Text(TextOf(stages[j])))
  {
    if LastReached(stages, j) {
      forall i | j < i < m ensures !Verified(stages[i]) { assert Reached(stages, i); }
      assert LastVerified(stages, m, j);
    }
  }

  lemma BestIsLast(stages: seq<StageInput>, n: nat, m: nat, best: Option<Doc>)
    requires EndsAt(stages, n) && n <= m <= |stages| && m <= n + 1 && IsBest(stages, m, best)
    requires m == n && n < |stages| ==> !Verified(stages[n])
    ensures best.Some? ==> exists j: nat :: LastReached(stages, j) && best == Some(Text(TextOf(stages[j])))
  {
    if best.Some? {
      SomeLast(stages, m);
      var j: nat :| LastVerified(stages, m, j);
      assert Reached(stages, j);
      assert forall k: nat :: j < k && Reached(stages, k) ==> k <= n;
      assert LastReached(stages, j);
    }
  }

  /** The final pass accepts the text it finds. */
  predicate FinalAccepts(f: FinalInput) {
    !f.rejects && f.found.Some? && f.found.value.ReadText? && f.check == Accept
  }

  /** It finds none that it can accept. */
  predicate FinalRejects(f: FinalInput) {
    f.found.None? || f.rejects || f.found.value.ReadError? || f.check == Reject
  }

  lemma FinishReturns(w: World, best: Option<Doc>, f: FinalInput)
    requires !f.escapes && !f.budget
    ensures var r := Finish(w, best, 0, f).result;
            && (FinalAccepts(f) ==>
                  r == Some(Result(if f.partial then PartialUnreviewed else Ok, Text(f.found.value.tex),
                                   !f.partial && f.agreed, false)))
            && (FinalRejects(f) && best.Some? ==> r == Some(Result(BestStageSolution, best.value, false, false)))
            && (FinalRejects(f) && best.None? ==>
                  r == Some(Result(if f.found.None? then MissingSolution
                                   else if f.rejects then SolutionContractError
                                   else if f.found.value.ReadError? then SolutionReadError
                                   else SolutionContractError, Fallback, false, false)))
  {
  }

  lemma FinishBest(w: World, best: Option<Doc>, code: int, f: FinalInput)
    ensures var r := Finish(w, best, code, f).result;
            r.Some? && r.value.status == BestStageSolution ==> best == Some(r.value.doc)
  {
  }

  /** Stages' results and those made up by a recovery pass have other statuses. */
  lemma OthersNotBest(w: World, s: Shipping)
    ensures var r := ExceptionResult(w, s).result; r.Some? ==> r.value.status != BestStageSolution
  {
  }

  /** A result that says it is the best stage solution carries the text of the last verified stage reached,
      whatever interrupts the run. */
  lemma BestReturned(disk: Option<Doc>, script: Script)
    requires Run(disk, script).result.Some?
    ensures var r := Run(disk, script).result.value;
            r.status == BestStageSolution ==>
              exists j: nat :: LastReached(script.stages, j) && r.doc == Text(TextOf(script.stages[j]))
  {
    var e := RunProblem(World(disk, None, []), script);
    var r := Recover(e, script);
    OthersNotBest(e.world, script.recovery);
    OthersNotBest(r.world, script.last);
    if !script.inputError {
      ProblemBest(disk, script);
      RecordedNotBest(disk, script);
    }
  }

  /** What is on record when the run ends is what was recorded last. */
  ghost predicate OnRecord(w: World) {
    w.recorded == if Recorded(w.trace) == [] then None else Some(Recorded(w.trace)[|Recorded(w.trace)| - 1])
  }

  lemma {:induction false} LoopOnRecord(w: World, best: Option<Doc>, code: int, script: Script, i: nat)
    requires i <= |script.stages| && OnRecord(w)
    ensures OnRecord(AfterLoop(Loop(w, best, code, script, i), script.final).world)
    decreases |script.stages| - i
  {
    if i == |script.stages| {
      FinishOnRecord(w, best, code, script.final);
    } else {
      var step := StageStep(w, best, script.stages[i], i + 1 < |script.stages|);
      StageOnRecord(w, best, script.stages[i], i + 1 < |script.stages|);
      if step.Onward? {
        if step.stop { FinishOnRecord(step.world, step.best, step.code, script.final); }
        else { LoopOnRecord(step.world, step.best, step.code, script, i + 1); }
      }
    }
  }

  lemma FinishOnRecord(w: World, best: Option<Doc>, code: int, f: FinalInput)
    requires OnRecord(w)
    ensures OnRecord(Finish(w, best, code, f).world)
  {
    FinishTold(w, best, code, f);
  }

  lemma StageOnRecord(w: World, best: Option<Doc>, s: StageInput, hasNext: bool)
    requires OnRecord(w)
    ensures OnRecord(WorldOf(StageStep(w, best, s, hasNext)))
  {
    if s.ran.Exited? {
      var doc, r := StageBooks(w, best, s, hasNext);
    } else {
      EarlyStageTold(w, best, s, hasNext);
    }
  }

  lemma RecordedNotBest(disk: Option<Doc>, script: Script)
    requires !script.inputError
    ensures var e := RunProblem(World(disk, None, []), script);
            e.world.recorded.Some? ==> e.world.recorded.value.status != BestStageSolution
  {
    var w := Stub(World(disk, None, []), script);
    TraceWrites(World(disk, None, []), Fallback);
    LoopOnRecord(w, None, 0, script, 0);
    ProblemTold(disk, script);
    var e := RunProblem(World(disk, None, []), script);
    var results := Recorded(e.world.trace);
    if results != [] {
      var k := |results| - 1;
      assert Reached(script.stages, k) && Records(script.stages[k]);
      StatusNotBest(script.stages[k], results[k].status);
    }
  }

  lemma StatusNotBest(s: StageInput, status: Status)
    requires s.ran.Exited? && HasStatus(s, status)
    ensures status != BestStageSolution
  {
  }

  ghost function LastEnd(stages: seq<StageInput>, i: nat): (n: nat)
    requires i <= |stages| && forall j :: 0 <= j < i ==> Continues(stages[j])
    ensures EndsAt(stages, n)
    decreases |stages| - i
  {
    if i < |stages| && Continues(stages[i]) then LastEnd(stages, i + 1) else i
  }

  lemma EarlyBest(w: World, best: Option<Doc>, s: StageInput, hasNext: bool, f: FinalInput)
    requires !s.ran.Exited?
    ensures var r := AfterLoop(StageStep(w, best, s, hasNext), f).result;
            r.Some? && r.value.status == BestStageSolution ==> best == Some(r.value.doc)
  {
  }

  /** Such a result carries the text of the last verified stage reached. */
  ghost predicate CarriesBest(stages: seq<StageInput>, r: Option<Result>) {
    r.Some? && r.value.status == BestStageSolution ==>
      exists j: nat :: LastReached(stages, j) && r.value.doc == Text(TextOf(stages[j]))
  }

  lemma FinishCarries(w: World, best: Option<Doc>, code: int, f: FinalInput, stages: seq<StageInput>, n: nat, m: nat)
    requires EndsAt(stages, n) && n <= m <= |stages| && m <= n + 1 && IsBest(stages, m, best)
    requires m == n && n < |stages| ==> !Verified(stages[n])
    ensures CarriesBest(stages, Finish(w, best, code, f).result)
  {
    FinishBest(w, best, code, f);
    BestIsLast(stages, n, m, best);
  }

  lemma LastStageCarries(w: World, best: Option<Doc>, stages: seq<StageInput>, n: nat, f: FinalInput)
    requires n < |stages| && EndsAt(stages, n) && IsBest(stages, n, best)
    ensures CarriesBest(stages, AfterLoop(StageStep(w, best, stages[n], n + 1 < |stages|), f).result)
  {
    if stages[n].ran.Exited? {
      var step := StageStep(w, best, stages[n], n + 1 < |stages|);
      StageLeads(w, best, stages, n);
      assert !step.Returned?;
      if step.Onward? { FinishCarries(step.world, step.best, step.code, f, stages, n, n + 1); }
    } else {
      EarlyBest(w, best, stages[n], n + 1 < |stages|, f);
      BestIsLast(stages, n, n, best);
    }
  }

  lemma ProblemBest(disk: Option<Doc>, script: Script)
    requires !script.inputError
    ensures CarriesBest(script.stages, RunProblem(World(disk, None, []), script).result)
  {
    var stages, n := script.stages, LastEnd(script.stages, 0);
    StubFile(disk, script);
    var v, b := LoopAt(disk, Stub(World(disk, None, []), script), None, script, 0, n);
    LoopStops(v, b, script, n);
    if n == |stages| {
      FinishCarries(v, b, 0, script.final, stages, n, n);
    } else {
      LastStageCarries(v, b, stages, n, script.final);
    }
  }

  // ---- What the run returns when it ends by itself ----

  /** What a pass that ships a document in a hurry returns, when the file holds `file` and `best` is the
      document of the last verified stage. */
  ghost predicate ShipReturns(file: Option<Doc>, best: Option<Doc>, s: Shipping, fallback: Status, verified: Status,
                              r: Result)
  {
    && !r.solved && !r.inProgress
    && (s.Stop() ==>
          && r.status == (if s.published.Some? then OperatorStoppedWithSolution else OperatorStopped)
          && r.doc == Hurried(file, s))
    && (!s.Stop() && best.Some? ==> r.status == BestStageSolution && r.doc == best.value)
    && (!s.Stop() && best.None? && s.deadline ==>
          && r.status == (if s.published.Some? then DeadlineCancelledWithSolution else DeadlineCancelled)
          && r.doc == Hurried(file, s))
    && (!s.Stop() && best.None? && !s.deadline ==>
          if s.solution.Some? && s.solution.value.ReadText? && s.check == Accept
          then r.status == verified && r.doc == Text(s.solution.value.tex)
          else r.status == fallback && r.doc == Fallback)
  }

  /** The document shipped when there is no time to check one. */
  function Hurried(file: Option<Doc>, s: Shipping): Doc {
    if s.published.Some? then Text(s.published.value)
    else if s.readable && file.Some? then file.value
    else Fallback
  }

  lemma ShutdownReturns(file: Option<Doc>, s: Shipping, fallback: Status, verified: Status)
    requires s.Shutdown() && !s.escapes
    ensures var a := ShipOrFallback(file, s, fallback, verified);
            && a.Shipped? && a.doc == Hurried(file, s)
            && (s.Stop() ==> a.status == if s.published.Some? then OperatorStoppedWithSolution else OperatorStopped)
            && (!s.Stop() ==>
                  a.status == if s.published.Some? then DeadlineCancelledWithSolution else DeadlineCancelled)
  {
  }

  lemma CheckReturns(file: Option<Doc>, s: Shipping, fallback: Status, verified: Status)
    requires !s.Shutdown() && !StageMachineSafety.Escapes(s)
    ensures var a := ShipOrFallback(file, s, fallback, verified);
            && a.Shipped?
            && if s.solution.Some? && s.solution.value.ReadText? && s.check == Accept
               then a.status == verified && a.doc == Text(s.solution.value.tex)
               else a.status == fallback && a.doc == Fallback
  {
  }

  lemma Preferred(a: Attempt, best: Option<Doc>)
    requires a.Shipped?
    ensures PreferBest(a, best).Shipped?
    ensures a.status in {OperatorStopped, OperatorStoppedWithSolution} ==> PreferBest(a, best) == a
    ensures FinalFallback(a.status) ==>
              var p := PreferBest(a, best);
              if best.None? then p == a else p.status == BestStageSolution && p.doc == best.value
  {
  }

  lemma PassReturns(file: Option<Doc>, best: Option<Doc>, s: Shipping, fallback: Status, verified: Status)
    requires FinalFallback(fallback) && FinalFallback(verified) && !StageMachineSafety.Escapes(s)
    ensures var a := PreferBest(ShipOrFallback(file, s, fallback, verified), best);
            a.Shipped? && ShipReturns(file, best, s, fallback, verified, Result(a.status, a.doc, false, false))
  {
    Preferred(ShipOrFallback(file, s, fallback, verified), best);
    if s.Shutdown() {
      ShutdownReturns(file, s, fallback, verified);
    } else {
      CheckReturns(file, s, fallback, verified);
    }
  }

  /** A pass that ships a document in a hurry ends the run: after a stage that was cancelled or failed, or in
      the finalization after a failing exit code or an exhausted budget. */
  ghost predicate ShipsAt(script: Script, n: nat, s: Shipping, fallback: Status, verified: Status) {
    || (Reached(script.stages, n) && s == script.stages[n].ship && !s.writeFails
        && match script.stages[n].ran
           case Cancelled => fallback == DeadlineCancelled && verified == DeadlineCancelledWithSolution
           case Failed => fallback == AdapterError && verified == AdapterErrorWithSolution
           case Exited(_) => false)
    || (s == script.final.ship && !script.final.escapes && ShipsFinally(script, n, fallback, verified))
  }

  ghost predicate ShipsFinally(script: Script, n: nat, fallback: Status, verified: Status) {
    || (fallback == WorkflowError && verified == WorkflowErrorWithSolution
        && exists code: int :: code != 0 && Finalizes(script.stages, n, code))
    || (fallback == BudgetExhausted && verified == BudgetExhaustedWithSolution
        && script.final.budget && Finalizes(script.stages, n, 0))
  }

  /** The document of the last verified stage reached. */
  ghost predicate IsBestReached(stages: seq<StageInput>, best: Option<Doc>) {
    match best
    case Some(doc) => exists j: nat :: LastReached(stages, j) && doc == Text(TextOf(stages[j]))
    case None => forall j: nat :: Reached(stages, j) ==> !Verified(stages[j])
  }

  lemma BestIsReached(stages: seq<StageInput>, n: nat, m: nat, best: Option<Doc>)
    requires EndsAt(stages, n) && n <= m <= |stages| && m <= n + 1 && IsBest(stages, m, best)
    requires m == n && n < |stages| ==> !Verified(stages[n])
    ensures IsBestReached(stages, best)
  {
    BestIsLast(stages, n, m, best);
    if best.None? {
      SomeLast(stages, m);
      forall j: nat | Reached(stages, j) ensures !Verified(stages[j]) {
        assert j <= n;
      }
    }
  }

  lemma FinalStep(start: Option<Doc>, w: World, best: Option<Doc>, stages: seq<StageInput>, n: nat, code: int)
    requires n < |stages| && Finalizes(stages, n, code) && IsBest(stages, n, best) && FileIs(start, w)
    ensures var step := StageStep(w, best, stages[n], n + 1 < |stages|);
            step.Onward? && step.code == code && FileIs(start, step.world) && IsBestReached(stages, step.best)
  {
    StageLeads(w, best, stages, n);
    StageFile(start, w, best, stages[n], n + 1 < |stages|);
    StageInputs(stages[n]);
    var step := StageStep(w, best, stages[n], n + 1 < |stages|);
    BestIsReached(stages, n, n + 1, step.best);
  }

  /** The world in which the finalization begins. */
  lemma FinalWorld(disk: Option<Doc>, script: Script, n: nat, code: int) returns (v: World, best: Option<Doc>)
    requires !script.inputError && Finalizes(script.stages, n, code)
    ensures FileIs(disk, v) && IsBestReached(script.stages, best)
    ensures RunProblem(World(disk, None, []), script) == Finish(v, best, code, script.final)
  {
    StubFile(disk, script);
    v, best := LoopAt(disk, Stub(World(disk, None, []), script), None, script, 0, n);
    LoopStops(v, best, script, n);
    if n < |script.stages| {
      FinalStep(disk, v, best, script.stages, n, code);
      var step := StageStep(v, best, script.stages[n], n + 1 < |script.stages|);
      v, best := step.world, step.best;
    } else {
      BestIsReached(script.stages, n, n, best);
    }
  }

  /** A result of the run's own that reaches the list is the result, and nothing is written after it. */
  lemma OwnResult(disk: Option<Doc>, script: Script)
    requires !script.resultLost
    ensures var e := RunProblem(World(disk, None, []), script);
            e.result.Some? && !e.result.value.inProgress ==> Run(disk, script) == e
  {
  }

  /** A final text that the check accepts is returned as it is, whatever the stages verified; after any other
      end of a well-run workflow the text of the last verified stage is returned if there is one, and the
      fallback if not. */
  lemma FinalReturned(disk: Option<Doc>, script: Script, n: nat)
    requires !script.inputError && Finalizes(script.stages, n, 0) && !script.final.budget
    requires !script.final.escapes && !script.resultLost
    ensures var f, r := script.final, Run(disk, script).result;
            && (FinalAccepts(f) ==>
                  r == Some(Result(if f.partial then PartialUnreviewed else Ok, Text(f.found.value.tex),
                                   !f.partial && f.agreed, false)))
            && (FinalRejects(f) && (exists j: nat :: LastReached(script.stages, j)) ==>
                  && r.Some? && r.value.status == BestStageSolution && !r.value.solved && !r.value.inProgress
                  && forall j: nat :: LastReached(script.stages, j) ==> r.value.doc == Text(TextOf(script.stages[j])))
            && (FinalRejects(f) && (forall j: nat :: Reached(script.stages, j) ==> !Verified(script.stages[j])) ==>
                  r == Some(Result(if f.found.None? then MissingSolution
                                   else if f.rejects then SolutionContractError
                                   else if f.found.value.ReadError? then SolutionReadError
                                   else SolutionContractError, Fallback, false, false)))
  {
    var v, best := FinalWorld(disk, script, n, 0);
    OwnResult(disk, script);
    FinishReturns(v, best, script.final);
    LastIsOne(script.stages);
  }

  lemma LastIsOne(stages: seq<StageInput>)
    ensures forall i: nat, j: nat :: LastReached(stages, i) && LastReached(stages, j) ==> i == j
  {
  }

  /** The document written last but one, or what the file held at the start. */
  function Before(disk: Option<Doc>, docs: seq<Doc>): Option<Doc> {
    if |docs| < 2 then disk else Some(docs[|docs| - 2])
  }

  lemma ShipWrites(w: World, best: Option<Doc>, s: Shipping, fallback: Status, verified: Status, start: Option<Doc>)
    requires FileIs(start, w) && FinalFallback(fallback) && FinalFallback(verified) && !StageMachineSafety.Escapes(s)
    ensures var a := PreferBest(ShipOrFallback(w.disk, s, fallback, verified), best);
            a.Shipped? && var docs := Written(Wrote1(Sees(w, a.seen), a.doc).trace);
            && docs != [] && ShipReturns(Before(start, docs), best, s, fallback, verified,
                                         Result(a.status, a.doc, false, false))
  {
    var a := PreferBest(ShipOrFallback(w.disk, s, fallback, verified), best);
    PassReturns(w.disk, best, s, fallback, verified);
    ShipQuiet(w.disk, s, fallback, verified, best);
    TraceSees(w, a);
    TraceWrites(Sees(w, a.seen), a.doc);
  }

  ghost predicate HurriedEnd(disk: Option<Doc>, stages: seq<StageInput>, e: Ended, s: Shipping, fallback: Status,
                             verified: Status)
  {
    && e.result.Some? && !e.result.value.inProgress && Written(e.world.trace) != []
    && exists best :: IsBestReached(stages, best) &&
                      ShipReturns(Before(disk, Written(e.world.trace)), best, s, fallback, verified, e.result.value)
  }

  lemma FinallyReturned(disk: Option<Doc>, script: Script, n: nat, fallback: Status, verified: Status)
    requires !script.inputError && ShipsFinally(script, n, fallback, verified) && !script.final.escapes
    requires !StageMachineSafety.Escapes(script.final.ship)
    ensures HurriedEnd(disk, script.stages, RunProblem(World(disk, None, []), script), script.final.ship, fallback,
                       verified)
  {
    var code: int := 0;
    if fallback == WorkflowError { code :| code != 0 && Finalizes(script.stages, n, code); }
    var v, best := FinalWorld(disk, script, n, code);
    ShipWrites(v, best, script.final.ship, fallback, verified, disk);
  }

  /** A stage that was cancelled or failed ends the run with what its pass ships. */
  lemma EarlyShips(start: Option<Doc>, w: World, best: Option<Doc>, s: StageInput, hasNext: bool)
    requires FileIs(start, w) && !s.ran.Exited? && !s.ship.writeFails && !StageMachineSafety.Escapes(s.ship)
    ensures var step := StageStep(w, best, s, hasNext);
            step.Returned? && var docs := Written(step.world.trace);
            && docs != [] && !step.result.inProgress
            && ShipReturns(Before(start, docs), best, s.ship,
                           if s.ran.Failed? then AdapterError else DeadlineCancelled,
                           if s.ran.Failed? then AdapterErrorWithSolution else DeadlineCancelledWithSolution,
                           step.result)
  {
    if s.ran.Failed? {
      ShipWrites(w, best, s.ship, AdapterError, AdapterErrorWithSolution, start);
    } else {
      if s.ship.stopBefore {
        StopsAlike(w.disk, s.ship, OperatorStopped, OperatorStoppedWithSolution, DeadlineCancelled,
                   DeadlineCancelledWithSolution);
      }
      ShipWrites(w, best, s.ship, DeadlineCancelled, DeadlineCancelledWithSolution, start);
    }
  }

  /** After a stop the statuses for a pass without one do not matter. */
  lemma StopsAlike(disk: Option<Doc>, s: Shipping, f1: Status, v1: Status, f2: Status, v2: Status)
    requires s.Stop()
    ensures ShipOrFallback(disk, s, f1, v1) == ShipOrFallback(disk, s, f2, v2)
  {
  }

  lemma EarlyReturned(disk: Option<Doc>, script: Script, n: nat, fallback: Status, verified: Status)
    requires !script.inputError && Reached(script.stages, n) && !script.stages[n].ran.Exited?
    requires !script.stages[n].ship.writeFails && !StageMachineSafety.Escapes(script.stages[n].ship)
    requires fallback == (if script.stages[n].ran.Failed? then AdapterError else DeadlineCancelled)
    requires verified ==
             if script.stages[n].ran.Failed? then AdapterErrorWithSolution else DeadlineCancelledWithSolution
    ensures HurriedEnd(disk, script.stages, RunProblem(World(disk, None, []), script), script.stages[n].ship, fallback,
                       verified)
  {
    StubFile(disk, script);
    var v, best := LoopAt(disk, Stub(World(disk, None, []), script), None, script, 0, n);
    LoopStops(v, best, script, n);
    BestIsReached(script.stages, n, n, best);
    EarlyShips(disk, v, best, script.stages[n], n + 1 < |script.stages|);
  }

  /** A run that ends in a hurry returns what `ShipReturns` says, told from the inputs and from what the file
      held before. */
  lemma HurriedReturned(disk: Option<Doc>, script: Script, n: nat, s: Shipping, fallback: Status, verified: Status)
    requires !script.inputError && ShipsAt(script, n, s, fallback, verified)
    requires !script.resultLost && !StageMachineSafety.Escapes(s)
    ensures var t := Run(disk, script);
            HurriedEnd(disk, script.stages, t, s, fallback, verified)
  {
    OwnResult(disk, script);
    if s == script.final.ship && !script.final.escapes && ShipsFinally(script, n, fallback, verified) {
      FinallyReturned(disk, script, n, fallback, verified);
    } else {
      EarlyReturned(disk, script, n, fallback, verified);
    }
  }

  /** What a recovery pass or the final pass makes up is told in the same way, with no stage's text preferred;
      a failing write leaves the file alone. */
  lemma MadeUpReturned(w: World, s: Shipping)
    requires !StageMachineSafety.Escapes(s)
    ensures var e := ExceptionResult(w, s);
            && e.result.Some?
            && ShipReturns(w.disk, None, s, AdapterError, AdapterErrorWithSolution, e.result.value)
            && e.world.disk == (if s.writeFails then w.disk else Some(e.result.value.doc))
  {
    if s.Shutdown() {
      ShutdownReturns(w.disk, s, AdapterError, AdapterErrorWithSolution);
    } else {
      CheckReturns(w.disk, s, AdapterError, AdapterErrorWithSolution);
    }
  }
}
