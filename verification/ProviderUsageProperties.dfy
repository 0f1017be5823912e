/** Recorded usage never shrinks, and the terminal estimate stays within its bounds. */
module ProviderUsageProperties {
  import opened Wrappers
  import opened ProviderUsage

  // ---- The estimate ----

  lemma CeilIs(x: real, n: int)
    ensures Ceil(x) <= n <==> x <= n as real
  {
  }

  /** The two minima amount to the elapsed time at the assumed speed, rounded up, within the allowance. */
  lemma UnseenIs(allowance: nat, elapsed: real)
    requires elapsed >= 0.0
    ensures Unseen(allowance, elapsed)
            == (if Ceil(elapsed * TOKENS_PER_SECOND) < allowance then Ceil(elapsed * TOKENS_PER_SECOND) else allowance)
    ensures 0 <= Unseen(allowance, elapsed) <= allowance
  {
    var limit := allowance as real / TOKENS_PER_SECOND;
    assert limit * TOKENS_PER_SECOND == allowance as real;
    if elapsed >= limit {
      assert Ceil(limit * TOKENS_PER_SECOND) == allowance;
      assert elapsed * TOKENS_PER_SECOND >= allowance as real;
    } else {
      CeilIs(elapsed * TOKENS_PER_SECOND, allowance);
    }
  }

  lemma UnseenMonotone(allowance: nat, a: real, b: real)
    requires 0.0 <= a <= b
    ensures Unseen(allowance, a) <= Unseen(allowance, b)
  {
    UnseenIs(allowance, a);
    UnseenIs(allowance, b);
    CeilIs(a * TOKENS_PER_SECOND, Ceil(b * TOKENS_PER_SECOND));
    CeilIs(b * TOKENS_PER_SECOND, Ceil(b * TOKENS_PER_SECOND));
  }

  /** Between nothing, and the inputs with all the output that was seen or allowed. */
  lemma EstimateBounds(row: Row)
    requires Estimable(row)
    ensures 0.0 <= TerminalEstimate(row).value <= Price(row.inputUsd.value, MaxInt(row.visible, row.allowance),
            row.outputRate.value)
    ensures row.rejected ==> TerminalEstimate(row).value == Price(0.0, row.visible, row.outputRate.value)
  {
    UnseenIs(row.allowance, Elapsed(row));
    EstimateIs(row);
    var input, most := if row.rejected then 0.0 else row.inputUsd.value, MaxInt(row.visible, row.allowance);
    PriceMonotone(input, 0, OutputTokens(row), row.outputRate.value);
    PriceMonotone(input, OutputTokens(row), most, row.outputRate.value);
  }

  /** A terminal response seen later, or with more text, is never estimated cheaper. */
  lemma EstimateMonotone(row: Row, later: real, visible: int)
    requires Estimable(row) && later >= row.terminalAt.value && visible >= row.visible
    ensures TerminalEstimate(row).value <= TerminalEstimate(row.(terminalAt := Some(later), visible := visible)).value
  {
    var r := row.(terminalAt := Some(later), visible := visible);
    OutputsMonotone(row, later, visible);
    EstimateIs(row);
    EstimateIs(r);
    PriceMonotone(if row.rejected then 0.0
        else row.inputUsd.value, OutputTokens(row), OutputTokens(r), row.outputRate.value);
  }

  lemma PriceMonotone(input: real, a: int, b: int, rate: real)
    requires a <= b && rate >= 0.0
    ensures Price(input, a, rate) <= Price(input, b, rate)
  {
    assert Price(input, b, rate) - Price(input, a, rate) == (b - a) as real * rate;
  }

  lemma OutputsMonotone(row: Row, later: real, visible: int)
    requires Estimable(row) && later >= row.terminalAt.value && visible >= row.visible
    ensures OutputTokens(row) <= OutputTokens(row.(terminalAt := Some(later), visible := visible))
  {
    var r := row.(terminalAt := Some(later), visible := visible);
    assert 0.0 <= Elapsed(row) <= Elapsed(r);
    UnseenMonotone(row.allowance, Elapsed(row), Elapsed(r));
  }

  function OutputTokens(row: Row): int
    requires Estimable(row)
  {
    MaxInt(row.visible, if row.rejected then 0 else Unseen(row.allowance, Elapsed(row)))
  }

  lemma EstimateIs(row: Row)
    requires Estimable(row)
    ensures TerminalEstimate(row)
         == Some(Price(if row.rejected then 0.0 else row.inputUsd.value, OutputTokens(row), row.outputRate.value))
  {
  }

  // ---- Runs ----

  /** Row `b` records at least what `a` does. */
  predicate Grown(a: Row, b: Row) {
    a.counts.AtMost(b.counts) && a.cost <= b.cost
  }

  ghost predicate LedgerGrown(l: Ledger, later: Ledger) {
    && |l.keys| <= |later.keys| && later.keys[..|l.keys|] == l.keys
    && forall k :: k in l.rows ==> k in later.rows && Grown(l.rows[k], later.rows[k])
  }

  lemma SameUsage(row: Row, now: real, r: Response)
    ensures WithEstimate(row, now, r).counts == row.counts && WithEstimate(row, now, r).cost == row.cost
    ensures WithStatus(row, r).counts == row.counts && WithStatus(row, r).cost == row.cost
  {
  }

  lemma WithUsageGrown(row: Row, r: Response, u: Usage, estimate: Option<real>)
    ensures Grown(row, WithUsage(row, r, u, estimate))
            && WithUsage(row, r, u, estimate).counts == u.counts.Max(row.counts)
  {
  }

  lemma RespondedGrown(row: Row, now: real, r: Response)
    ensures Grown(row, Responded(row, now, r))
    ensures var usage := if r.google.Some? then r.google else r.usage;
            Responded(row, now, r).counts == if usage.Some? then usage.value.counts.Max(row.counts) else row.counts
  {
    var usage := if r.google.Some? then r.google else r.usage;
    var estimated := WithEstimate(row, now, r);
    SameUsage(row, now, r);
    if usage.Some? {
      var used := WithUsage(estimated, r, usage.value, EstimateNow(row, now, r));
      WithUsageGrown(estimated, r, usage.value, EstimateNow(row, now, r));
      SameUsage(used, now, r);
    } else {
      SameUsage(estimated, now, r);
    }
  }

  lemma LedgerGrownTrans(a: Ledger, b: Ledger, c: Ledger)
    requires LedgerGrown(a, b) && LedgerGrown(b, c)
    ensures LedgerGrown(a, c)
  {
    assert c.keys[..|a.keys|] == c.keys[..|b.keys|][..|a.keys|];
    forall k | k in a.rows ensures k in c.rows && Grown(a.rows[k], c.rows[k]) {
      assert k in b.rows && Grown(b.rows[k], c.rows[k]);
    }
  }

  lemma PutGrown(l: Ledger, key: Key, row: Row)
    requires l.Valid() && Grown(l.At(key), row)
    ensures l.Put(key, row).Valid() && LedgerGrown(l, l.Put(key, row))
  {
  }

  lemma StepGrown(l: Ledger, s: Step)
    requires l.Valid()
    ensures After(l, s).Valid() && LedgerGrown(l, After(l, s))
  {
    match s
    case Requesting(key, r) => PutGrown(l, key, Requested(l.At(key), r));
    case Responding(key, now, response) =>
      RespondedGrown(l.At(key), now, response);
      PutGrown(l, key, Responded(l.At(key), now, response));
    case Estimating =>
  }

  /** Over any run of requests, responses and estimates, no attempt's counts or cost ever shrink, and no
      attempt goes. */
  lemma {:induction false} NeverDecreases(l: Ledger, steps: seq<Step>)
    requires l.Valid()
    ensures Run(l, steps).Valid() && LedgerGrown(l, Run(l, steps))
    decreases steps
  {
    if steps != [] {
      StepGrown(l, steps[0]);
      var next := After(l, steps[0]);
      NeverDecreases(next, steps[1..]);
      LedgerGrownTrans(l, next, Run(next, steps[1..]));
    }
  }

  lemma {:induction false} PrefixTotals(l: Ledger, later: Ledger, n: nat)
    requires l.Valid() && LedgerGrown(l, later) && n <= |l.keys|
    ensures CostOf(l, n) <= CostOf(later, n) && CountsOf(l, n).AtMost(CountsOf(later, n))
  {
    if n > 0 {
      PrefixTotals(l, later, n - 1);
      assert l.keys[n - 1] in l.keys && later.keys[..|l.keys|][n - 1] == later.keys[n - 1];
    }
  }

  ghost predicate NonNegative(l: Ledger) {
    forall k :: k in l.rows ==> l.rows[k].cost >= 0.0 && NONE.AtMost(l.rows[k].counts)
  }

  lemma {:induction false} MoreTotals(l: Ledger, m: nat, n: nat)
    requires l.Valid() && NonNegative(l) && m <= n <= |l.keys|
    ensures CostOf(l, m) <= CostOf(l, n) && CountsOf(l, m).AtMost(CountsOf(l, n))
  {
    if m < n {
      MoreTotals(l, m, n - 1);
      assert l.keys[n - 1] in l.rows;
    }
  }

  lemma NonNegativeStep(l: Ledger, s: Step)
    requires l.Valid() && NonNegative(l)
    ensures NonNegative(After(l, s))
  {
    if s.Responding? { RespondedGrown(l.At(s.key), s.now, s.response); }
    StepGrown(l, s);
  }

  lemma {:induction false} NonNegativeRun(l: Ledger, steps: seq<Step>)
    requires l.Valid() && NonNegative(l)
    ensures NonNegative(Run(l, steps))
    decreases steps
  {
    if steps != [] {
      NonNegativeStep(l, steps[0]);
      StepGrown(l, steps[0]);
      NonNegativeRun(After(l, steps[0]), steps[1..]);
    }
  }

  /** The totals of an invocation never decrease either, new attempts included. */
  lemma TotalsNeverDecrease(l: Ledger, steps: seq<Step>)
    requires l.Valid() && NonNegative(l)
    ensures var later := Run(l, steps);
            CostOf(l, |l.keys|) <= CostOf(later, |later.keys|)
            && CountsOf(l, |l.keys|).AtMost(CountsOf(later, |later.keys|))
  {
    var later := Run(l, steps);
    NeverDecreases(l, steps);
    NonNegativeRun(l, steps);
    PrefixTotals(l, later, |l.keys|);
    MoreTotals(later, |l.keys|, |later.keys|);
  }

  datatype Count = Input | Output | Cached | Written | Reasoning

  function Take(c: Counts, count: Count): int {
    match count
    case Input => c.input case Output => c.output case Cached => c.cached case Written => c.written
    case Reasoning => c.reasoning
  }

  function CountSum(l: Ledger, keys: seq<Key>, count: Count): int {
    if keys == [] then 0 else Take(l.At(keys[0]).counts, count) + CountSum(l, keys[1..], count)
  }

  function CostSum(l: Ledger, keys: seq<Key>): real {
    if keys == [] then 0.0 else l.At(keys[0]).cost + CostSum(l, keys[1..])
  }

  lemma {:induction false} SumSnoc(l: Ledger, keys: seq<Key>, key: Key, count: Count)
    ensures CountSum(l, keys + [key], count) == CountSum(l, keys, count) + Take(l.At(key).counts, count)
    ensures CostSum(l, keys + [key]) == CostSum(l, keys) + l.At(key).cost
  {
    if keys == [] {
      assert (keys + [key])[1..] == [];
    } else {
      assert (keys + [key])[1..] == keys[1..] + [key];
      SumSnoc(l, keys[1..], key, count);
    }
  }

  /** Each total is the sum over the attempts of that count, or of the cost. */
  lemma {:induction false} TotalsAreSums(l: Ledger, n: nat, count: Count)
    requires n <= |l.keys|
    ensures Take(CountsOf(l, n), count) == CountSum(l, l.keys[..n], count) && CostOf(l, n) == CostSum(l, l.keys[..n])
  {
    if n > 0 {
      TotalsAreSums(l, n - 1, count);
      assert l.keys[..n] == l.keys[..n - 1] + [l.keys[n - 1]];
      SumSnoc(l, l.keys[..n - 1], l.keys[n - 1], count);
    }
  }

  // ---- What the counts are ----

  function Reported(s: Step, key: Key): Counts {
    if s.Responding? && s.key == key then
      if s.response.google.Some? then s.response.google.value.counts
      else if s.response.usage.Some? then s.response.usage.value.counts
      else NONE
    else NONE
  }

  function LargestReported(start: Counts, steps: seq<Step>, key: Key): Counts {
    if steps == [] then start
    else LargestReported(start, steps[..|steps| - 1], key).Max(Reported(steps[|steps| - 1], key))
  }

  lemma {:induction false} RunSnoc(l: Ledger, steps: seq<Step>)
    requires steps != []
    ensures Run(l, steps) == After(Run(l, steps[..|steps| - 1]), steps[|steps| - 1])
    decreases steps
  {
    var init := steps[..|steps| - 1];
    if init == [] {
      assert Run(After(l, steps[0]), steps[1..]) == After(l, steps[0]);
    } else {
      var rest, next := steps[1..], After(l, steps[0]);
      assert rest[..|rest| - 1] == init[1..] && rest[|rest| - 1] == steps[|steps| - 1] && init[0] == steps[0];
      RunSnoc(next, rest);
      assert Run(l, init) == Run(next, init[1..]);
    }
  }

  lemma CountsStep(l: Ledger, s: Step, key: Key)
    requires l.Valid() && NonNegative(l)
    ensures After(l, s).At(key).counts == l.At(key).counts.Max(Reported(s, key))
  {
    if s.Responding? { RespondedGrown(l.At(s.key), s.now, s.response); }
  }

  /** Each token count of an attempt is the largest any of its responses reported, whatever the order. */
  lemma {:induction false} CountsAreMaxima(l: Ledger, steps: seq<Step>, key: Key)
    requires l.Valid() && NonNegative(l)
    ensures Run(l, steps).At(key).counts == LargestReported(l.At(key).counts, steps, key)
  {
    if steps != [] {
      var init := steps[..|steps| - 1];
      CountsAreMaxima(l, init, key);
      RunSnoc(l, steps);
      NonNegativeRun(l, init);
      NeverDecreases(l, init);
      CountsStep(Run(l, init), steps[|steps| - 1], key);
    }
  }

  // ---- What the cost and the rest of an attempt are ----

  /** The usage a response gives; Google's form comes first. */
  function UsedBy(r: Response): Option<Usage> {
    if r.google.Some? then r.google else r.usage
  }

  /** A response that ends the attempt without usage of its own. */
  predicate Closes(r: Response) {
    r.status in [Some(Failed), Some(Cancelled), Some(Incomplete), Some(Completed)] && (r.usage.None? || r.estimated)
  }

  function Larger(a: real, b: real): real {
    if a >= b then a else b
  }

  /** An attempt as such a response leaves it: when it was first seen ended, the most text seen of it, and
      whether the provider rejected it before any inference. */
  function Closed(row: Row, now: real, r: Response): Row {
    row.(terminalAt := if row.terminalAt.None? then Some(now) else row.terminalAt,
         visible := if row.visible < r.salvaged then r.salvaged else row.visible,
         rejected := r.rejection && !r.hasOutput && !row.everInProgress)
  }

  /** What a step says that an attempt, recorded as `row` before it, costs. */
  function Charge(row: Row, s: Step, key: Key): Option<real> {
    match s
    case Requesting(_, _) => None
    case Responding(k, now, r) =>
      if k != key || UsedBy(r).None? then None
      else if !r.estimated then Some(UsedBy(r).value.cost)
      else
        var estimate := if Closes(r) then TerminalEstimate(Closed(row, now, r)) else None;
        Some(Larger(UsedBy(r).value.cost, if estimate.Some? then estimate.value else 0.0))
    case Estimating => if AwaitsEstimate(row) then TerminalEstimate(row) else None
  }

  /** An ended OpenAI response whose usage never came and was not estimated yet. */
  predicate AwaitsEstimate(row: Row) {
    && row.provider == "openai" && row.responseId != "" && row.usageUnavailable && !row.costEstimated
    && row.status in [Failed, Cancelled, Incomplete, Completed]
  }

  function LargestCharged(l: Ledger, steps: seq<Step>, key: Key): real {
    if steps == [] then l.At(key).cost
    else
      var init := steps[..|steps| - 1];
      var charge := Charge(Run(l, init).At(key), steps[|steps| - 1], key);
      if charge.Some? then Larger(LargestCharged(l, init, key), charge.value) else LargestCharged(l, init, key)
  }

  lemma ClosedIs(row: Row, now: real, r: Response)
    ensures Closes(r) <==> WithoutUsage(r)
    ensures EstimateNow(row, now, r) == if Closes(r) then TerminalEstimate(Closed(row, now, r)) else None
  {
  }

  lemma RespondedCost(row: Row, now: real, r: Response, key: Key)
    ensures var charge := Charge(row, Responding(key, now, r), key);
            Responded(row, now, r).cost == if charge.Some? then Larger(row.cost, charge.value) else row.cost
  {
    ClosedIs(row, now, r);
    SameUsage(row, now, r);
    if UsedBy(r).Some? {
      SameUsage(WithUsage(WithEstimate(row, now, r), r, UsedBy(r).value, EstimateNow(row, now, r)), now, r);
    } else {
      SameUsage(WithEstimate(row, now, r), now, r);
    }
  }

  lemma CostStep(l: Ledger, s: Step, key: Key)
    ensures var charge := Charge(l.At(key), s, key);
            After(l, s).At(key).cost == if charge.Some? then Larger(l.At(key).cost, charge.value) else l.At(key).cost
  {
    if s.Responding? && s.key == key { RespondedCost(l.At(key), s.now, s.response, key); }
  }

  /** An attempt's cost is the largest of the one it began with, what each of its responses cost (with the
      terminal estimate as the least for an estimated one), and what the passes of estimates made of it. */
  lemma {:induction false} CostIsMaximum(l: Ledger, steps: seq<Step>, key: Key)
    ensures Run(l, steps).At(key).cost == LargestCharged(l, steps, key)
  {
    if steps != [] {
      var init := steps[..|steps| - 1];
      CostIsMaximum(l, init, key);
      RunSnoc(l, steps);
      CostStep(Run(l, init), steps[|steps| - 1], key);
    }
  }

  /** What an attempt is after the first `k` steps. */
  function RowAfter(l: Ledger, steps: seq<Step>, key: Key, k: nat): Row
    requires k <= |steps|
  {
    Run(l, steps[..k]).At(key)
  }

  function RowStep(row: Row, s: Step, key: Key): Row {
    match s
    case Requesting(k, r) => if k == key then Requested(row, r) else row
    case Responding(k, now, r) => if k == key then Responded(row, now, r) else row
    case Estimating => Estimated(row)
  }

  lemma RowNext(l: Ledger, steps: seq<Step>, key: Key, k: nat)
    requires k < |steps|
    ensures RowAfter(l, steps, key, k + 1) == RowStep(RowAfter(l, steps, key, k), steps[k], key)
  {
    assert steps[..k + 1][..k] == steps[..k];
    RunSnoc(l, steps[..k + 1]);
    assert Estimated(NEW_ROW) == NEW_ROW;
  }

  /** The value that the last step to set it gives it, or what it was at the start. */
  ghost predicate LastSet<T>(sets: seq<Option<T>>, start: T, v: T) {
    && ((forall k :: 0 <= k < |sets| ==> sets[k].None?) ==> v == start)
    && forall k :: 0 <= k < |sets| && sets[k].Some? && (forall j :: k < j < |sets| ==> sets[j].None?) ==>
         v == sets[k].value
  }

  lemma {:induction false} LastOf<T>(sets: seq<Option<T>>, values: seq<T>)
    requires |values| == |sets| + 1
    requires forall i :: 0 <= i < |sets| ==> values[i + 1] == if sets[i].Some? then sets[i].value else values[i]
    ensures LastSet(sets, values[0], values[|sets|])
  {
    if sets != [] {
      var n := |sets| - 1;
      LastOf(sets[..n], values[..n + 1]);
      assert values[n + 1] == if sets[n].Some? then sets[n].value else values[n];
      forall k | 0 <= k < |sets| && sets[k].Some? && (forall j :: k < j < |sets| ==> sets[j].None?)
        ensures values[|sets|] == sets[k].value
      {
        if k < n { assert sets[n].None? && sets[..n][k] == sets[k]; }
      }
      if forall k :: 0 <= k < |sets| ==> sets[k].None? { assert sets[n].None?; }
    }
  }

  /** Each response with usage says whether usage is still missing. */
  function UnavailableSet(s: Step, key: Key): Option<bool> {
    if s.Responding? && s.key == key && UsedBy(s.response).Some?
    then Some(s.response.partial || s.response.estimated) else None
  }

  lemma UnavailableStep(row: Row, s: Step, key: Key)
    ensures RowStep(row, s, key).usageUnavailable
            == if UnavailableSet(s, key).Some? then UnavailableSet(s, key).value else row.usageUnavailable
  {
  }

  /** An attempt's usage is unavailable exactly if its last response with usage was partial or estimated, or,
      when none gave any, if it was at the start, as for a new attempt. */
  lemma UnavailableIs(l: Ledger, steps: seq<Step>, key: Key)
    ensures LastSet(seq(|steps|, i requires 0 <= i < |steps| => UnavailableSet(steps[i], key)),
                    l.At(key).usageUnavailable, Run(l, steps).At(key).usageUnavailable)
  {
    var sets := seq(|steps|, i requires 0 <= i < |steps| => UnavailableSet(steps[i], key));
    var values := seq(|steps| + 1, i requires 0 <= i <= |steps| => RowAfter(l, steps, key, i).usageUnavailable);
    forall i | 0 <= i < |sets| ensures values[i + 1] == if sets[i].Some? then sets[i].value else values[i] {
      RowNext(l, steps, key, i);
      UnavailableStep(RowAfter(l, steps, key, i), steps[i], key);
    }
    LastOf(sets, values);
    assert steps[..|steps|] == steps;
  }

  /** The step is a response that ends the attempt without usage of its own. */
  predicate ClosesAt(s: Step, key: Key) {
    s.Responding? && s.key == key && Closes(s.response)
  }

  function RejectedSet(row: Row, s: Step, key: Key): Option<bool> {
    if ClosesAt(s, key) then Some(s.response.rejection && !s.response.hasOutput && !row.everInProgress) else None
  }

  /** A step makes an estimate when it can: such a response, or a pass over an attempt that awaits one. */
  function EstimateSet(row: Row, s: Step, key: Key): Option<real> {
    match s
    case Requesting(_, _) => None
    case Responding(_, now, r) => if ClosesAt(s, key) then TerminalEstimate(Closed(row, now, r)) else None
    case Estimating => if AwaitsEstimate(row) then TerminalEstimate(row) else None
  }

  predicate MarksEstimated(row: Row, s: Step, key: Key) {
    match s
    case Requesting(_, _) => false
    case Responding(k, _, r) => k == key && UsedBy(r).Some? && r.estimated
    case Estimating => AwaitsEstimate(row) && TerminalEstimate(row).Some?
  }

  lemma StatusKeepsEnd(row: Row, r: Response)
    ensures var next := WithStatus(row, r);
            && next.rejected == row.rejected && next.terminalAt == row.terminalAt && next.visible == row.visible
            && next.terminalUsd == row.terminalUsd && next.costEstimated == row.costEstimated
  {
  }

  lemma UsageKeepsEnd(row: Row, r: Response, u: Usage, estimate: Option<real>)
    ensures var next := WithUsage(row, r, u, estimate);
            && next.rejected == row.rejected && next.terminalAt == row.terminalAt && next.visible == row.visible
            && next.terminalUsd == row.terminalUsd && (next.costEstimated <==> row.costEstimated || r.estimated)
  {
  }

  lemma EstimateEnds(row: Row, now: real, r: Response)
    ensures var next := WithEstimate(row, now, r);
            && next.costEstimated == row.costEstimated
            && (!Closes(r) ==> next == row)
            && (Closes(r) ==>
                  && next.rejected == (r.rejection && !r.hasOutput && !row.everInProgress)
                  && next.terminalAt == (if row.terminalAt.None? then Some(now) else row.terminalAt)
                  && next.visible == (if row.visible < r.salvaged then r.salvaged else row.visible)
                  && next.terminalUsd == (if TerminalEstimate(Closed(row, now, r)).Some?
                                          then TerminalEstimate(Closed(row, now, r)) else row.terminalUsd))
  {
    ClosedIs(row, now, r);
  }

  lemma RespondedEnds(row: Row, now: real, r: Response)
    ensures var next, estimated := Responded(row, now, r), WithEstimate(row, now, r);
            && next.rejected == estimated.rejected && next.terminalAt == estimated.terminalAt
            && next.visible == estimated.visible && next.terminalUsd == estimated.terminalUsd
            && (next.costEstimated <==> row.costEstimated || (UsedBy(r).Some? && r.estimated))
  {
    EstimateEnds(row, now, r);
    var estimated := WithEstimate(row, now, r);
    if UsedBy(r).Some? {
      UsageKeepsEnd(estimated, r, UsedBy(r).value, EstimateNow(row, now, r));
      StatusKeepsEnd(WithUsage(estimated, r, UsedBy(r).value, EstimateNow(row, now, r)), r);
    } else {
      StatusKeepsEnd(estimated, r);
    }
  }

  lemma EndingStep(row: Row, s: Step, key: Key)
    ensures var next := RowStep(row, s, key);
            && next.rejected == (if ClosesAt(s, key) then RejectedSet(row, s, key).value else row.rejected)
            && next.terminalAt == (if row.terminalAt.None? && ClosesAt(s, key) then Some(s.now) else row.terminalAt)
            && next.visible == (if ClosesAt(s, key) && row.visible < s.response.salvaged then s.response.salvaged
                                else row.visible)
            && next.terminalUsd == (if EstimateSet(row, s, key).Some? then EstimateSet(row, s, key)
                                    else row.terminalUsd)
            && (next.costEstimated <==> row.costEstimated || MarksEstimated(row, s, key))
  {
    if s.Responding? && s.key == key {
      EstimateEnds(row, s.now, s.response);
      RespondedEnds(row, s.now, s.response);
    }
  }

  /** How an attempt ended: it was rejected if the last response that closed it says so; it ended when the first
      one came; the text seen is the most that any of them had; the estimate is the last one that could be made;
      and its cost counts as estimated once an estimated response gave usage or a pass of estimates priced it. */
  ghost predicate Ending(l: Ledger, steps: seq<Step>, key: Key, n: nat)
    requires n <= |steps|
  {
    var row, start := RowAfter(l, steps, key, n), l.At(key);
    && LastSet(seq(n, i requires 0 <= i < n => RejectedSet(RowAfter(l, steps, key, i), steps[i], key)),
               start.rejected, row.rejected)
    && LastSet(seq(n, i requires 0 <= i < n => Wrap(EstimateSet(RowAfter(l, steps, key, i), steps[i], key))),
               start.terminalUsd, row.terminalUsd)
    && FirstEnd(steps, key, n, start.terminalAt, row.terminalAt)
    && MostSeen(steps, key, n, start.visible, row.visible)
    && (row.costEstimated <==>
          start.costEstimated || exists i :: 0 <= i < n && MarksEstimated(RowAfter(l, steps, key, i), steps[i], key))
  }

  function Wrap<T>(x: Option<T>): Option<Option<T>> {
    if x.Some? then Some(x) else None
  }

  predicate FirstEnd(steps: seq<Step>, key: Key, n: nat, start: Option<real>, end: Option<real>)
    requires n <= |steps|
  {
    if start.Some? then end == start
    else
      && (end.None? <==> forall i :: 0 <= i < n ==> !ClosesAt(steps[i], key))
      && forall i :: 0 <= i < n && ClosesAt(steps[i], key) && (forall j :: 0 <= j < i ==> !ClosesAt(steps[j], key)) ==>
           end == Some(steps[i].now)
  }

  predicate MostSeen(steps: seq<Step>, key: Key, n: nat, start: int, most: int)
    requires n <= |steps|
  {
    && start <= most && (forall i :: 0 <= i < n && ClosesAt(steps[i], key) ==> steps[i].response.salvaged <= most)
    && (most == start || exists i :: 0 <= i < n && ClosesAt(steps[i], key) && steps[i].response.salvaged == most)
  }

  lemma RejectedLast(l: Ledger, steps: seq<Step>, key: Key, n: nat)
    requires n <= |steps|
    ensures LastSet(seq(n, i requires 0 <= i < n => RejectedSet(RowAfter(l, steps, key, i), steps[i], key)),
                    l.At(key).rejected, RowAfter(l, steps, key, n).rejected)
  {
    var sets := seq(n, i requires 0 <= i < n => RejectedSet(RowAfter(l, steps, key, i), steps[i], key));
    var values := seq(n + 1, i requires 0 <= i <= n => RowAfter(l, steps, key, i).rejected);
    forall i | 0 <= i < n ensures values[i + 1] == if sets[i].Some? then sets[i].value else values[i] {
      RowNext(l, steps, key, i);
      EndingStep(RowAfter(l, steps, key, i), steps[i], key);
    }
    LastOf(sets, values);
  }

  lemma EstimateLast(l: Ledger, steps: seq<Step>, key: Key, n: nat)
    requires n <= |steps|
    ensures LastSet(seq(n, i requires 0 <= i < n => Wrap(EstimateSet(RowAfter(l, steps, key, i), steps[i], key))),
                    l.At(key).terminalUsd, RowAfter(l, steps, key, n).terminalUsd)
  {
    var sets := seq(n, i requires 0 <= i < n => Wrap(EstimateSet(RowAfter(l, steps, key, i), steps[i], key)));
    var values := seq(n + 1, i requires 0 <= i <= n => RowAfter(l, steps, key, i).terminalUsd);
    forall i | 0 <= i < n ensures values[i + 1] == if sets[i].Some? then sets[i].value else values[i] {
      RowNext(l, steps, key, i);
      EndingStep(RowAfter(l, steps, key, i), steps[i], key);
    }
    LastOf(sets, values);
  }

  lemma FirstEndNext(steps: seq<Step>, key: Key, n: nat, start: Option<real>, end: Option<real>)
    requires n < |steps| && FirstEnd(steps, key, n, start, end)
    ensures FirstEnd(steps, key, n + 1, start,
                     if end.None? && ClosesAt(steps[n], key) then Some(steps[n].now) else end)
  {
  }

  lemma MostSeenNext(steps: seq<Step>, key: Key, n: nat, start: int, most: int)
    requires n < |steps| && MostSeen(steps, key, n, start, most)
    ensures MostSeen(steps, key, n + 1, start,
                     if ClosesAt(steps[n], key) && most < steps[n].response.salvaged then steps[n].response.salvaged
                     else most)
  {
  }

  lemma NextEnd(l: Ledger, steps: seq<Step>, key: Key, n: nat)
    requires n < |steps|
    ensures RowAfter(l, steps, key, n + 1).terminalAt ==
            if RowAfter(l, steps, key, n).terminalAt.None? && ClosesAt(steps[n], key) then Some(steps[n].now)
            else RowAfter(l, steps, key, n).terminalAt
    ensures RowAfter(l, steps, key, n + 1).visible ==
            if ClosesAt(steps[n], key) && RowAfter(l, steps, key, n).visible < steps[n].response.salvaged
            then steps[n].response.salvaged else RowAfter(l, steps, key, n).visible
  {
    RowNext(l, steps, key, n);
    EndingStep(RowAfter(l, steps, key, n), steps[n], key);
  }

  lemma {:induction false} EndingFirst(l: Ledger, steps: seq<Step>, key: Key, n: nat)
    requires n <= |steps|
    ensures FirstEnd(steps, key, n, l.At(key).terminalAt, RowAfter(l, steps, key, n).terminalAt)
  {
    if n > 0 {
      EndingFirst(l, steps, key, n - 1);
      NextEnd(l, steps, key, n - 1);
      FirstEndNext(steps, key, n - 1, l.At(key).terminalAt, RowAfter(l, steps, key, n - 1).terminalAt);
    }
  }

  lemma {:induction false} EndingMost(l: Ledger, steps: seq<Step>, key: Key, n: nat)
    requires n <= |steps|
    ensures MostSeen(steps, key, n, l.At(key).visible, RowAfter(l, steps, key, n).visible)
  {
    if n > 0 {
      EndingMost(l, steps, key, n - 1);
      NextEnd(l, steps, key, n - 1);
      MostSeenNext(steps, key, n - 1, l.At(key).visible, RowAfter(l, steps, key, n - 1).visible);
    }
  }

  lemma {:induction false} EndingMarked(l: Ledger, steps: seq<Step>, key: Key, n: nat)
    requires n <= |steps|
    ensures RowAfter(l, steps, key, n).costEstimated <==>
              l.At(key).costEstimated
              || exists i :: 0 <= i < n && MarksEstimated(RowAfter(l, steps, key, i), steps[i], key)
  {
    if n > 0 {
      EndingMarked(l, steps, key, n - 1);
      RowNext(l, steps, key, n - 1);
      EndingStep(RowAfter(l, steps, key, n - 1), steps[n - 1], key);
    }
  }

  lemma EndingIs(l: Ledger, steps: seq<Step>, key: Key)
    ensures Ending(l, steps, key, |steps|)
  {
    RejectedLast(l, steps, key, |steps|);
    EstimateLast(l, steps, key, |steps|);
    EndingFirst(l, steps, key, |steps|);
    EndingMost(l, steps, key, |steps|);
    EndingMarked(l, steps, key, |steps|);
  }

  lemma UnseenExactly(allowance: nat, elapsed: real, tokens: int)
    requires elapsed >= 0.0 && tokens as real - 1.0 < elapsed * 50.0 <= tokens as real
    ensures Unseen(allowance, elapsed) == if tokens < allowance then tokens else allowance
  {
    UnseenIs(allowance, elapsed);
    CeilIs(elapsed * TOKENS_PER_SECOND, tokens);
    CeilIs(elapsed * TOKENS_PER_SECOND, tokens - 1);
  }

  /** The estimate: the output tokens seen, or those that the time until the end, at 50 a second and rounded up,
      and the allowance would permit, whichever are more, with the input price; without either of the latter for
      an attempt rejected before inference. There is none when one of the figures is missing or negative. */
  lemma EstimateExactly(row: Row, elapsed: real, tokens: int)
    requires Given(row.startedAt) && Given(row.terminalAt) ==>
               elapsed == Larger(0.0, row.terminalAt.value - row.startedAt.value)
    requires tokens as real - 1.0 < elapsed * 50.0 <= tokens as real
    ensures TerminalEstimate(row).Some? <==>
              && row.startedAt.Some? && row.startedAt.value >= 0.0
              && row.terminalAt.Some? && row.terminalAt.value >= 0.0
              && row.inputUsd.Some? && row.inputUsd.value >= 0.0
              && row.outputRate.Some? && row.outputRate.value >= 0.0
              && row.visible >= 0 && row.allowance >= 0
    ensures TerminalEstimate(row).Some? ==>
              var unseen := if tokens < row.allowance then tokens else row.allowance;
              var most := if row.visible < unseen then unseen else row.visible;
              TerminalEstimate(row).value ==
                if row.rejected then row.visible as real * row.outputRate.value
                else row.inputUsd.value + most as real * row.outputRate.value
  {
    if Estimable(row) {
      assert elapsed == Elapsed(row);
      UnseenExactly(row.allowance, elapsed, tokens);
      EstimateIs(row);
    }
  }

  /** A second pass of terminal estimates changes nothing. */
  lemma EstimatesOnce(l: Ledger)
    ensures AllEstimated(AllEstimated(l)) == AllEstimated(l)
  {
    forall k | k in l.rows ensures Estimated(Estimated(l.rows[k])) == Estimated(l.rows[k]) {}
    assert AllEstimated(AllEstimated(l)).rows == AllEstimated(l).rows;
  }
}
