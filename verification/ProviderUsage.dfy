/** Usage of provider attempts: what requests, responses and terminal estimates record. */
module ProviderUsage {
  import opened Wrappers

  type Key = (string, nat)

  const TOKENS_PER_SECOND := 50.0

  datatype Status = InProgress | Failed | Cancelled | Incomplete | Completed | Unknown {
    predicate Terminal() { Failed? || Cancelled? || Incomplete? || Completed? }
  }

  datatype Counts = Counts(input: int, output: int, cached: int, written: int, reasoning: int) {
    function Max(c: Counts): Counts {
      Counts(MaxInt(input, c.input), MaxInt(output, c.output), MaxInt(cached, c.cached), MaxInt(written, c.written),
             MaxInt(reasoning, c.reasoning))
    }

    predicate AtMost(c: Counts) {
      input <= c.input && output <= c.output && cached <= c.cached && written <= c.written && reasoning <= c.reasoning
    }

    function Plus(c: Counts): Counts {
      Counts(input + c.input, output + c.output, cached + c.cached, written + c.written, reasoning + c.reasoning)
    }
  }

  const NONE := Counts(0, 0, 0, 0, 0)

  function MaxInt(a: int, b: int): int { if a < b then b else a }

  function MaxReal(a: real, b: real): real { if a < b then b else a }

  function MinReal(a: real, b: real): real { if b < a then b else a }

  function Ceil(x: real): int { -(-x).Floor }

  /** An attempt's record. A field that is absent or no finite number is None. */
  datatype Row = Row(
    provider: string, responseId: string, status: Status, everInProgress: bool,
    counts: Counts, cost: real, usageUnavailable: bool, costEstimated: bool,
    startedAt: Option<real>, terminalAt: Option<real>, inputUsd: Option<real>, outputRate: Option<real>,
    visible: int, allowance: int, rejected: bool, terminalUsd: Option<real>)

  const NEW_ROW := Row("", "", Unknown, false, NONE, 0.0, true, false, None, None, None, None, 0, 0, false, None)

  // ---- The terminal estimate ----

  predicate Given(x: Option<real>) { x.Some? && x.value >= 0.0 }

  function Elapsed(row: Row): real
    requires Given(row.startedAt) && Given(row.terminalAt)
  {
    MaxReal(0.0, row.terminalAt.value - row.startedAt.value)
  }

  /** Output tokens nobody saw, guessed from the time elapsed and the request's allowance. */
  function Unseen(allowance: nat, elapsed: real): int {
    var tokens := Ceil(MinReal(elapsed, allowance as real / TOKENS_PER_SECOND) * TOKENS_PER_SECOND);
    if tokens < allowance then tokens else allowance
  }

  predicate Estimable(row: Row) {
    Given(row.startedAt) && Given(row.terminalAt) && Given(row.inputUsd) && Given(row.outputRate)
    && row.visible >= 0 && row.allowance >= 0
  }

  function Price(input: real, outputs: int, rate: real): real { input + outputs as real * rate }

  function TerminalEstimate(row: Row): Option<real> {
    if !Estimable(row) then None
    else
      var unseen := if row.rejected then 0 else Unseen(row.allowance, Elapsed(row));
      var outputs := MaxInt(row.visible, unseen);
      Some(Price(if row.rejected then 0.0 else row.inputUsd.value, outputs, row.outputRate.value))
  }

  // ---- Steps on one attempt ----

  /** Priced: what the request's inputs cost, and what they cost with one output token. */
  datatype Request = Request(provider: string, now: real, priced: Option<(real, real)>, allowance: Option<int>)

  function Requested(row: Row, r: Request): Row {
    var started := row.(provider := r.provider, everInProgress := false, startedAt := Some(r.now));
    if r.priced.None? then started
    else
      var rate := r.priced.value.1 - r.priced.value.0;
      if r.priced.value.0 < 0.0 || rate < 0.0 then started
      else started.(inputUsd := Some(r.priced.value.0), outputRate := Some(rate),
                    allowance := if r.allowance.Some? && r.allowance.value >= 0 then r.allowance.value else 0)
  }

  datatype Usage = Usage(counts: Counts, cost: real)

  /** A response: its usage in the provider's own form or in Google's, the output tokens its text is worth. */
  datatype Response = Response(
    id: Option<string>, status: Option<Status>, usage: Option<Usage>, google: Option<Usage>, partial: bool,
    estimated: bool, salvaged: int, hasOutput: bool, rejection: bool)

  function WithTerminal(row: Row, now: real, r: Response): Row {
    row.(terminalAt := if row.terminalAt.Some? then row.terminalAt else Some(now),
         visible := MaxInt(r.salvaged, row.visible),
         rejected := r.rejection && !r.hasOutput && !row.everInProgress)
  }

  predicate WithoutUsage(r: Response) {
    r.status.Some? && r.status.value.Terminal() && (r.usage.None? || r.estimated)
  }

  function WithUsage(row: Row, r: Response, u: Usage, estimate: Option<real>): Row {
    var floor := if r.estimated && estimate.Some? then estimate.value else 0.0;
    var cost := if r.estimated then MaxReal(u.cost, floor) else u.cost;
    row.(counts := u.counts.Max(row.counts), cost := MaxReal(cost, row.cost), usageUnavailable := r.partial
        || r.estimated,
         costEstimated := row.costEstimated || r.estimated)
  }

  function WithStatus(row: Row, r: Response): Row {
    var named := if r.id.Some? then row.(responseId := r.id.value) else row;
    var status := if r.status.Some? then named.(status := r.status.value) else named;
    if r.status == Some(InProgress) then status.(everInProgress := true) else status
  }

  function EstimateNow(row: Row, now: real, r: Response): Option<real> {
    if WithoutUsage(r) then TerminalEstimate(WithTerminal(row, now, r)) else None
  }

  function WithEstimate(row: Row, now: real, r: Response): Row {
    if !WithoutUsage(r) then row
    else
      var estimate := EstimateNow(row, now, r);
      if estimate.Some? then WithTerminal(row, now, r).(terminalUsd := estimate) else WithTerminal(row, now, r)
  }

  function Responded(row: Row, now: real, r: Response): Row {
    var usage := if r.google.Some? then r.google else r.usage;
    var estimated := WithEstimate(row, now, r);
    WithStatus(if usage.Some? then WithUsage(estimated, r, usage.value, EstimateNow(row, now, r)) else estimated, r)
  }

  predicate NeedsEstimate(row: Row) {
    row.provider == "openai" && row.responseId != "" && row.status.Terminal() && row.usageUnavailable
        && !row.costEstimated
  }

  function Estimated(row: Row): Row {
    var estimate := TerminalEstimate(row);
    if NeedsEstimate(row) && estimate.Some? then
      row.(cost := MaxReal(estimate.value, row.cost), costEstimated := true, terminalUsd := estimate)
    else row
  }

  // ---- The trace ----

  /** Attempts in the order first seen. */
  datatype Ledger = Ledger(keys: seq<Key>, rows: map<Key, Row>) {
    ghost predicate Valid() {
      && (forall i, j :: 0 <= i < j < |keys| ==> keys[i] != keys[j])
      && (forall k :: k in keys <==> k in rows)
    }

    function At(key: Key): Row { if key in rows then rows[key] else NEW_ROW }

    function Put(key: Key, row: Row): Ledger {
      Ledger(if key in rows then keys else keys + [key], rows[key := row])
    }
  }

  function AllEstimated(l: Ledger): Ledger {
    l.(rows := map k | k in l.rows :: Estimated(l.rows[k]))
  }

  class Trace {
    var keys: seq<Key>
    var rows: map<Key, Row>

    constructor ()
      ensures Value() == Ledger([], map[])
    {
      keys, rows := [], map[];
    }

    ghost function Value(): Ledger reads this { Ledger(keys, rows) }

    method Update(key: Key, row: Row)
      modifies this
      ensures Value() == old(Value()).Put(key, row)
    {
      if key !in rows { keys := keys + [key]; }
      rows := rows[key := row];
    }

    /** The attempt is recorded before its price is known. */
    method BeginRequest(key: Key, r: Request)
      modifies this
      ensures Value() == old(Value()).Put(key, Requested(old(Value()).At(key), r))
    {
      var row := (if key in rows then rows[key]
          else NEW_ROW).(provider := r.provider, everInProgress := false, startedAt := Some(r.now));
      Update(key, row);
      if r.priced.Some? {
        var rate := r.priced.value.1 - r.priced.value.0;
        if r.priced.value.0 >= 0.0 && rate >= 0.0 {
          var allowance := if r.allowance.Some? && r.allowance.value >= 0 then r.allowance.value else 0;
          Update(key, row.(inputUsd := Some(r.priced.value.0), outputRate := Some(rate), allowance := allowance));
        }
      }
    }

    method RecordUsage(key: Key, now: real, r: Response)
      modifies this
      ensures Value() == old(Value()).Put(key, Responded(old(Value()).At(key), now, r))
    {
      var row := if key in rows then rows[key] else NEW_ROW;
      var estimate := EstimateNow(row, now, r);
      row := WithEstimate(row, now, r);
      var usage := r.usage;
      if r.google.Some? { usage := r.google; }
      if usage.Some? { row := WithUsage(row, r, usage.value, estimate); }
      if r.id.Some? { row := row.(responseId := r.id.value); }
      if r.status.Some? { row := row.(status := r.status.value); }
      if r.status == Some(InProgress) { row := row.(everInProgress := true); }
      Update(key, row);
    }

    method EstimateTerminalUsage()
      requires Value().Valid()
      modifies this
      ensures Value() == AllEstimated(old(Value()))
    {
      var i := 0;
      while i < |keys|
        invariant i <= |keys| && keys == old(keys) && rows.Keys == old(rows).Keys
        invariant forall j :: 0 <= j < i ==> rows[keys[j]] == Estimated(old(rows)[keys[j]])
        invariant forall j :: i <= j < |keys| ==> rows[keys[j]] == old(rows)[keys[j]]
      {
        var key := keys[i];
        if NeedsEstimate(rows[key]) { rows := rows[key := Estimated(rows[key])]; }
        i := i + 1;
      }
    }

    method Totals() returns (counts: Counts, cost: real, unavailable: bool)
      requires Value().Valid()
      ensures counts == CountsOf(Value(), |keys|) && cost == CostOf(Value(), |keys|)
      ensures unavailable <==> exists k :: k in rows && rows[k].usageUnavailable
    {
      counts, cost, unavailable := NONE, 0.0, false;
      var i := 0;
      while i < |keys|
        invariant i <= |keys| && counts == CountsOf(Value(), i) && cost == CostOf(Value(), i)
        invariant unavailable <==> exists j :: 0 <= j < i && rows[keys[j]].usageUnavailable
      {
        var row := rows[keys[i]];
        counts, cost, unavailable := counts.Plus(row.counts), cost + row.cost, unavailable || row.usageUnavailable;
        i := i + 1;
      }
    }
  }

  function CountsOf(l: Ledger, n: nat): Counts
    requires n <= |l.keys|
  {
    if n == 0 then NONE else CountsOf(l, n - 1).Plus(l.At(l.keys[n - 1]).counts)
  }

  function CostOf(l: Ledger, n: nat): real
    requires n <= |l.keys|
  {
    if n == 0 then 0.0 else CostOf(l, n - 1) + l.At(l.keys[n - 1]).cost
  }

  // ---- Runs ----

  datatype Step = Requesting(key: Key, r: Request) | Responding(key: Key, now: real, response: Response) | Estimating

  function After(l: Ledger, s: Step): Ledger {
    match s
    case Requesting(key, r) => l.Put(key, Requested(l.At(key), r))
    case Responding(key, now, response) => l.Put(key, Responded(l.At(key), now, response))
    case Estimating => AllEstimated(l)
  }

  function Run(l: Ledger, steps: seq<Step>): Ledger
    decreases steps
  {
    if steps == [] then l else Run(After(l, steps[0]), steps[1..])
  }
}
