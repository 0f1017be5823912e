/** Provider receipts reconciled against the calls already billed. */
module Reconciliation {
  import opened Wrappers

  /** A call's or an invocation's id; only which ids are equal matters here. */
  type Name = int

  /** Cost, and input, output and reasoning tokens. */
  datatype Amounts = Amounts(cost: real, input: int, output: int, reasoning: int) {
    function Plus(a: Amounts): Amounts {
      Amounts(cost + a.cost, input + a.input, output + a.output, reasoning + a.reasoning)
    }

    /** Field by field, what `this` is more than `a`, and nothing where it is less. */
    function Excess(a: Amounts): Amounts {
      Amounts(if cost > a.cost then cost - a.cost else 0.0, Above(input, a.input), Above(output, a.output),
              Above(reasoning, a.reasoning))
    }

    function Max(a: Amounts): Amounts {
      Amounts(if cost < a.cost then a.cost else cost, Larger(input, a.input), Larger(output, a.output),
              Larger(reasoning, a.reasoning))
    }
  }

  predicate AtMost(a: Amounts, b: Amounts) {
    a.cost <= b.cost && a.input <= b.input && a.output <= b.output && a.reasoning <= b.reasoning
  }

  const ZERO := Amounts(0.0, 0, 0, 0)

  function Above(x: int, y: int): int { if x > y then x - y else 0 }

  function Larger(x: int, y: int): int { if x < y then y else x }

  datatype Event = ModelCall(callId: Option<Name>, amounts: Amounts) | OtherEvent

  /** A provider attempt's last revision. */
  datatype Row = Row(callId: Option<Name>, invocationId: Name, amounts: Amounts, unavailable: bool, estimated: bool,
      model: string) {
    function Key(): Name { if callId.Some? then callId.value else invocationId }
  }

  datatype Call = Call(amounts: Amounts, unavailable: bool, estimated: bool, model: string)

  const NEW_CALL := Call(ZERO, false, false, "")

  datatype Id = CallId(key: Name) | RecoveryId(key: Name)

  datatype Adjustment = Adjustment(id: Id, amounts: Amounts, unavailable: bool, estimated: bool, model: string)

  datatype Debit = Debit(key: Name, cost: real, reason: string) {
    predicate Valid() { cost >= 0.0 && reason != "" }
  }

  datatype Result = Adjusted(adjustments: seq<Adjustment>) | InvalidDebit

  // ---- What the loops add up ----

  /** All that was billed to a call. */
  function Billed(events: seq<Event>, key: Option<Name>): Amounts {
    if events == [] then ZERO
    else
      var e := events[|events| - 1];
      var before := Billed(events[..|events| - 1], key);
      if e.ModelCall? && e.callId == key then before.Plus(e.amounts) else before
  }

  function With(c: Call, row: Row): Call {
    Call(c.amounts.Plus(row.amounts), c.unavailable || row.unavailable, c.estimated || row.estimated, row.model)
  }

  /** The receipts of a call. */
  function Receipts(rows: seq<Row>, key: Name): Call {
    if rows == [] then NEW_CALL
    else
      var row := rows[|rows| - 1];
      var before := Receipts(rows[..|rows| - 1], key);
      if row.Key() == key then With(before, row) else before
  }

  /** The calls that have receipts, in the order first seen. */
  function Keys(rows: seq<Row>): seq<Name> {
    if rows == [] then []
    else
      var key := rows[|rows| - 1].Key();
      var before := Keys(rows[..|rows| - 1]);
      if key in before then before else before + [key]
  }

  function Adjust(events: seq<Event>, rows: seq<Row>, key: Name): Adjustment {
    var c := Receipts(rows, key);
    Adjustment(CallId(key), c.amounts.Excess(Billed(events, Some(key))), c.unavailable, c.estimated, c.model)
  }

  predicate Due(a: Adjustment) { a.amounts != ZERO || a.unavailable }

  function Owed(events: seq<Event>, rows: seq<Row>): Name -> Adjustment {
    key => Adjust(events, rows, key)
  }

  /** The adjustments that are due, in the order of the calls. */
  function Adjustments(owed: Name -> Adjustment, keys: seq<Name>): seq<Adjustment> {
    if keys == [] then []
    else
      var a := owed(keys[|keys| - 1]);
      var before := Adjustments(owed, keys[..|keys| - 1]);
      if Due(a) then before + [a] else before
  }

  function CallAdjustments(events: seq<Event>, rows: seq<Row>): seq<Adjustment> {
    Adjustments(Owed(events, rows), Keys(rows))
  }

  function Debits(ledger: seq<Debit>): seq<Adjustment> {
    seq(|ledger|, i requires 0 <= i < |ledger| =>
      Adjustment(RecoveryId(ledger[i].key), Amounts(ledger[i].cost, 0, 0, 0), false, false, "legacy-reconciliation"))
  }

  function Pass(events: seq<Event>, rows: seq<Row>, ledger: seq<Debit>): Result {
    if exists i :: 0 <= i < |ledger| && !ledger[i].Valid() then InvalidDebit
    else Adjusted(CallAdjustments(events, rows) + Debits(ledger))
  }

  method BilledByCall(events: seq<Event>) returns (billed: map<Option<Name>, Amounts>)
    ensures forall key :: (if key in billed then billed[key] else ZERO) == Billed(events, key)
  {
    billed := map[];
    for i := 0 to |events|
      invariant forall key :: (if key in billed then billed[key] else ZERO) == Billed(events[..i], key)
    {
      var e := events[i];
      assert events[..i + 1][..i] == events[..i];
      if e.ModelCall? {
        var before := if e.callId in billed then billed[e.callId] else ZERO;
        billed := billed[e.callId := before.Plus(e.amounts)];
      }
    }
    assert events[..|events|] == events;
  }

  method ReceiptsByCall(rows: seq<Row>) returns (keys: seq<Name>, calls: map<Name, Call>)
    ensures keys == Keys(rows) && calls.Keys == (set k | k in keys)
    ensures forall key :: key in calls ==> calls[key] == Receipts(rows, key)
  {
    keys, calls := [], map[];
    for i := 0 to |rows|
      invariant keys == Keys(rows[..i]) && calls.Keys == (set k | k in keys)
      invariant forall key :: (if key in calls then calls[key] else NEW_CALL) == Receipts(rows[..i], key)
    {
      var row := rows[i];
      assert rows[..i + 1][..i] == rows[..i];
      if row.Key() !in calls {
        keys := keys + [row.Key()];
        calls := calls[row.Key() := NEW_CALL];
      }
      calls := calls[row.Key() := With(calls[row.Key()], row)];
    }
    assert rows[..|rows|] == rows;
  }

  method AdjustCalls(events: seq<Event>, rows: seq<Row>) returns (adjustments: seq<Adjustment>)
    ensures adjustments == CallAdjustments(events, rows)
  {
    var billed := BilledByCall(events);
    var keys, calls := ReceiptsByCall(rows);
    adjustments := [];
    for i := 0 to |keys|
      invariant adjustments == Adjustments(Owed(events, rows), keys[..i])
    {
      var total := calls[keys[i]];
      var charged := if Some(keys[i]) in billed then billed[Some(keys[i])] else ZERO;
      var a := Adjustment(CallId(keys[i]), total.amounts.Excess(charged), total.unavailable, total.estimated,
          total.model);
      assert a == Owed(events, rows)(keys[i]);
      assert keys[..i + 1][..i] == keys[..i];
      if a.amounts != ZERO || total.unavailable { adjustments := adjustments + [a]; }
    }
    assert keys[..|keys|] == keys;
  }

  /** One pass: the adjustments of the calls with receipts, then every recovery debit. */
  method UsageAdjustments(events: seq<Event>, rows: seq<Row>, ledger: seq<Debit>) returns (r: Result)
    ensures r == Pass(events, rows, ledger)
  {
    var adjustments := AdjustCalls(events, rows);
    var ours := adjustments;
    for i := 0 to |ledger|
      invariant adjustments == ours + Debits(ledger[..i])
      invariant forall j :: 0 <= j < i ==> ledger[j].Valid()
    {
      if ledger[i].cost < 0.0 || ledger[i].reason == "" {
        assert !ledger[i].Valid();
        return InvalidDebit;
      }
      assert Debits(ledger[..i + 1]) == Debits(ledger[..i]) + [Debits(ledger[..i + 1])[i]];
      adjustments := adjustments
        + [Adjustment(RecoveryId(ledger[i].key), Amounts(ledger[i].cost, 0, 0, 0), false, false,
            "legacy-reconciliation")];
    }
    assert ledger[..|ledger|] == ledger;
    return Adjusted(adjustments);
  }
}
