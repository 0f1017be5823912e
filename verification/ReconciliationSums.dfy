/** What the events and the receipts of a call come to, field by field. */
module ReconciliationSums {
  import opened Wrappers
  import opened Reconciliation

  function CostOf(xs: seq<Amounts>): real {
    if xs == [] then 0.0 else xs[0].cost + CostOf(xs[1..])
  }

  datatype Kind = Input | Output | Reasoning

  function Tokens(a: Amounts, kind: Kind): int {
    match kind case Input => a.input case Output => a.output case Reasoning => a.reasoning
  }

  function TokensOf(xs: seq<Amounts>, kind: Kind): int {
    if xs == [] then 0 else Tokens(xs[0], kind) + TokensOf(xs[1..], kind)
  }

  /** Field by field, the sum of a list of amounts. */
  function Total(xs: seq<Amounts>): Amounts {
    Amounts(CostOf(xs), TokensOf(xs, Input), TokensOf(xs, Output), TokensOf(xs, Reasoning))
  }

  /** A receipt belongs to its call, or, when it has none, to its own invocation. */
  predicate Belongs(row: Row, key: Name) {
    match row.callId case Some(id) => id == key case None => row.invocationId == key
  }

  predicate HasRows(rows: seq<Row>, key: Name) {
    exists i :: 0 <= i < |rows| && Belongs(rows[i], key)
  }

  /** What the receipts of a call say, one after another. */
  function RowsOf(rows: seq<Row>, key: Name): seq<Amounts> {
    if rows == [] then []
    else (if Belongs(rows[0], key) then [rows[0].amounts] else []) + RowsOf(rows[1..], key)
  }

  /** What the model calls with this id billed, one after another. */
  function CallsOf(events: seq<Event>, id: Option<Name>): seq<Amounts> {
    if events == [] then []
    else (match events[0] case ModelCall(callId, a) => if callId == id then [a] else [] case OtherEvent => [])
         + CallsOf(events[1..], id)
  }

  lemma {:induction false} TotalSnoc(xs: seq<Amounts>, a: Amounts)
    ensures Total(xs + [a]) == Total(xs).Plus(a)
  {
    if xs == [] {
      assert (xs + [a])[1..] == [];
    } else {
      assert (xs + [a])[1..] == xs[1..] + [a];
      TotalSnoc(xs[1..], a);
    }
  }

  lemma {:induction false} RowsOfSnoc(rows: seq<Row>, row: Row, key: Name)
    ensures RowsOf(rows + [row], key) ==
            if Belongs(row, key) then RowsOf(rows, key) + [row.amounts] else RowsOf(rows, key)
  {
    if rows != [] {
      assert (rows + [row])[1..] == rows[1..] + [row];
      RowsOfSnoc(rows[1..], row, key);
    }
  }

  lemma {:induction false} CallsOfSnoc(events: seq<Event>, e: Event, id: Option<Name>)
    ensures CallsOf(events + [e], id) ==
            if e.ModelCall? && e.callId == id then CallsOf(events, id) + [e.amounts] else CallsOf(events, id)
  {
    if events != [] {
      assert (events + [e])[1..] == events[1..] + [e];
      CallsOfSnoc(events[1..], e, id);
    }
  }

  lemma {:induction false} BilledIsSum(events: seq<Event>, id: Option<Name>)
    ensures Billed(events, id) == Total(CallsOf(events, id))
  {
    if events != [] {
      var init, e := events[..|events| - 1], events[|events| - 1];
      BilledIsSum(init, id);
      assert events == init + [e];
      CallsOfSnoc(init, e, id);
      if e.ModelCall? { TotalSnoc(CallsOf(init, id), e.amounts); }
    }
  }

  lemma {:induction false} ReceiptsSum(rows: seq<Row>, key: Name)
    ensures Receipts(rows, key).amounts == Total(RowsOf(rows, key))
  {
    if rows != [] {
      var init, row := rows[..|rows| - 1], rows[|rows| - 1];
      ReceiptsSum(init, key);
      assert rows == init + [row];
      RowsOfSnoc(init, row, key);
      TotalSnoc(RowsOf(init, key), row.amounts);
    }
  }

  lemma {:induction false} ReceiptsFlags(rows: seq<Row>, key: Name)
    ensures Receipts(rows, key).unavailable <==>
              exists i :: 0 <= i < |rows| && Belongs(rows[i], key) && rows[i].unavailable
    ensures Receipts(rows, key).estimated <==>
              exists i :: 0 <= i < |rows| && Belongs(rows[i], key) && rows[i].estimated
  {
    if rows != [] {
      var init, row := rows[..|rows| - 1], rows[|rows| - 1];
      ReceiptsFlags(init, key);
      assert forall i :: 0 <= i < |init| ==> rows[i] == init[i];
      assert Belongs(row, key) <==> row.Key() == key;
    }
  }

  lemma {:induction false} ReceiptsModel(rows: seq<Row>, key: Name, i: nat)
    requires i < |rows| && Belongs(rows[i], key) && forall j :: i < j < |rows| ==> !Belongs(rows[j], key)
    ensures Receipts(rows, key).model == rows[i].model
  {
    var init, row := rows[..|rows| - 1], rows[|rows| - 1];
    assert Belongs(row, key) <==> row.Key() == key;
    if i < |rows| - 1 { ReceiptsModel(init, key, i); }
  }

  /** A call's receipts are, in every field, the sum of those that belong to it; they are unavailable, or
      estimated, if one of them is; the model is that of the last one. */
  lemma ReceiptsAreSums(rows: seq<Row>, key: Name)
    ensures var c := Receipts(rows, key);
            && c.amounts == Total(RowsOf(rows, key))
            && (c.unavailable <==> exists i :: 0 <= i < |rows| && Belongs(rows[i], key) && rows[i].unavailable)
            && (c.estimated <==> exists i :: 0 <= i < |rows| && Belongs(rows[i], key) && rows[i].estimated)
            && forall i :: 0 <= i < |rows| && Belongs(rows[i], key) && !HasRows(rows[i + 1..], key) ==>
                 c.model == rows[i].model
  {
    ReceiptsSum(rows, key);
    ReceiptsFlags(rows, key);
    forall i | 0 <= i < |rows| && Belongs(rows[i], key) && !HasRows(rows[i + 1..], key)
      ensures Receipts(rows, key).model == rows[i].model
    {
      forall j | i < j < |rows| ensures !Belongs(rows[j], key) { assert rows[i + 1..][j - i - 1] == rows[j]; }
      ReceiptsModel(rows, key, i);
    }
  }

  /** The calls with receipts, in the order of their first ones. */
  lemma {:induction false} KeysAre(rows: seq<Row>)
    ensures forall key :: key in Keys(rows) <==> HasRows(rows, key)
  {
    if rows != [] {
      var init, row := rows[..|rows| - 1], rows[|rows| - 1];
      KeysAre(init);
      forall key ensures key in Keys(rows) <==> HasRows(rows, key) {
        assert Belongs(row, key) <==> row.Key() == key;
        if HasRows(init, key) {
          var i :| 0 <= i < |init| && Belongs(init[i], key);
          assert Belongs(rows[i], key);
        }
        if row.Key() == key { assert Belongs(rows[|init|], key); }
      }
    }
  }

  /** What a call is due: in every field the larger of what was billed to it and its receipts, or just what
      was billed when it has no receipts. */
  function DueSum(events: seq<Event>, rows: seq<Row>, id: Option<Name>): Amounts {
    var billed := Total(CallsOf(events, id));
    if id.Some? && HasRows(rows, id.value) then
      var received := Total(RowsOf(rows, id.value));
      Amounts(if billed.cost < received.cost then received.cost else billed.cost,
              if billed.input < received.input then received.input else billed.input,
              if billed.output < received.output then received.output else billed.output,
              if billed.reasoning < received.reasoning then received.reasoning else billed.reasoning)
    else billed
  }

  lemma DueIsLarger(events: seq<Event>, rows: seq<Row>, id: Option<Name>)
    ensures DueSum(events, rows, id) ==
            if id.Some? && id.value in Keys(rows) then Billed(events, id).Max(Receipts(rows, id.value).amounts)
            else Billed(events, id)
  {
    KeysAre(rows);
    BilledIsSum(events, id);
    if id.Some? { ReceiptsSum(rows, id.value); }
  }
}
