/** Each call is billed the larger of what was billed and its receipts, and charging a pass settles it. */
module ReconciliationProperties {
  import opened Wrappers
  import opened Reconciliation
  import opened ReconciliationSums

  lemma PlusLaws(a: Amounts, b: Amounts, c: Amounts)
    ensures a.Plus(b).Plus(c) == a.Plus(b.Plus(c)) && a.Plus(b).Plus(c) == a.Plus(c).Plus(b)
    ensures a.Plus(ZERO) == a && ZERO.Plus(a) == a
  {
  }

  lemma PlusFour(a: Amounts, b: Amounts, c: Amounts, d: Amounts)
    ensures a.Plus(b).Plus(c.Plus(d)) == a.Plus(c).Plus(b.Plus(d))
  {
  }

  lemma ExcessTops(billed: Amounts, receipts: Amounts)
    ensures billed.Plus(receipts.Excess(billed)) == billed.Max(receipts)
    ensures receipts.Excess(billed.Max(receipts)) == ZERO
  {
  }

  function When(c: bool, a: Amounts): Amounts { if c then a else ZERO }

  // ---- Sums over calls ----

  function SumOf<K>(f: K -> Amounts, keys: seq<K>): Amounts {
    if keys == [] then ZERO else SumOf(f, keys[..|keys| - 1]).Plus(f(keys[|keys| - 1]))
  }

  ghost predicate Distinct<K>(keys: seq<K>) {
    forall i, j :: 0 <= i < j < |keys| ==> keys[i] != keys[j]
  }

  lemma {:induction false} SumPlus<K>(f: K -> Amounts, g: K -> Amounts, h: K -> Amounts, keys: seq<K>)
    requires forall k :: k in keys ==> h(k) == f(k).Plus(g(k))
    ensures SumOf(h, keys) == SumOf(f, keys).Plus(SumOf(g, keys))
  {
    if keys != [] {
      var init, k := keys[..|keys| - 1], keys[|keys| - 1];
      SumPlus(f, g, h, init);
      PlusFour(SumOf(f, init), SumOf(g, init), f(k), g(k));
    }
  }

  lemma {:induction false} SumRemove<K>(f: K -> Amounts, keys: seq<K>, i: nat)
    requires i < |keys|
    ensures SumOf(f, keys) == SumOf(f, keys[..i] + keys[i + 1..]).Plus(f(keys[i]))
  {
    var rest, init := keys[..i] + keys[i + 1..], keys[..|keys| - 1];
    if i == |keys| - 1 {
      assert rest == init;
    } else {
      assert rest[..|rest| - 1] == init[..i] + init[i + 1..];
      SumRemove(f, init, i);
      PlusLaws(SumOf(f, init[..i] + init[i + 1..]), f(keys[i]), f(keys[|keys| - 1]));
    }
  }

  lemma {:induction false} SumNothing<K>(f: K -> Amounts, keys: seq<K>)
    requires forall k :: k in keys ==> f(k) == ZERO
    ensures SumOf(f, keys) == ZERO
  {
    if keys != [] { SumNothing(f, keys[..|keys| - 1]); }
  }

  lemma RemoveOne<K>(keys: seq<K>, i: nat)
    requires Distinct(keys) && i < |keys|
    ensures var rest := keys[..i] + keys[i + 1..]; Distinct(rest) && forall k :: k in rest <==>
              k in keys && k != keys[i]
  {
    var rest := keys[..i] + keys[i + 1..];
    assert forall j :: 0 <= j < |rest| ==> rest[j] == if j < i then keys[j] else keys[j + 1];
    forall k | k in keys && k != keys[i] ensures k in rest {
      var j :| 0 <= j < |keys| && keys[j] == k;
      assert rest[if j < i then j else j - 1] == k;
    }
  }

  /** The order of the calls does not matter, nor do calls that add nothing. */
  lemma {:induction false} SumSame<K>(f: K -> Amounts, a: seq<K>, b: seq<K>)
    requires Distinct(a) && Distinct(b)
    requires forall k :: k in a && f(k) != ZERO ==> k in b
    requires forall k :: k in b && f(k) != ZERO ==> k in a
    ensures SumOf(f, a) == SumOf(f, b)
  {
    if a == [] {
      SumNothing(f, b);
    } else {
      var init, k := a[..|a| - 1], a[|a| - 1];
      if f(k) == ZERO {
        SumSame(f, init, b);
        PlusLaws(SumOf(f, init), ZERO, ZERO);
      } else {
        var i :| 0 <= i < |b| && b[i] == k;
        RemoveOne(b, i);
        InLast(a, k);
        SumRemove(f, b, i);
        SumSame(f, init, b[..i] + b[i + 1..]);
      }
    }
  }

  lemma InLast<K>(keys: seq<K>, key: K)
    requires keys != [] && Distinct(keys)
    ensures var init := keys[..|keys| - 1];
            Distinct(init) && (key in keys <==> key in init || keys[|keys| - 1] == key)
                && !(key in init && keys[|keys| - 1] == key)
  {
  }

  lemma OneOf(b: bool, c: bool, a: Amounts)
    requires !(b && c)
    ensures When(b, a).Plus(When(c, a)) == When(b || c, a)
  {
  }

  function Point<K(==)>(key: K, a: Amounts): K -> Amounts { k => When(k == key, a) }

  lemma {:induction false} SumPoint<K>(key: K, a: Amounts, keys: seq<K>)
    requires Distinct(keys)
    ensures SumOf(Point(key, a), keys) == When(key in keys, a)
  {
    if keys != [] {
      var init, last := keys[..|keys| - 1], keys[|keys| - 1];
      SumPoint(key, a, init);
      InLast(keys, key);
      OneOf(key in init, last == key, a);
    }
  }

  // ---- One call ----

  /** What adjustments add to one call. */
  function Added(adjustments: seq<Adjustment>, id: Id): Amounts {
    if adjustments == [] then ZERO
    else
      Added(adjustments[..|adjustments| - 1], id)
        .Plus(When(adjustments[|adjustments| - 1].id == id, adjustments[|adjustments| - 1].amounts))
  }

  lemma AddedSnoc(before: seq<Adjustment>, a: Adjustment, id: Id)
    ensures Added(before + [a], id) == Added(before, id).Plus(When(a.id == id, a.amounts))
  {
    assert (before + [a])[..|before|] == before;
  }

  /** Each adjustment is for its own call. */
  ghost predicate Named(owed: Name -> Adjustment) { forall key :: owed(key).id == CallId(key) }

  lemma AdjustmentsLast(owed: Name -> Adjustment, keys: seq<Name>)
    requires keys != []
    ensures var before, a := Adjustments(owed, keys[..|keys| - 1]), owed(keys[|keys| - 1]);
            Adjustments(owed, keys) == if Due(a) then before + [a] else before
  {
  }

  lemma AddedStep(before: seq<Adjustment>, a: Adjustment, id: Id, earlier: bool, amounts: Amounts)
    requires Added(before, id) == When(earlier, amounts)
    requires a.id == id ==> a.amounts == amounts && !earlier
    ensures Added(if Due(a) then before + [a] else before, id) == When(earlier || a.id == id, amounts)
  {
    AddedSnoc(before, a, id);
    OneOf(earlier, a.id == id, amounts);
    PlusLaws(Added(before, id), ZERO, ZERO);
  }

  lemma {:induction false} AddedIs(owed: Name -> Adjustment, keys: seq<Name>, key: Name)
    requires Named(owed) && Distinct(keys)
    ensures Added(Adjustments(owed, keys), CallId(key)) == When(key in keys, owed(key).amounts)
  {
    if keys != [] {
      var init, last := keys[..|keys| - 1], keys[|keys| - 1];
      AddedIs(owed, init, key);
      InLast(keys, key);
      AdjustmentsLast(owed, keys);
      assert owed(last).id == CallId(last);
      AddedStep(Adjustments(owed, init), owed(last), CallId(key), key in init, owed(key).amounts);
    }
  }

  lemma {:induction false} KeysDistinct(rows: seq<Row>)
    ensures Distinct(Keys(rows))
    ensures forall i :: 0 <= i < |rows| ==> rows[i].Key() in Keys(rows)
  {
    if rows != [] { KeysDistinct(rows[..|rows| - 1]); }
  }

  lemma OwedAt(events: seq<Event>, rows: seq<Row>, key: Name)
    ensures Owed(events, rows)(key).amounts == Receipts(rows, key).amounts.Excess(Billed(events, Some(key)))
  {
  }

  lemma OwedNamed(events: seq<Event>, rows: seq<Row>)
    ensures Named(Owed(events, rows))
  {
  }

  lemma LargerBilled(events: seq<Event>, rows: seq<Row>, key: Name)
    requires key in Keys(rows)
    ensures Billed(events, Some(key)).Plus(Added(CallAdjustments(events, rows), CallId(key)))
         == Billed(events, Some(key)).Max(Receipts(rows, key).amounts)
  {
    KeysDistinct(rows);
    OwedNamed(events, rows);
    AddedIs(Owed(events, rows), Keys(rows), key);
    OwedAt(events, rows, key);
    ExcessTops(Billed(events, Some(key)), Receipts(rows, key).amounts);
  }

  /** What was billed to a call and what a pass adds make, in every field, the larger of the sum of its model
      calls and the sum of its receipts. */
  lemma BilledTheLarger(events: seq<Event>, rows: seq<Row>, key: Name)
    ensures Total(CallsOf(events, Some(key))).Plus(Added(CallAdjustments(events, rows), CallId(key)))
         == DueSum(events, rows, Some(key))
  {
    BilledIsSum(events, Some(key));
    DueIsLarger(events, rows, Some(key));
    if key in Keys(rows) {
      LargerBilled(events, rows, key);
    } else {
      KeysDistinct(rows);
      OwedNamed(events, rows);
      AddedIs(Owed(events, rows), Keys(rows), key);
      PlusLaws(Billed(events, Some(key)), ZERO, ZERO);
    }
  }

  /** Where `x` is more than `y`, by how much. */
  ghost predicate IsExcess(x: Amounts, y: Amounts, d: Amounts) {
    && (if x.cost > y.cost then x.cost == y.cost + d.cost else d.cost == 0.0)
    && (if x.input > y.input then x.input == y.input + d.input else d.input == 0)
    && (if x.output > y.output then x.output == y.output + d.output else d.output == 0)
    && (if x.reasoning > y.reasoning then x.reasoning == y.reasoning + d.reasoning else d.reasoning == 0)
  }

  /** An adjustment is made for exactly the calls whose receipts exceed what was billed in some field, or are
      unavailable, and says by how much, and what the receipts say. */
  lemma AdjustedExactly(events: seq<Event>, rows: seq<Row>, key: Name)
    ensures var due := Receipts(rows, key);
            var excess := Adjust(events, rows, key).amounts;
            && IsExcess(Total(RowsOf(rows, key)), Total(CallsOf(events, Some(key))), excess)
            && (HasRows(rows, key) && (excess != ZERO || due.unavailable) <==>
                  exists a :: a in CallAdjustments(events, rows) && a.id == CallId(key))
            && forall a :: a in CallAdjustments(events, rows) && a.id == CallId(key) ==>
                 a == Adjustment(CallId(key), excess, due.unavailable, due.estimated, due.model)
  {
    BilledIsSum(events, Some(key));
    ReceiptsSum(rows, key);
    KeysAre(rows);
    AdjustedAre(Owed(events, rows), Keys(rows), key);
  }

  lemma {:induction false} AdjustedAre(owed: Name -> Adjustment, keys: seq<Name>, key: Name)
    requires Named(owed)
    ensures forall a :: a in Adjustments(owed, keys) && a.id == CallId(key) ==> a == owed(key)
    ensures owed(key) in Adjustments(owed, keys) <==> key in keys && Due(owed(key))
  {
    if keys != [] {
      AdjustedAre(owed, keys[..|keys| - 1], key);
      AdjustmentsLast(owed, keys);
      assert owed(keys[|keys| - 1]).id == CallId(keys[|keys| - 1]) && owed(key).id == CallId(key);
    }
  }

  // ---- Charging a pass ----

  /** The adjustments of calls appended as model calls. */
  function Charges(adjustments: seq<Adjustment>): seq<Event> {
    if adjustments == [] then []
    else
      var a := adjustments[|adjustments| - 1];
      var before := Charges(adjustments[..|adjustments| - 1]);
      if a.id.CallId? then before + [ModelCall(Some(a.id.key), a.amounts)] else before
  }

  function Charge(e: Event, key: Option<Name>): Amounts {
    if e.ModelCall? then When(e.callId == key, e.amounts) else ZERO
  }

  lemma BilledSnoc(events: seq<Event>, e: Event, key: Option<Name>)
    ensures Billed(events + [e], key) == Billed(events, key).Plus(Charge(e, key))
  {
    assert (events + [e])[..|events|] == events;
    PlusLaws(Billed(events, key), ZERO, ZERO);
  }

  lemma {:induction false} ChargedIs(events: seq<Event>, adjustments: seq<Adjustment>, key: Name)
    ensures Billed(events + Charges(adjustments), Some(key))
            == Billed(events, Some(key)).Plus(Added(adjustments, CallId(key)))
  {
    if adjustments == [] {
      assert events + [] == events;
      PlusLaws(Billed(events, Some(key)), ZERO, ZERO);
    } else {
      var init, a := adjustments[..|adjustments| - 1], adjustments[|adjustments| - 1];
      ChargedIs(events, init, key);
      ChargeLast(events, adjustments, key);
      PlusLaws(Billed(events, Some(key)), Added(init, CallId(key)), When(a.id == CallId(key), a.amounts));
    }
  }

  lemma ChargeLast(events: seq<Event>, adjustments: seq<Adjustment>, key: Name)
    requires adjustments != []
    ensures var init, a := adjustments[..|adjustments| - 1], adjustments[|adjustments| - 1];
            var before := Billed(events + Charges(init), Some(key));
            Billed(events + Charges(adjustments), Some(key)) == before.Plus(When(a.id == CallId(key), a.amounts))
  {
    var init, a := adjustments[..|adjustments| - 1], adjustments[|adjustments| - 1];
    if a.id.CallId? {
      var charge := ModelCall(Some(a.id.key), a.amounts);
      Assoc(events, Charges(init), charge);
      BilledSnoc(events + Charges(init), charge, Some(key));
    } else {
      PlusLaws(Billed(events + Charges(init), Some(key)), ZERO, ZERO);
    }
  }

  lemma Assoc<T>(a: seq<T>, b: seq<T>, c: T)
    ensures a + (b + [c]) == a + b + [c]
  {
  }

  ghost predicate AllSettled(adjustments: seq<Adjustment>) {
    forall i :: 0 <= i < |adjustments| ==> adjustments[i].amounts == ZERO && adjustments[i].unavailable
  }

  lemma {:induction false} SettledAdjustments(owed: Name -> Adjustment, keys: seq<Name>)
    requires forall key :: key in keys ==> owed(key).amounts == ZERO
    ensures AllSettled(Adjustments(owed, keys))
  {
    if keys != [] {
      SettledAdjustments(owed, keys[..|keys| - 1]);
      AdjustmentsLast(owed, keys);
      var last := keys[|keys| - 1];
      assert owed(last).amounts == ZERO;
    }
  }

  lemma ChargedCall(events: seq<Event>, rows: seq<Row>, key: Name)
    requires key in Keys(rows)
    ensures Owed(events + Charges(CallAdjustments(events, rows)), rows)(key).amounts == ZERO
  {
    OwedAt(events + Charges(CallAdjustments(events, rows)), rows, key);
    ChargedIs(events, CallAdjustments(events, rows), key);
    LargerBilled(events, rows, key);
    ExcessTops(Billed(events, Some(key)), Receipts(rows, key).amounts);
  }

  /** Once a pass is charged, the next one owes nothing: it only still names the calls whose usage is
      unavailable. */
  lemma ChargedPassIsSettled(events: seq<Event>, rows: seq<Row>)
    ensures var charged := events + Charges(CallAdjustments(events, rows));
            AllSettled(CallAdjustments(charged, rows))
  {
    var charged := events + Charges(CallAdjustments(events, rows));
    forall key | key in Keys(rows) ensures Owed(charged, rows)(key).amounts == ZERO {
      ChargedCall(events, rows, key);
    }
    SettledAdjustments(Owed(charged, rows), Keys(rows));
  }

  // ---- The total of a run ----

  function EventTotal(events: seq<Event>): Amounts {
    if events == [] then ZERO
    else
      var e := events[|events| - 1];
      EventTotal(events[..|events| - 1]).Plus(if e.ModelCall? then e.amounts else ZERO)
  }

  function AdjustmentTotal(adjustments: seq<Adjustment>): Amounts {
    if adjustments == [] then ZERO
    else AdjustmentTotal(adjustments[..|adjustments| - 1]).Plus(adjustments[|adjustments| - 1].amounts)
  }

  function BillOf(events: seq<Event>): Option<Name> -> Amounts { key => Billed(events, key) }

  /** What each call is due. */
  function DueTo(events: seq<Event>, rows: seq<Row>): Option<Name> -> Amounts {
    (key: Option<Name>) => DueSum(events, rows, key)
  }

  function AddedTo(events: seq<Event>, rows: seq<Row>): Option<Name> -> Amounts {
    (key: Option<Name>) => if key.Some? && key.value in Keys(rows) then Adjust(events, rows, key.value).amounts
        else ZERO
  }

  function EventKeys(events: seq<Event>): seq<Option<Name>> {
    if events == [] then []
    else
      var e := events[|events| - 1];
      var before := EventKeys(events[..|events| - 1]);
      if e.ModelCall? && e.callId !in before then before + [e.callId] else before
  }

  function Wrapped(keys: seq<Name>): seq<Option<Name>> {
    seq(|keys|, i requires 0 <= i < |keys| => Some(keys[i]))
  }

  function Missing(keys: seq<Option<Name>>, have: seq<Option<Name>>): seq<Option<Name>> {
    if keys == [] then []
    else
      var key := keys[|keys| - 1];
      var before := Missing(keys[..|keys| - 1], have);
      if key in have then before else before + [key]
  }

  /** Every call of the events and of the receipts, once. */
  function AllKeys(events: seq<Event>, rows: seq<Row>): seq<Option<Name>> {
    EventKeys(events) + Missing(Wrapped(Keys(rows)), EventKeys(events))
  }

  lemma {:induction false} MissingIs(keys: seq<Option<Name>>, have: seq<Option<Name>>)
    requires Distinct(keys)
    ensures Distinct(Missing(keys, have))
    ensures forall k :: k in Missing(keys, have) <==> k in keys && k !in have
  {
    if keys != [] { MissingIs(keys[..|keys| - 1], have); }
  }

  lemma {:induction false} EventKeysDistinct(events: seq<Event>)
    ensures Distinct(EventKeys(events))
    ensures forall key :: key !in EventKeys(events) ==> Billed(events, key) == ZERO
  {
    if events != [] { EventKeysDistinct(events[..|events| - 1]); }
  }

  lemma BillPoint(events: seq<Event>, e: Event, key: Option<Name>)
    requires e.ModelCall?
    ensures BillOf(events + [e])(key) == BillOf(events)(key).Plus(Point(e.callId, e.amounts)(key))
  {
    BillAt(events, key);
    BillAt(events + [e], key);
    BilledSnoc(events, e, key);
    PointAt(e.callId, e.amounts, key);
  }

  lemma BillAt(events: seq<Event>, key: Option<Name>)
    ensures BillOf(events)(key) == Billed(events, key)
  {
  }

  lemma PointAt(callId: Option<Name>, a: Amounts, key: Option<Name>)
    ensures Point(callId, a)(key) == When(callId == key, a)
  {
  }

  lemma BillWith(events: seq<Event>, e: Event, keys: seq<Option<Name>>)
    requires Distinct(keys) && e.ModelCall?
    ensures SumOf(BillOf(events + [e]), keys) == SumOf(BillOf(events), keys).Plus(When(e.callId in keys, e.amounts))
  {
    forall key | key in keys
      ensures BillOf(events + [e])(key) == BillOf(events)(key).Plus(Point(e.callId, e.amounts)(key))
    {
      BillPoint(events, e, key);
    }
    SumPlus(BillOf(events), Point(e.callId, e.amounts), BillOf(events + [e]), keys);
    SumPoint(e.callId, e.amounts, keys);
  }

  lemma {:induction false} BillWithout(events: seq<Event>, e: Event, keys: seq<Option<Name>>)
    requires !e.ModelCall?
    ensures SumOf(BillOf(events + [e]), keys) == SumOf(BillOf(events), keys)
  {
    if keys != [] {
      BillWithout(events, e, keys[..|keys| - 1]);
      BilledSnoc(events, e, keys[|keys| - 1]);
      PlusLaws(Billed(events, keys[|keys| - 1]), ZERO, ZERO);
    }
  }

  /** The bill of a run is the sum of its calls' bills, over any list that has them all once. */
  lemma {:induction false} TotalByCall(events: seq<Event>, keys: seq<Option<Name>>)
    requires Distinct(keys) && forall k :: k in EventKeys(events) ==> k in keys
    ensures EventTotal(events) == SumOf(BillOf(events), keys)
  {
    if events == [] {
      SumNothing(BillOf(events), keys);
    } else {
      var init, e := events[..|events| - 1], events[|events| - 1];
      TotalByCall(init, keys);
      assert events == init + [e];
      if e.ModelCall? {
        BillWith(init, e, keys);
      } else {
        BillWithout(init, e, keys);
        PlusLaws(EventTotal(init), ZERO, ZERO);
      }
    }
  }

  lemma {:induction false} AdjustmentTotalIs(events: seq<Event>, rows: seq<Row>, keys: seq<Name>)
    requires forall k :: k in keys ==> k in Keys(rows)
    ensures AdjustmentTotal(Adjustments(Owed(events, rows), keys)) == SumOf(AddedTo(events, rows), Wrapped(keys))
  {
    if keys != [] {
      var init, key := keys[..|keys| - 1], keys[|keys| - 1];
      AdjustmentTotalIs(events, rows, init);
      WrappedLast(keys);
      AdjustmentsLast(Owed(events, rows), keys);
      DueAt(events, rows, key);
      TotalStep(Adjustments(Owed(events, rows), init), Adjust(events, rows, key));
    }
  }

  lemma WrappedLast(keys: seq<Name>)
    requires keys != []
    ensures var w := Wrapped(keys); w[..|w| - 1] == Wrapped(keys[..|keys| - 1]) && w[|w| - 1] == Some(keys[|keys| - 1])
  {
  }

  lemma TotalStep(before: seq<Adjustment>, a: Adjustment)
    ensures AdjustmentTotal(if Due(a) then before + [a] else before) == AdjustmentTotal(before).Plus(a.amounts)
  {
    AdjustmentSnoc(before, a);
    PlusLaws(AdjustmentTotal(before), ZERO, ZERO);
  }

  lemma AdjustmentSnoc(before: seq<Adjustment>, a: Adjustment)
    ensures AdjustmentTotal(before + [a]) == AdjustmentTotal(before).Plus(a.amounts)
  {
    assert (before + [a])[..|before|] == before;
  }

  /** A run's bill with a pass's adjustments is the sum of what its calls are due: nothing twice, and
      nothing left out. */
  lemma RunTotal(events: seq<Event>, rows: seq<Row>)
    ensures EventTotal(events).Plus(AdjustmentTotal(CallAdjustments(events, rows)))
         == SumOf(DueTo(events, rows), AllKeys(events, rows))
  {
    var all := AllKeys(events, rows);
    AllDistinct(events, rows);
    TotalByCall(events, all);
    AdjustmentTotalIs(events, rows, Keys(rows));
    AllAdded(events, rows);
    forall key | key in all
      ensures DueTo(events, rows)(key) == BillOf(events)(key).Plus(AddedTo(events, rows)(key))
    {
      DueIs(events, rows, key);
    }
    SumPlus(BillOf(events), AddedTo(events, rows), DueTo(events, rows), all);
  }

  lemma AllDistinct(events: seq<Event>, rows: seq<Row>)
    ensures Distinct(AllKeys(events, rows)) && Distinct(Wrapped(Keys(rows)))
    ensures forall k :: k in EventKeys(events) ==> k in AllKeys(events, rows)
    ensures forall k :: k in Wrapped(Keys(rows)) ==> k in AllKeys(events, rows)
  {
    var have, wrapped := EventKeys(events), Wrapped(Keys(rows));
    KeysDistinct(rows);
    assert Distinct(wrapped);
    EventKeysDistinct(events);
    MissingIs(wrapped, have);
    var missing := Missing(wrapped, have);
    assert forall i :: 0 <= i < |missing| ==> missing[i] in missing;
  }

  lemma AllAdded(events: seq<Event>, rows: seq<Row>)
    requires Distinct(AllKeys(events, rows)) && Distinct(Wrapped(Keys(rows)))
    requires forall k :: k in Wrapped(Keys(rows)) ==> k in AllKeys(events, rows)
    ensures SumOf(AddedTo(events, rows), AllKeys(events, rows)) == SumOf(AddedTo(events, rows), Wrapped(Keys(rows)))
  {
    forall k | k in AllKeys(events, rows) && AddedTo(events, rows)(k) != ZERO ensures k in Wrapped(Keys(rows)) {
      var i :| 0 <= i < |Keys(rows)| && Keys(rows)[i] == k.value;
      assert Wrapped(Keys(rows))[i] == k;
    }
    SumSame(AddedTo(events, rows), AllKeys(events, rows), Wrapped(Keys(rows)));
  }

  lemma DueIs(events: seq<Event>, rows: seq<Row>, key: Option<Name>)
    ensures DueTo(events, rows)(key) == BillOf(events)(key).Plus(AddedTo(events, rows)(key))
  {
    BillAt(events, key);
    DueIsLarger(events, rows, key);
    PlusLaws(Billed(events, key), ZERO, ZERO);
    if key.Some? && key.value in Keys(rows) {
      DueAt(events, rows, key.value);
      ExcessTops(Billed(events, key), Receipts(rows, key.value).amounts);
    }
  }

  lemma DueAt(events: seq<Event>, rows: seq<Row>, key: Name)
    requires key in Keys(rows)
    ensures DueTo(events, rows)(Some(key)) == Billed(events, Some(key)).Max(Receipts(rows, key).amounts)
    ensures AddedTo(events, rows)(Some(key)) == Receipts(rows, key).amounts.Excess(Billed(events, Some(key)))
  {
    DueIsLarger(events, rows, Some(key));
  }

  // ---- Rounds, and recovery debits ----

  /** A round of reconciliation: what was billed since the last one, and the receipts there are by then. */
  datatype Round = Round(late: seq<Event>, rows: seq<Row>) {
    predicate Has(key: Option<Name>) { key.Some? && key.value in Keys(rows) }

    function Receipt(key: Option<Name>): Amounts
      requires Has(key)
    {
      Receipts(rows, key.value).amounts
    }
  }

  /** The run's model calls, with the pass of each round charged back. */
  function ChargedOn(events: seq<Event>, rounds: seq<Round>): seq<Event>
    decreases rounds
  {
    if rounds == [] then events else ChargedOn(AfterRound(events, rounds[0]), rounds[1..])
  }

  function AfterRound(events: seq<Event>, r: Round): seq<Event> {
    events + r.late + Charges(CallAdjustments(events + r.late, r.rows))
  }

  /** Those the run made itself. */
  function AllBilled(events: seq<Event>, rounds: seq<Round>): seq<Event>
    decreases rounds
  {
    if rounds == [] then events else AllBilled(events + rounds[0].late, rounds[1..])
  }

  function LateAmounts(rounds: seq<Round>, key: Option<Name>): Amounts {
    if rounds == [] then ZERO else Billed(rounds[0].late, key).Plus(LateAmounts(rounds[1..], key))
  }

  /** Rounds between which nothing more was billed. */
  function Quiet(rounds: seq<seq<Row>>): (r: seq<Round>)
    ensures |r| == |rounds| && forall i :: 0 <= i < |r| ==> r[i] == Round([], rounds[i])
  {
    seq(|rounds|, i requires 0 <= i < |rounds| => Round([], rounds[i]))
  }

  function Charged(events: seq<Event>, rounds: seq<seq<Row>>): seq<Event> {
    ChargedOn(events, Quiet(rounds))
  }

  /** Receipts only ever grow. */
  ghost predicate GrowsTo(before: seq<Row>, later: seq<Row>) {
    forall key :: key in Keys(before) ==>
      key in Keys(later) && AtMost(Receipts(before, key).amounts, Receipts(later, key).amounts)
  }

  lemma {:induction false} ChargesNamed(events: seq<Event>, adjustments: seq<Adjustment>)
    ensures Billed(events + Charges(adjustments), None) == Billed(events, None)
  {
    if adjustments == [] {
      assert events + [] == events;
    } else {
      var init, a := adjustments[..|adjustments| - 1], adjustments[|adjustments| - 1];
      ChargesNamed(events, init);
      if a.id.CallId? { ChargeUnnamed(events, Charges(init), a); }
    }
  }

  lemma ChargeUnnamed(events: seq<Event>, before: seq<Event>, a: Adjustment)
    requires a.id.CallId?
    ensures Billed(events + (before + [ModelCall(Some(a.id.key), a.amounts)]), None) == Billed(events + before, None)
  {
    Assoc(events, before, ModelCall(Some(a.id.key), a.amounts));
    BilledSnoc(events + before, ModelCall(Some(a.id.key), a.amounts), None);
    PlusLaws(Billed(events + before, None), ZERO, ZERO);
  }

  lemma RoundBilled(events: seq<Event>, rows: seq<Row>, key: Name)
    ensures var charged := events + Charges(CallAdjustments(events, rows));
            Billed(charged, Some(key))
              == if key in Keys(rows) then Billed(events, Some(key)).Max(Receipts(rows, key).amounts)
                  else Billed(events, Some(key))
  {
    ChargedIs(events, CallAdjustments(events, rows), key);
    if key in Keys(rows) {
      LargerBilled(events, rows, key);
    } else {
      KeysDistinct(rows);
      OwedNamed(events, rows);
      AddedIs(Owed(events, rows), Keys(rows), key);
      PlusLaws(Billed(events, Some(key)), ZERO, ZERO);
    }
  }

  lemma {:induction false} BilledConcat(a: seq<Event>, b: seq<Event>, key: Option<Name>)
    ensures Billed(a + b, key) == Billed(a, key).Plus(Billed(b, key))
  {
    if b == [] {
      assert a + b == a;
      PlusLaws(Billed(a, key), ZERO, ZERO);
    } else {
      var init, e := b[..|b| - 1], b[|b| - 1];
      BilledConcat(a, init, key);
      assert b == init + [e];
      BilledOn(a, init, e, key);
    }
  }

  lemma BilledOn(a: seq<Event>, init: seq<Event>, e: Event, key: Option<Name>)
    requires Billed(a + init, key) == Billed(a, key).Plus(Billed(init, key))
    ensures Billed(a + (init + [e]), key) == Billed(a, key).Plus(Billed(init + [e], key))
  {
    Assoc(a, init, e);
    BilledSnoc(a + init, e, key);
    BilledSnoc(init, e, key);
    if e.ModelCall? { PlusLaws(Billed(a, key), Billed(init, key), When(e.callId == key, e.amounts)); }
  }

  lemma AfterRoundBilled(events: seq<Event>, r: Round, key: Option<Name>)
    ensures var b := Billed(events, key).Plus(Billed(r.late, key));
            Billed(AfterRound(events, r), key) == if r.Has(key) then b.Max(r.Receipt(key)) else b
  {
    BilledConcat(events, r.late, key);
    if key.None? {
      ChargesNamed(events + r.late, CallAdjustments(events + r.late, r.rows));
    } else {
      RoundBilled(events + r.late, r.rows, key.value);
    }
  }

  lemma {:induction false} AllBilledIs(events: seq<Event>, rounds: seq<Round>, key: Option<Name>)
    ensures Billed(AllBilled(events, rounds), key) == Billed(events, key).Plus(LateAmounts(rounds, key))
    decreases rounds
  {
    PlusLaws(Billed(events, key), ZERO, ZERO);
    if rounds != [] {
      AllBilledIs(events + rounds[0].late, rounds[1..], key);
      BilledConcat(events, rounds[0].late, key);
      PlusLaws(Billed(events, key), Billed(rounds[0].late, key), LateAmounts(rounds[1..], key));
    }
  }

  /** Each round's receipts with all that was billed after it stay within `x`. */
  ghost predicate Within(rounds: seq<Round>, key: Option<Name>, x: Amounts) {
    forall i :: 0 <= i < |rounds| && rounds[i].Has(key) ==>
      AtMost(rounds[i].Receipt(key).Plus(LateAmounts(rounds[i + 1..], key)), x)
  }

  lemma WithinCons(rounds: seq<Round>, key: Option<Name>, x: Amounts)
    requires rounds != []
    ensures Within(rounds, key, x) <==>
              && (rounds[0].Has(key) ==> AtMost(rounds[0].Receipt(key).Plus(LateAmounts(rounds[1..], key)), x))
              && Within(rounds[1..], key, x)
  {
    var rest := rounds[1..];
    assert forall i :: 0 <= i < |rest| ==> rest[i] == rounds[i + 1] && rest[i + 1..] == rounds[i + 2..];
    if Within(rounds, key, x) {
      forall i | 0 <= i < |rest| && rest[i].Has(key)
        ensures AtMost(rest[i].Receipt(key).Plus(LateAmounts(rest[i + 1..], key)), x)
      {
        assert rounds[i + 1].Has(key);
      }
    }
    if Within(rest, key, x) {
      forall i | 0 < i < |rounds| && rounds[i].Has(key)
        ensures AtMost(rounds[i].Receipt(key).Plus(LateAmounts(rounds[i + 1..], key)), x)
      {
        assert rest[i - 1].Has(key);
      }
    }
  }

  lemma MaxPlusWithin(b: Amounts, c: Amounts, late: Amounts, x: Amounts)
    ensures AtMost(b.Max(c).Plus(late), x) <==> AtMost(b.Plus(late), x) && AtMost(c.Plus(late), x)
  {
  }

  /** What a call comes to be billed: the most of what was billed in all, and of each round's receipts with
      what was billed after it. */
  lemma {:induction false} PeakIs(events: seq<Event>, rounds: seq<Round>, key: Option<Name>, x: Amounts)
    ensures AtMost(Billed(ChargedOn(events, rounds), key), x) <==>
              AtMost(Billed(events, key).Plus(LateAmounts(rounds, key)), x) && Within(rounds, key, x)
    decreases rounds
  {
    PlusLaws(Billed(events, key), ZERO, ZERO);
    if rounds != [] {
      var r, rest := rounds[0], rounds[1..];
      PeakIs(AfterRound(events, r), rest, key, x);
      AfterRoundBilled(events, r, key);
      WithinCons(rounds, key, x);
      var b, late := Billed(events, key).Plus(Billed(r.late, key)), LateAmounts(rest, key);
      PlusLaws(Billed(events, key), Billed(r.late, key), late);
      if r.Has(key) { MaxPlusWithin(b, r.Receipt(key), late, x); }
    }
  }

  lemma DueOf(events: seq<Event>, rows: seq<Row>, key: Option<Name>)
    ensures DueTo(events, rows)(key)
            == if key.Some? && key.value in Keys(rows) then Billed(events, key).Max(Receipts(rows, key.value).amounts)
               else Billed(events, key)
  {
    DueIsLarger(events, rows, key);
  }

  /** A call stays at what it is due, whatever was billed to it between rounds, exactly when no round's
      receipts with what was billed to it after that round exceed what it is due; otherwise it is billed more. */
  lemma LateExactly(events: seq<Event>, rounds: seq<Round>, rows: seq<Row>, key: Option<Name>)
    ensures var due := DueTo(AllBilled(events, rounds), rows)(key);
            && AtMost(due, DueTo(ChargedOn(events, rounds), rows)(key))
            && (DueTo(ChargedOn(events, rounds), rows)(key) == due <==> Within(rounds, key, due))
  {
    var charged, all := ChargedOn(events, rounds), AllBilled(events, rounds);
    DueOf(all, rows, key);
    DueOf(charged, rows, key);
    AllBilledIs(events, rounds, key);
    PeakIs(events, rounds, key, DueTo(all, rows)(key));
    PeakIs(events, rounds, key, Billed(charged, key));
    MaxFacts(Billed(all, key), Billed(charged, key),
             if key.Some? && key.value in Keys(rows) then Receipts(rows, key.value).amounts else Billed(all, key));
  }

  lemma MaxFacts(a: Amounts, b: Amounts, r: Amounts)
    requires AtMost(a, b)
    ensures AtMost(a, a.Max(r)) && AtMost(a.Max(r), b.Max(r))
    ensures b.Max(r) == a.Max(r) <==> AtMost(b, a.Max(r))
    ensures a == b <==> AtMost(b, a)
  {
  }

  lemma EventKeysSnoc(events: seq<Event>, e: Event)
    ensures forall k :: k in EventKeys(events + [e]) <==> k in EventKeys(events) || (e.ModelCall? && e.callId == k)
  {
    assert (events + [e])[..|events|] == events;
  }

  /** Charging a pass brings in no calls but those of the receipts. */
  lemma {:induction false} ChargedKeys(events: seq<Event>, owed: Name -> Adjustment, keys: seq<Name>)
    requires Named(owed)
    ensures KeysGrow(EventKeys(events), EventKeys(events + Charges(Adjustments(owed, keys))), keys)
  {
    if keys == [] {
      assert events + [] == events;
    } else {
      var init, last := keys[..|keys| - 1], keys[|keys| - 1];
      ChargedKeys(events, owed, init);
      AdjustmentsLast(owed, keys);
      var before, a := Adjustments(owed, init), owed(last);
      assert a.id == CallId(last);
      ChargeSnoc(events, before, a);
      EventKeysSnoc(events + Charges(before), ModelCall(Some(last), a.amounts));
    }
  }

  lemma ChargeSnoc(events: seq<Event>, before: seq<Adjustment>, a: Adjustment)
    requires a.id.CallId?
    ensures events + Charges(before + [a]) == events + Charges(before) + [ModelCall(Some(a.id.key), a.amounts)]
  {
    assert (before + [a])[..|before|] == before;
    Assoc(events, Charges(before), ModelCall(Some(a.id.key), a.amounts));
  }

  ghost predicate KeysGrow(before: seq<Option<Name>>, after: seq<Option<Name>>, more: seq<Name>) {
    && (forall k :: k in before ==> k in after)
    && (forall k :: k in after ==> k in before || (k.Some? && k.value in more))
  }

  lemma {:induction false} EventKeysConcat(a: seq<Event>, b: seq<Event>)
    ensures forall k :: k in EventKeys(a + b) <==> k in EventKeys(a) || k in EventKeys(b)
  {
    if b == [] {
      assert a + b == a;
    } else {
      var init, e := b[..|b| - 1], b[|b| - 1];
      EventKeysConcat(a, init);
      assert a + b == (a + init) + [e] && b == init + [e];
      EventKeysSnoc(a + init, e);
      EventKeysSnoc(init, e);
    }
  }

  /** The rounds name no calls but those of the receipts there are in the end. */
  ghost predicate Foreseen(rounds: seq<Round>, rows: seq<Row>) {
    forall i, key :: 0 <= i < |rounds| && key in Keys(rounds[i].rows) ==> key in Keys(rows)
  }

  lemma RoundKeys(all: seq<Event>, charged: seq<Event>, r: Round, more: seq<Name>)
    requires KeysGrow(EventKeys(all), EventKeys(charged), more) && forall key :: key in Keys(r.rows) ==> key in more
    ensures KeysGrow(EventKeys(all + r.late), EventKeys(AfterRound(charged, r)), more)
  {
    EventKeysConcat(all, r.late);
    EventKeysConcat(charged, r.late);
    OwedNamed(charged + r.late, r.rows);
    ChargedKeys(charged + r.late, Owed(charged + r.late, r.rows), Keys(r.rows));
    var before, after := EventKeys(charged + r.late), EventKeys(AfterRound(charged, r));
    forall k | k in after ensures k in EventKeys(all + r.late) || (k.Some? && k.value in more) {
      if k !in before {
        var key := k.value;
        assert key in Keys(r.rows);
      }
    }
  }

  lemma {:induction false} RoundsKeys(all: seq<Event>, charged: seq<Event>, rounds: seq<Round>, rows: seq<Row>)
    requires KeysGrow(EventKeys(all), EventKeys(charged), Keys(rows)) && Foreseen(rounds, rows)
    ensures KeysGrow(EventKeys(AllBilled(all, rounds)), EventKeys(ChargedOn(charged, rounds)), Keys(rows))
    decreases rounds
  {
    if rounds != [] {
      assert Foreseen(rounds[1..], rows) by {
        assert forall i :: 0 <= i < |rounds| - 1 ==> rounds[1..][i] == rounds[i + 1];
      }
      RoundKeys(all, charged, rounds[0], Keys(rows));
      RoundsKeys(all + rounds[0].late, AfterRound(charged, rounds[0]), rounds[1..], rows);
    }
  }

  lemma {:induction false} SumBelow<K>(f: K -> Amounts, g: K -> Amounts, keys: seq<K>)
    requires forall k :: k in keys ==> AtMost(f(k), g(k))
    ensures AtMost(SumOf(f, keys), SumOf(g, keys))
    ensures SumOf(f, keys) == SumOf(g, keys) <==> forall k :: k in keys ==> f(k) == g(k)
  {
    if keys != [] {
      var init, last := keys[..|keys| - 1], keys[|keys| - 1];
      SumBelow(f, g, init);
      assert keys == init + [last];
      PlusBelow(SumOf(f, init), SumOf(g, init), f(last), g(last));
      assert forall k :: k in keys <==> k in init || k == last;
    }
  }

  lemma PlusBelow(a: Amounts, b: Amounts, c: Amounts, d: Amounts)
    requires AtMost(a, b) && AtMost(c, d)
    ensures AtMost(a.Plus(c), b.Plus(d)) && (a.Plus(c) == b.Plus(d) <==> a == b && c == d)
  {
  }

  function LedgerTotal(ledger: seq<Debit>): Amounts {
    if ledger == [] then ZERO
    else LedgerTotal(ledger[..|ledger| - 1]).Plus(Amounts(ledger[|ledger| - 1].cost, 0, 0, 0))
  }

  lemma {:induction false} WithDebits(ours: seq<Adjustment>, ledger: seq<Debit>)
    ensures AdjustmentTotal(ours + Debits(ledger)) == AdjustmentTotal(ours).Plus(LedgerTotal(ledger))
  {
    if ledger == [] {
      assert ours + Debits(ledger) == ours;
      PlusLaws(AdjustmentTotal(ours), ZERO, ZERO);
    } else {
      var init, d := ledger[..|ledger| - 1], ledger[|ledger| - 1];
      WithDebits(ours, init);
      DebitsSnoc(ours, init, d);
      assert init + [d] == ledger;
      PlusLaws(AdjustmentTotal(ours), LedgerTotal(init), Amounts(d.cost, 0, 0, 0));
    }
  }

  lemma DebitsSnoc(ours: seq<Adjustment>, init: seq<Debit>, d: Debit)
    ensures AdjustmentTotal(ours + Debits(init + [d]))
            == AdjustmentTotal(ours + Debits(init)).Plus(Amounts(d.cost, 0, 0, 0))
  {
    var a := Adjustment(RecoveryId(d.key), Amounts(d.cost, 0, 0, 0), false, false, "legacy-reconciliation");
    assert Debits(init + [d]) == Debits(init) + [a];
    assert ours + (Debits(init) + [a]) == (ours + Debits(init)) + [a];
    AdjustmentSnoc(ours + Debits(init), a);
  }

  /** A run's bill: its model calls and a whole pass, debits included. */
  function WholeBill(events: seq<Event>, rows: seq<Row>, ledger: seq<Debit>): Amounts {
    EventTotal(events).Plus(PassTotal(Pass(events, rows, ledger)))
  }

  function PassTotal(pass: Result): Amounts {
    match pass case Adjusted(all) => AdjustmentTotal(all) case InvalidDebit => ZERO
  }

  lemma OneBill(events: seq<Event>, rows: seq<Row>, ledger: seq<Debit>)
    requires forall i :: 0 <= i < |ledger| ==> ledger[i].Valid()
    ensures WholeBill(events, rows, ledger)
            == SumOf(DueTo(events, rows), AllKeys(events, rows)).Plus(LedgerTotal(ledger))
  {
    RunTotal(events, rows);
    WholeBillIs(events, rows, ledger);
    WithDebits(CallAdjustments(events, rows), ledger);
    PlusLaws(EventTotal(events), AdjustmentTotal(CallAdjustments(events, rows)), LedgerTotal(ledger));
  }

  lemma WholeBillIs(events: seq<Event>, rows: seq<Row>, ledger: seq<Debit>)
    requires forall i :: 0 <= i < |ledger| ==> ledger[i].Valid()
    ensures WholeBill(events, rows, ledger)
            == EventTotal(events).Plus(AdjustmentTotal(CallAdjustments(events, rows) + Debits(ledger)))
  {
    PassIs(events, rows, ledger);
  }

  lemma PassIs(events: seq<Event>, rows: seq<Row>, ledger: seq<Debit>)
    requires forall i :: 0 <= i < |ledger| ==> ledger[i].Valid()
    ensures Pass(events, rows, ledger) == Adjusted(CallAdjustments(events, rows) + Debits(ledger))
  {
  }

  /** However many rounds were charged back before, and whatever was billed meanwhile, the run's bill is what
      its calls are due, and each recovery debit once, exactly when for no call a round's receipts with what
      was billed to it after that round exceed what it is due. */
  lemma RoundsSettleExactly(events: seq<Event>, rounds: seq<Round>, rows: seq<Row>, ledger: seq<Debit>)
    requires Foreseen(rounds, rows) && forall i :: 0 <= i < |ledger| ==> ledger[i].Valid()
    ensures var all := AllBilled(events, rounds);
            var due := DueTo(all, rows);
            (WholeBill(ChargedOn(events, rounds), rows, ledger)
             == SumOf(due, AllKeys(all, rows)).Plus(LedgerTotal(ledger)))
            <==> (forall key :: key in AllKeys(all, rows) ==> Within(rounds, key, due(key)))
  {
    var all, charged := AllBilled(events, rounds), ChargedOn(events, rounds);
    OneBill(charged, rows, ledger);
    SameCalls(events, rounds, rows);
    AllDistinct(all, rows);
    AllDistinct(charged, rows);
    SumSame(DueTo(charged, rows), AllKeys(charged, rows), AllKeys(all, rows));
    forall key | key in AllKeys(all, rows)
      ensures AtMost(DueTo(all, rows)(key), DueTo(charged, rows)(key))
      ensures DueTo(charged, rows)(key) == DueTo(all, rows)(key) <==> Within(rounds, key, DueTo(all, rows)(key))
    {
      LateExactly(events, rounds, rows, key);
    }
    SumBelow(DueTo(all, rows), DueTo(charged, rows), AllKeys(all, rows));
    PlusCancels(SumOf(DueTo(charged, rows), AllKeys(all, rows)), SumOf(DueTo(all, rows), AllKeys(all, rows)),
                LedgerTotal(ledger));
  }

  lemma PlusCancels(a: Amounts, b: Amounts, c: Amounts)
    ensures a.Plus(c) == b.Plus(c) <==> a == b
  {
  }

  lemma SameCalls(events: seq<Event>, rounds: seq<Round>, rows: seq<Row>)
    requires Foreseen(rounds, rows)
    ensures forall k :: k in AllKeys(ChargedOn(events, rounds), rows) <==> k in AllKeys(AllBilled(events, rounds), rows)
  {
    RoundsKeys(events, events, rounds, rows);
    AllKeysAre(AllBilled(events, rounds), rows);
    AllKeysAre(ChargedOn(events, rounds), rows);
  }

  lemma {:induction false} QuietAmounts(rounds: seq<Round>, key: Option<Name>)
    requires forall i :: 0 <= i < |rounds| ==> rounds[i].late == []
    ensures LateAmounts(rounds, key) == ZERO
  {
    if rounds != [] {
      QuietAmounts(rounds[1..], key);
      PlusLaws(ZERO, ZERO, ZERO);
    }
  }

  lemma {:induction false} QuietBilled(events: seq<Event>, rounds: seq<Round>)
    requires forall i :: 0 <= i < |rounds| ==> rounds[i].late == []
    ensures AllBilled(events, rounds) == events
    decreases rounds
  {
    if rounds != [] {
      assert events + [] == events;
      QuietBilled(events, rounds[1..]);
    }
  }

  lemma QuietWithin(events: seq<Event>, rounds: seq<seq<Row>>, rows: seq<Row>, key: Option<Name>)
    requires forall i :: 0 <= i < |rounds| ==> GrowsTo(rounds[i], rows)
    ensures Within(Quiet(rounds), key, DueTo(events, rows)(key))
  {
    var quiet := Quiet(rounds);
    forall i | 0 <= i < |quiet| && quiet[i].Has(key)
      ensures AtMost(quiet[i].Receipt(key).Plus(LateAmounts(quiet[i + 1..], key)), DueTo(events, rows)(key))
    {
      QuietAmounts(quiet[i + 1..], key);
      PlusLaws(quiet[i].Receipt(key), ZERO, ZERO);
      DueOf(events, rows, key);
      assert key.value in Keys(rounds[i]) && GrowsTo(rounds[i], rows);
    }
  }

  /** So it is when nothing was billed between rounds, on receipts that only grew. */
  lemma RoundsSettle(events: seq<Event>, rounds: seq<seq<Row>>, rows: seq<Row>, ledger: seq<Debit>)
    requires forall i :: 0 <= i < |rounds| ==> GrowsTo(rounds[i], rows)
    requires forall i :: 0 <= i < |ledger| ==> ledger[i].Valid()
    ensures WholeBill(Charged(events, rounds), rows, ledger)
         == SumOf(DueTo(events, rows), AllKeys(events, rows)).Plus(LedgerTotal(ledger))
  {
    var quiet := Quiet(rounds);
    QuietBilled(events, quiet);
    forall key | key in AllKeys(events, rows) ensures Within(quiet, key, DueTo(events, rows)(key)) {
      QuietWithin(events, rounds, rows, key);
    }
    RoundsSettleExactly(events, quiet, rows, ledger);
  }

  /** Otherwise a call can be billed twice: it was settled up to its receipts, and then `paid`, which those
      receipts already counted, was billed. */
  lemma LateCallBilledTwice(first: Round, second: Round, key: Name, row: Row, paid: Amounts)
    requires first == Round([], [row]) && second == Round([ModelCall(Some(key), paid)], [row])
    requires row.callId == Some(key) && AtMost(ZERO, paid) && AtMost(paid, row.amounts)
    ensures Billed(ChargedOn([], [first, second]), Some(key)) == row.amounts.Plus(paid)
    ensures DueTo(AllBilled([], [first, second]), [row])(Some(key)) == row.amounts
  {
    OneReceipt(row, key);
    TwoRounds([], first, second);
    LateBill(first, second, key, row.amounts, paid);
    DueOf(second.late, [row], Some(key));
    assert [] + first.late + second.late == second.late;
  }

  lemma LateBill(first: Round, second: Round, key: Name, owed: Amounts, paid: Amounts)
    requires first.late == [] && second.late == [ModelCall(Some(key), paid)]
    requires first.Has(Some(key)) && first.Receipt(Some(key)) == owed
    requires second.Has(Some(key)) && second.Receipt(Some(key)) == owed
    requires AtMost(ZERO, paid) && AtMost(paid, owed)
    ensures Billed(AfterRound(AfterRound([], first), second), Some(key)) == owed.Plus(paid)
    ensures Billed(second.late, Some(key)) == paid
  {
    AfterRoundBilled([], first, Some(key));
    AfterRoundBilled(AfterRound([], first), second, Some(key));
    BilledSnoc([], ModelCall(Some(key), paid), Some(key));
    assert [] + second.late == second.late;
    MaxLate(owed, paid);
  }

  lemma MaxBelow(a: Amounts, b: Amounts)
    requires AtMost(a, b)
    ensures a.Max(b) == b && b.Max(a) == b
  {
  }

  lemma PlusGrows(a: Amounts, b: Amounts)
    requires AtMost(ZERO, b)
    ensures AtMost(a, a.Plus(b))
  {
  }

  lemma MaxLate(owed: Amounts, paid: Amounts)
    requires AtMost(ZERO, paid) && AtMost(paid, owed)
    ensures ZERO.Plus(ZERO).Max(owed) == owed && owed.Plus(paid).Max(owed) == owed.Plus(paid)
    ensures paid.Max(owed) == owed && ZERO.Plus(paid) == paid
  {
    assert AtMost(ZERO, owed);
    PlusLaws(ZERO, ZERO, ZERO);
    PlusLaws(paid, ZERO, ZERO);
    MaxBelow(ZERO, owed);
    MaxBelow(paid, owed);
    PlusGrows(owed, paid);
    MaxBelow(owed, owed.Plus(paid));
  }

  lemma TwoRounds(events: seq<Event>, first: Round, second: Round)
    ensures ChargedOn(events, [first, second]) == AfterRound(AfterRound(events, first), second)
    ensures AllBilled(events, [first, second]) == events + first.late + second.late
  {
    var rounds := [first, second];
    var rest, once := rounds[1..], AfterRound(events, first);
    assert rest == [second] && rest[1..] == [];
    assert ChargedOn(events, rounds) == ChargedOn(once, rest);
    assert ChargedOn(once, rest) == ChargedOn(AfterRound(once, second), rest[1..]);
    assert AllBilled(events, rounds) == AllBilled(events + first.late, rest);
    assert AllBilled(events + first.late, rest) == AllBilled(events + first.late + second.late, rest[1..]);
  }

  lemma OneReceipt(row: Row, key: Name)
    requires row.callId == Some(key)
    ensures Keys([row]) == [key] && Receipts([row], key).amounts == row.amounts
  {
    assert [row][..0] == [];
    PlusLaws(row.amounts, ZERO, ZERO);
  }

  lemma AllKeysAre(events: seq<Event>, rows: seq<Row>)
    ensures forall k :: k in AllKeys(events, rows) <==> k in EventKeys(events) || (k.Some? && k.value in Keys(rows))
  {
    var wrapped := Wrapped(Keys(rows));
    KeysDistinct(rows);
    assert Distinct(wrapped);
    MissingIs(wrapped, EventKeys(events));
    forall k: Option<Name> ensures k in wrapped <==> k.Some? && k.value in Keys(rows) {
      if k.Some? && k.value in Keys(rows) {
        var i :| 0 <= i < |Keys(rows)| && Keys(rows)[i] == k.value;
        assert wrapped[i] == k;
      }
    }
  }

  /** Repeating the pass on the same receipts leaves the bill as it is: no call and no recovery debit is
      counted twice, however often it runs. */
  lemma DebitsOncePerPass(events: seq<Event>, rows: seq<Row>, ledger: seq<Debit>, rounds: nat)
    requires forall i :: 0 <= i < |ledger| ==> ledger[i].Valid()
    ensures WholeBill(Charged(events, seq(rounds, i => rows)), rows, ledger) == WholeBill(events, rows, ledger)
  {
    RoundsSettle(events, seq(rounds, i => rows), rows, ledger);
    OneBill(events, rows, ledger);
  }
}
