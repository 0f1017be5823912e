/** The log replays to what is in memory, through crashes and restores; what a torn line costs. */
module ProviderLedgerProperties {
  import opened Wrappers
  import opened EventSnapshot
  import opened EventSnapshotProperties
  import EventLog
  import EventLogProperties
  import UniqueIds
  import opened ProviderLedger

  // ---- Attempt ids ----

  lemma {:induction false} DecimalNoColon(n: nat)
    ensures ':' !in UniqueIds.Decimal(n)
  {
    if n >= 10 { DecimalNoColon(n / 10); }
  }

  lemma AttemptIdInjective(id: string, a: Key, b: Key)
    requires AttemptId(id, a) == AttemptId(id, b)
    ensures a == b
  {
    var x, y := UniqueIds.Decimal(a.idx), UniqueIds.Decimal(b.idx);
    DecimalNoColon(a.idx);
    DecimalNoColon(b.idx);
    var s := AttemptId(id, a);
    assert s[|s| - |x|..] == x && s[|s| - |x| - 1] == ':';
    assert s[|s| - |y|..] == y && s[|s| - |y| - 1] == ':';
    assert forall j :: |s| - |x| <= j < |s| ==> s[j] == x[j - (|s| - |x|)];
    assert forall j :: |s| - |y| <= j < |s| ==> s[j] == y[j - (|s| - |y|)];
    assert x == y;
    UniqueIds.DecimalInjective(a.idx, b.idx);
    assert a.ts == s[|id| + 1..|s| - |x| - 1] == b.ts;
  }

  // ---- The log against the memory ----

  function Untimed(row: Fields): Fields { row - {Timestamp} }

  ghost predicate DistinctIds(rows: seq<Fields>) {
    forall i, j :: 0 <= i < j < |rows| ==> IdOf(rows[i]) != IdOf(rows[j])
  }

  ghost predicate DistinctKeys(attempts: seq<Attempt>) {
    forall i, j :: 0 <= i < j < |attempts| ==> attempts[i].key != attempts[j].key
  }

  /** The row says what the record says, but for the time of writing. */
  ghost predicate RowMirrors(id: string, metadata: Fields, record: Fields, row: Fields) {
    && RowAttemptId in record && IdOf(row) == record[RowAttemptId] && Get(row, RowInvocationId) == id
    && Untimed(row) == Untimed(RowOf(id, metadata, record, ""))
  }

  /** The invocation's rows are its attempts, in the order first seen. */
  ghost predicate Mirrored(m: Memory, mine: seq<Fields>) {
    && |mine| == |m.attempts| && DistinctIds(mine) && DistinctKeys(m.attempts)
    && forall i :: 0 <= i < |mine| ==> RowMirrors(m.id, m.metadata, m.attempts[i].record, mine[i])
  }

  predicate Has(m: Memory, key: Key) {
    exists i :: 0 <= i < |m.attempts| && m.attempts[i].key == key
  }

  predicate IdTaken(rows: seq<Fields>, id: string) {
    exists i :: 0 <= i < |rows| && IdOf(rows[i]) == id
  }

  /** What callers pass: never the identity of the row. */
  predicate Proper(changes: Fields) { RowAttemptId !in changes && RowInvocationId !in changes }

  lemma ChangedRow(id: string, metadata: Fields, record: Fields, row: Fields, changes: Fields, timestamp: string)
    requires RowMirrors(id, metadata, record, row) && Proper(changes)
    ensures var r := RowOf(id, metadata, record + changes, timestamp);
            RowMirrors(id, metadata, record + changes, r) && IdOf(r) == IdOf(row)
  {
    assert RowInvocationId in Untimed(row) && RowInvocationId in Untimed(RowOf(id, metadata, record, ""));
    var r := RowOf(id, metadata, record + changes, timestamp);
    assert Untimed(r) == Untimed(RowOf(id, metadata, record + changes, ""));
  }

  lemma NewRow(id: string, metadata: Fields, key: Key, changes: Fields, timestamp: string)
    requires Proper(changes) && RowInvocationId !in metadata
    ensures var r := RowOf(id, metadata, NewRecord(id, key) + changes, timestamp);
            RowMirrors(id, metadata, NewRecord(id, key) + changes, r) && IdOf(r) == AttemptId(id, key)
  {
    var r := RowOf(id, metadata, NewRecord(id, key) + changes, timestamp);
    assert Untimed(r) == Untimed(RowOf(id, metadata, NewRecord(id, key) + changes, ""));
  }

  /** The attempts after an update, and the row it writes. */
  lemma UpdateIs(m: Memory, key: Key, changes: Fields, timestamp: string, i: nat)
    requires i == FirstWith(m.attempts, key)
    ensures var record := (if i < |m.attempts| then m.attempts[i].record else NewRecord(m.id, key)) + changes;
            && Updated(m, key, changes).attempts ==
                 (if i < |m.attempts| then m.attempts[i := Attempt(key, record)]
                     else m.attempts + [Attempt(key, record)])
            && Revision(Updated(m, key, changes), key, timestamp) == RowOf(m.id, m.metadata, record, timestamp)
  {
    TouchedAt(m.id, m.attempts, key, changes, i);
    RecordAt(Updated(m, key, changes).attempts, key, i);
  }

  lemma ReplaceMirrors(m: Memory, mine: seq<Fields>, i: nat, record: Fields, row: Fields)
    requires Mirrored(m, mine) && i < |mine|
    requires RowMirrors(m.id, m.metadata, record, row) && IdOf(row) == IdOf(mine[i])
    ensures Upserted(mine, row) == mine[i := row]
    ensures Mirrored(m.(attempts := m.attempts[i := Attempt(m.attempts[i].key, record)]), mine[i := row])
  {
    UpsertedAt(mine, row, i);
  }

  lemma AppendMirrors(m: Memory, mine: seq<Fields>, key: Key, record: Fields, row: Fields)
    requires Mirrored(m, mine) && !Has(m, key) && RowMirrors(m.id, m.metadata, record, row)
    ensures Mirrored(m.(attempts := m.attempts + [Attempt(key, record)]), Upserted(mine, row)) <==>
              !IdTaken(mine, IdOf(row))
  {
    UpsertedAt(mine, row, FirstId(mine, IdOf(row)));
  }

  /** One update keeps the log a mirror of the memory, exactly when its attempt is known or its id is
      not yet another attempt's. */
  lemma UpdateMirrors(m: Memory, mine: seq<Fields>, key: Key, changes: Fields, timestamp: string)
    requires Mirrored(m, mine) && Proper(changes) && RowInvocationId !in m.metadata
    ensures var r := Revision(Updated(m, key, changes), key, timestamp);
            Mirrored(Updated(m, key, changes), Upserted(mine, r)) <==>
                  (Has(m, key) || !IdTaken(mine, AttemptId(m.id, key)))
    ensures var r := Revision(Updated(m, key, changes), key, timestamp);
            && Get(r, RowInvocationId) == m.id
            && (if Has(m, key) then IdTaken(mine, IdOf(r)) else IdOf(r) == AttemptId(m.id, key))
  {
    var i := FirstWith(m.attempts, key);
    UpdateIs(m, key, changes, timestamp, i);
    var r := Revision(Updated(m, key, changes), key, timestamp);
    if i < |mine| {
      assert Has(m, key);
      ChangedRow(m.id, m.metadata, m.attempts[i].record, mine[i], changes, timestamp);
      ReplaceMirrors(m, mine, i, m.attempts[i].record + changes, r);
    } else {
      NewRow(m.id, m.metadata, key, changes, timestamp);
      AppendMirrors(m, mine, key, NewRecord(m.id, key) + changes, r);
    }
  }

  function FirstWith(attempts: seq<Attempt>, key: Key): (i: nat)
    ensures i <= |attempts| && forall j :: 0 <= j < i ==> attempts[j].key != key
    ensures i < |attempts| ==> attempts[i].key == key
  {
    if attempts == [] || attempts[0].key == key then 0 else 1 + FirstWith(attempts[1..], key)
  }

  function FirstId(rows: seq<Fields>, id: string): (i: nat)
    ensures i <= |rows| && forall j :: 0 <= j < i ==> IdOf(rows[j]) != id
    ensures i < |rows| ==> IdOf(rows[i]) == id
  {
    if rows == [] || IdOf(rows[0]) == id then 0 else 1 + FirstId(rows[1..], id)
  }

  // ---- A log that many invocations share ----

  predicate Begins(s: string, prefix: string) {
    |prefix| <= |s| && s[..|prefix|] == prefix
  }

  /** An attempt id starts with its own invocation's id. */
  predicate Belongs(row: Fields, id: string) {
    Get(row, RowInvocationId) == id <==> Begins(IdOf(row), id + ":")
  }

  ghost predicate AllBelong(rows: seq<Fields>, id: string) {
    forall i :: 0 <= i < |rows| ==> Belongs(rows[i], id)
  }

  lemma {:induction false} MineUpserted(rows: seq<Fields>, row: Fields, id: string)
    requires AllBelong(rows, id) && Belongs(row, id)
    ensures AllBelong(Upserted(rows, row), id)
    ensures Mine(Upserted(rows, row), id)
         == if Get(row, RowInvocationId) == id then Upserted(Mine(rows, id), row) else Mine(rows, id)
  {
    if rows != [] {
      assert Belongs(rows[0], id);
      if IdOf(rows[0]) == IdOf(row) {
        assert Mine([row] + rows[1..], id)
            == (if Get(row, RowInvocationId) == id then [row] else []) + Mine(rows[1..], id);
      } else {
        MineUpserted(rows[1..], row, id);
        var up := Upserted(rows[1..], row);
        assert Upserted(rows, row) == [rows[0]] + up && ([rows[0]] + up)[1..] == up;
        if Get(rows[0], RowInvocationId) == id {
          assert Mine(rows, id)[1..] == Mine(rows[1..], id);
          assert Mine([rows[0]] + up, id) == [rows[0]] + Mine(up, id);
        } else {
          assert Mine(rows, id) == Mine(rows[1..], id);
          assert Mine([rows[0]] + up, id) == Mine(up, id);
        }
      }
    }
  }

  /** What happens to the log: this invocation updates an attempt, or another one writes a row. */
  datatype Event = Own(key: Key, changes: Fields, timestamp: string) | Foreign(row: Fields)

  predicate Possible(id: string, e: Event) {
    match e
    case Own(_, changes, _) => Proper(changes)
    case Foreign(row) => Get(row, RowInvocationId) != id && !Begins(IdOf(row), id + ":")
  }

  function After(m: Memory, rows: seq<Fields>, e: Event): (Memory, seq<Fields>) {
    match e
    case Own(key, changes, ts) =>
      var later := Updated(m, key, changes);
      (later, rows + [Revision(later, key, ts)])
    case Foreign(row) => (m, rows + [row])
  }

  function Run(m: Memory, rows: seq<Fields>, events: seq<Event>): (Memory, seq<Fields>)
    decreases events
  {
    if events == [] then (m, rows)
    else
      var s := After(m, rows, events[0]);
      Run(s.0, s.1, events[1..])
  }

  /** Every attempt has the id its key gives it, or one of the restored ids. */
  ghost predicate Named(m: Memory, ids: set<string>) {
    forall i :: 0 <= i < |m.attempts| && RowAttemptId in m.attempts[i].record ==>
      m.attempts[i].record[RowAttemptId] == AttemptId(m.id, m.attempts[i].key)
          || m.attempts[i].record[RowAttemptId] in ids
  }

  /** The keys used from here on are those in memory, or give no restored id. */
  ghost predicate FreshKeys(m: Memory, ids: set<string>, events: seq<Event>) {
    forall i :: 0 <= i < |events| && events[i].Own? ==> Has(m, events[i].key) || AttemptId(m.id, events[i].key) !in ids
  }

  ghost predicate Ready(m: Memory, rows: seq<Fields>, ids: set<string>) {
    && Mirrored(m, Mine(Latest(rows), m.id)) && AllBelong(Latest(rows), m.id) && Named(m, ids)
    && RowInvocationId !in m.metadata
  }

  lemma OwnStep(m: Memory, rows: seq<Fields>, ids: set<string>, e: Event)
    requires Ready(m, rows, ids) && e.Own? && Possible(m.id, e)
    requires Has(m, e.key) || AttemptId(m.id, e.key) !in ids
    ensures Ready(After(m, rows, e).0, After(m, rows, e).1, ids)
    ensures forall key :: Has(m, key) ==> Has(After(m, rows, e).0, key)
  {
    var r := Revision(Updated(m, e.key, e.changes), e.key, e.timestamp);
    var mine := Mine(Latest(rows), m.id);
    assert (rows + [r])[..|rows|] == rows;
    KnownOrFree(m, mine, ids, e.key);
    UpdateMirrors(m, mine, e.key, e.changes, e.timestamp);
    RevisionBelongs(m, rows, e.key, r);
    MineUpserted(Latest(rows), r, m.id);
    StaysNamed(m, ids, e.key, e.changes);
  }

  lemma KnownOrFree(m: Memory, mine: seq<Fields>, ids: set<string>, key: Key)
    requires Mirrored(m, mine) && Named(m, ids) && (Has(m, key) || AttemptId(m.id, key) !in ids)
    ensures Has(m, key) || !IdTaken(mine, AttemptId(m.id, key))
  {
    if IdTaken(mine, AttemptId(m.id, key)) {
      var i :| 0 <= i < |mine| && IdOf(mine[i]) == AttemptId(m.id, key);
      assert RowMirrors(m.id, m.metadata, m.attempts[i].record, mine[i]);
      if m.attempts[i].record[RowAttemptId] == AttemptId(m.id, m.attempts[i].key) {
        AttemptIdInjective(m.id, m.attempts[i].key, key);
      }
    }
  }

  /** The row an update writes has an id of its own invocation. */
  lemma RevisionBelongs(m: Memory, rows: seq<Fields>, key: Key, r: Fields)
    requires AllBelong(Latest(rows), m.id) && Get(r, RowInvocationId) == m.id
    requires IdTaken(Mine(Latest(rows), m.id), IdOf(r)) || IdOf(r) == AttemptId(m.id, key)
    ensures Belongs(r, m.id)
  {
    var mine := Mine(Latest(rows), m.id);
    if i :| 0 <= i < |mine| && IdOf(mine[i]) == IdOf(r) {
      MineIn(Latest(rows), m.id, i);
    } else {
      assert AttemptId(m.id, key)[..|m.id + ":"|] == m.id + ":";
    }
  }

  lemma StaysNamed(m: Memory, ids: set<string>, key: Key, changes: Fields)
    requires Named(m, ids) && Proper(changes)
    requires forall i :: 0 <= i < |m.attempts| ==> RowAttemptId in m.attempts[i].record
    ensures Named(Updated(m, key, changes), ids)
    ensures forall k :: Has(m, k) ==> Has(Updated(m, key, changes), k)
  {
    TouchedAt(m.id, m.attempts, key, changes, FirstWith(m.attempts, key));
    var later := Updated(m, key, changes);
    forall k | Has(m, k) ensures Has(later, k) {
      var j :| 0 <= j < |m.attempts| && m.attempts[j].key == k;
      assert later.attempts[j].key == k;
    }
  }

  lemma {:induction false} MineIn(rows: seq<Fields>, id: string, i: nat)
    requires AllBelong(rows, id) && i < |Mine(rows, id)|
    ensures Belongs(Mine(rows, id)[i], id) && Get(Mine(rows, id)[i], RowInvocationId) == id
  {
    assert Belongs(rows[0], id);
    if Get(rows[0], RowInvocationId) == id {
      if i > 0 { MineIn(rows[1..], id, i - 1); }
    } else {
      MineIn(rows[1..], id, i);
    }
  }

  /** Through any updates, by this invocation and others, the log replays to what is in memory. */
  lemma {:induction false} LogMirrorsMemory(m: Memory, rows: seq<Fields>, ids: set<string>, events: seq<Event>)
    requires Ready(m, rows, ids) && FreshKeys(m, ids, events)
    requires forall i :: 0 <= i < |events| ==> Possible(m.id, events[i])
    ensures var end := Run(m, rows, events); Mirrored(end.0, Mine(Latest(end.1), m.id))
    decreases events
  {
    if events != [] {
      var e, s := events[0], After(m, rows, events[0]);
      match e {
        case Own(_, _, _) => OwnStep(m, rows, ids, e);
        case Foreign(row) =>
          assert (rows + [row])[..|rows|] == rows;
          MineUpserted(Latest(rows), row, m.id);
      }
      LogMirrorsMemory(s.0, s.1, ids, events[1..]);
    }
  }

  /** A new invocation starts on a log that has none of its rows. */
  lemma NewTraceReady(id: string, metadata: Fields, rows: seq<Fields>)
    requires RowInvocationId !in metadata && AllBelong(Latest(rows), id) && Mine(Latest(rows), id) == []
    ensures Ready(Memory(id, metadata, []), rows, {})
  {
  }

  lemma {:induction false} LatestDistinct(rows: seq<Fields>)
    ensures DistinctIds(Latest(rows))
  {
    if rows != [] {
      var before, row := Latest(rows[..|rows| - 1]), rows[|rows| - 1];
      LatestDistinct(rows[..|rows| - 1]);
      UpsertedAt(before, row, FirstId(before, IdOf(row)));
    }
  }

  lemma {:induction false} MineAreRows(rows: seq<Fields>, id: string)
    ensures forall r :: r in Mine(rows, id) ==> r in rows && Get(r, RowInvocationId) == id
  {
    if rows != [] { MineAreRows(rows[1..], id); }
  }

  lemma {:induction false} MineDistinct(rows: seq<Fields>, id: string)
    requires DistinctIds(rows)
    ensures DistinctIds(Mine(rows, id))
    ensures forall i :: 0 <= i < |Mine(rows, id)| ==> Get(Mine(rows, id)[i], RowInvocationId) == id
  {
    if rows != [] {
      MineDistinct(rows[1..], id);
      MineAreRows(rows[1..], id);
      var rest := Mine(rows[1..], id);
      forall i | 0 <= i < |rest| ensures IdOf(rest[i]) != IdOf(rows[0]) {
        assert rest[i] in rows[1..];
        var j :| 0 <= j < |rows[1..]| && rows[1..][j] == rest[i];
        assert rows[j + 1] == rest[i];
      }
    }
  }

  /** Rows of one invocation carry the same metadata, and the attempt's and the invocation's id. */
  ghost predicate Uniform(mine: seq<Fields>) {
    forall i :: 0 <= i < |mine| ==>
      RowAttemptId in mine[i] && RowInvocationId in mine[i] && forall name :: name in KEPT && name in mine[0] ==>
            name in mine[i]
  }

  /** A restored invocation mirrors the log it was restored from: whatever it updates then leaves one row
      per attempt, provided no new key gives a restored attempt's id. */
  lemma RestoredReady(rows: seq<Fields>, id: string)
    requires var mine := Mine(Latest(rows), id); mine != [] && Uniform(mine)
    requires AllBelong(Latest(rows), id)
    ensures var mine := Mine(Latest(rows), id);
            Ready(Restored(id, mine), rows, set i | 0 <= i < |mine| :: IdOf(mine[i]))
  {
    var mine := Mine(Latest(rows), id);
    var m := Restored(id, mine);
    LatestDistinct(rows);
    MineDistinct(Latest(rows), id);
    forall i | 0 <= i < |mine| ensures RowMirrors(m.id, m.metadata, m.attempts[i].record, mine[i]) {
      assert Untimed(mine[i]) == Untimed(RowOf(m.id, m.metadata, mine[i], ""));
    }
    forall i, j | 0 <= i < |mine| && 0 <= j < |mine| && UniqueIds.Decimal(i) == UniqueIds.Decimal(j) ensures i == j {
      UniqueIds.DecimalInjective(i, j);
    }
  }

  // ---- Torn lines ----

  function Encoded(c: Codec, rows: seq<Fields>): seq<Bytes> {
    seq(|rows|, i requires 0 <= i < |rows| => c.enc(rows[i]))
  }

  lemma {:induction false} LogEntries(c: Codec, rows: seq<Fields>)
    requires c.OneLine()
    ensures Complete(LogOf(c, rows)) && EventLog.Entries(LogOf(c, rows)) == Encoded(c, rows)
  {
    if rows != [] {
      LogEntries(c, rows[..|rows| - 1]);
      LogLast(LogOf(c, rows[..|rows| - 1]), c.enc(rows[|rows| - 1]));
      EncodedLast(c, rows);
    }
  }

  lemma LogLast(before: Bytes, line: Bytes)
    requires Complete(before) && line != [] && NEWLINE !in line
    ensures Complete(before + line + [NEWLINE])
            && EventLog.Entries(before + line + [NEWLINE]) == EventLog.Entries(before) + [line]
  {
    assert before + line + [NEWLINE] == before + (line + [NEWLINE]);
    EventLogProperties.EntriesAppend(before, line + [NEWLINE]);
    EventLogProperties.PieceEntries(line, 0);
  }

  lemma EncodedLast(c: Codec, rows: seq<Fields>)
    requires rows != []
    ensures Encoded(c, rows) == Encoded(c, rows[..|rows| - 1]) + [c.enc(rows[|rows| - 1])]
  {
  }

  /** Complete rows, then anything: the rows are read, and the rest decides. */
  lemma RowsThen(c: Codec, rows: seq<Fields>, more: seq<Bytes>)
    requires c.RoundTrip()
    ensures Parsed(c, Encoded(c, rows) + more)
         == match Parsed(c, more) case Raised => Raised case Rows(rs) => Rows(rows + rs)
  {
    ParsedSplit(c, Encoded(c, rows), more);
    assert RowsIn(c, Encoded(c, rows)) == rows;
  }

  /** The log cut anywhere in its last line: the revision counts once the whole of its JSON is there. */
  lemma CutAnywhere(c: Codec, rows: seq<Fields>, row: Fields, k: nat)
    requires c.OneLine() && c.RoundTrip() && c.CutUnreadable() && k <= |c.enc(row)|
    ensures LatestAttempts(c, LogOf(c, rows) + c.enc(row)[..k])
         == Rows(Latest(if k < |c.enc(row)| then rows else rows + [row]))
  {
    var part := c.enc(row)[..k];
    CutEntries(c, rows, row, k);
    var last := if k == 0 then [] else [part];
    RowsThen(c, rows, last);
    if k == |c.enc(row)| {
      assert part == c.enc(row);
      assert last[1..] == [];
    } else {
      assert rows + [] == rows;
    }
  }

  lemma CutEntries(c: Codec, rows: seq<Fields>, row: Fields, k: nat)
    requires c.OneLine() && k <= |c.enc(row)|
    ensures EventLog.Entries(LogOf(c, rows) + c.enc(row)[..k])
         == Encoded(c, rows) + if k == 0 then [] else [c.enc(row)[..k]]
  {
    LogEntries(c, rows);
    EventLogProperties.EntriesAppend(LogOf(c, rows), c.enc(row)[..k]);
    EventLogProperties.PieceEntries(c.enc(row), k);
  }

  lemma GluedEntries(c: Codec, rows: seq<Fields>, glued: Bytes, more: seq<Fields>)
    requires c.OneLine() && NEWLINE !in glued && glued != []
    ensures EventLog.Entries(LogOf(c, rows) + (glued + [NEWLINE] + LogOf(c, more)))
         == Encoded(c, rows) + ([glued] + Encoded(c, more))
  {
    LogEntries(c, rows);
    LogEntries(c, more);
    EventLogProperties.PieceEntries(glued, 0);
    EventLogProperties.EntriesAppend(glued + [NEWLINE], LogOf(c, more));
    EventLogProperties.EntriesAppend(LogOf(c, rows), glued + [NEWLINE] + LogOf(c, more));
  }

  /** Nothing repairs a torn line: the next update is glued to it, and is lost with it while it is the
      last; one more update, and the log cannot be read at all. This holds even if only the newline of
      the torn line is missing. */
  lemma TearMustBeLast(c: Codec, rows: seq<Fields>, torn: Fields, k: nat, next: Fields, more: seq<Fields>)
    requires c.OneLine() && c.RoundTrip() && c.GluedUnreadable() && 0 < k <= |c.enc(torn)|
    ensures LatestAttempts(c, LogOf(c, rows) + (c.enc(torn)[..k] + c.enc(next) + [NEWLINE] + LogOf(c, more)))
         == if more == [] then Rows(Latest(rows)) else Raised
  {
    var glued := c.enc(torn)[..k] + c.enc(next);
    GluedEntries(c, rows, glued, more);
    RowsThen(c, rows, [glued] + Encoded(c, more));
    assert rows + [] == rows;
  }

  // ---- Memory and the bytes of the log ----

  /** The same updates, each appended to the log's bytes. */
  function AppendAll(c: Codec, m: Memory, log: Bytes, events: seq<Event>): (Memory, Bytes)
    decreases events
  {
    if events == [] then (m, log)
    else
      match events[0]
      case Own(key, changes, ts) =>
        var later := Updated(m, key, changes);
        AppendAll(c, later, log + c.enc(Revision(later, key, ts)) + [NEWLINE], events[1..])
      case Foreign(row) => AppendAll(c, m, log + c.enc(row) + [NEWLINE], events[1..])
  }

  lemma LogSnoc(c: Codec, rows: seq<Fields>, row: Fields)
    ensures LogOf(c, rows + [row]) == LogOf(c, rows) + c.enc(row) + [NEWLINE]
  {
    assert (rows + [row])[..|rows|] == rows;
  }

  lemma {:induction false} BytesAreRows(c: Codec, m: Memory, rows: seq<Fields>, events: seq<Event>)
    ensures AppendAll(c, m, LogOf(c, rows), events) == (Run(m, rows, events).0, LogOf(c, Run(m, rows, events).1))
    decreases events
  {
    if events != [] {
      var s := After(m, rows, events[0]);
      match events[0] {
        case Own(key, changes, ts) => LogSnoc(c, rows, Revision(Updated(m, key, changes), key, ts));
        case Foreign(row) => LogSnoc(c, rows, row);
      }
      BytesAreRows(c, s.0, s.1, events[1..]);
    }
  }

  lemma {:induction false} RunSnoc(m: Memory, rows: seq<Fields>, events: seq<Event>, e: Event)
    ensures Run(m, rows, events + [e]) == After(Run(m, rows, events).0, Run(m, rows, events).1, e)
    decreases events
  {
    if events == [] {
      assert (events + [e])[1..] == [];
    } else {
      var s := After(m, rows, events[0]);
      assert (events + [e])[1..] == events[1..] + [e];
      RunSnoc(s.0, s.1, events[1..], e);
    }
  }

  /** What is read from the log's bytes mirrors an invocation's memory. */
  ghost predicate ReadsAs(c: Codec, log: Bytes, m: Memory) {
    LatestAttempts(c, log).Rows? && Mirrored(m, Mine(LatestAttempts(c, log).rows, m.id))
  }

  lemma {:induction false} RunKeepsId(m: Memory, rows: seq<Fields>, events: seq<Event>)
    ensures Run(m, rows, events).0.id == m.id
    decreases events
  {
    if events != [] {
      var s := After(m, rows, events[0]);
      RunKeepsId(s.0, s.1, events[1..]);
    }
  }

  /** Through any updates, by this invocation and others, and whatever byte the last update is cut at, the
      bytes of the log read back as what was in memory: after that update if the whole of its JSON landed,
      and before it otherwise. */
  lemma BytesMirrorMemory(c: Codec, m: Memory, rows: seq<Fields>, ids: set<string>, events: seq<Event>,
                          key: Key, changes: Fields, timestamp: string, k: nat)
    requires c.OneLine() && c.RoundTrip() && c.CutUnreadable()
    requires Ready(m, rows, ids) && FreshKeys(m, ids, events + [Own(key, changes, timestamp)])
    requires forall i :: 0 <= i <= |events| ==> Possible(m.id, (events + [Own(key, changes, timestamp)])[i])
    requires var later := Updated(AppendAll(c, m, LogOf(c, rows), events).0, key, changes);
             k <= |c.enc(Revision(later, key, timestamp))|
    ensures var before := AppendAll(c, m, LogOf(c, rows), events);
            var later := Updated(before.0, key, changes);
            var line := c.enc(Revision(later, key, timestamp));
            && ReadsAs(c, before.1 + line[..k], if k < |line| then before.0 else later)
            && ReadsAs(c, before.1 + line + [NEWLINE], later)
  {
    var last := Own(key, changes, timestamp);
    var all := events + [last];
    forall i | 0 <= i < |events|
      ensures Possible(m.id, events[i])
              && (events[i].Own? ==> Has(m, events[i].key) || AttemptId(m.id, events[i].key) !in ids)
    {
      assert events[i] == all[i];
    }
    var end := Run(m, rows, events);
    BytesAreRows(c, m, rows, events);
    RunSnoc(m, rows, events, last);
    RunKeepsId(m, rows, events);
    LogMirrorsMemory(m, rows, ids, events);
    LogMirrorsMemory(m, rows, ids, all);
    var row := Revision(Updated(end.0, key, changes), key, timestamp);
    CutAnywhere(c, end.1, row, k);
    LogSnoc(c, end.1, row);
    WholeLog(c, end.1 + [row]);
  }

  lemma WholeLog(c: Codec, rows: seq<Fields>)
    requires c.OneLine() && c.RoundTrip()
    ensures LatestAttempts(c, LogOf(c, rows)) == Rows(Latest(rows))
  {
    LogEntries(c, rows);
    RowsThen(c, rows, []);
    assert Encoded(c, rows) + [] == Encoded(c, rows) && rows + [] == rows;
  }

  // ---- What a revision says ----

  /** The attempt of this key before the update, if there was one. */
  function Known(attempts: seq<Attempt>, key: Key): Option<Fields> {
    if attempts == [] then None
    else if attempts[0].key == key then Some(attempts[0].record)
    else Known(attempts[1..], key)
  }

  lemma {:induction false} TouchedRecord(id: string, attempts: seq<Attempt>, key: Key, changes: Fields)
    ensures RecordOf(Touched(id, attempts, key, changes), key) ==
            match Known(attempts, key)
            case Some(record) => record + changes
            case None =>
              map[RowAttemptId := id + ":" + key.ts + ":" + UniqueIds.Decimal(key.idx), UsageUnavailable := "true"]
              + changes
  {
    if attempts != [] && attempts[0].key != key { TouchedRecord(id, attempts[1..], key, changes); }
  }

  /** A field of the row an update appends: the time; else what the update changes; else what the attempt had, or,
      for a new one, its id and that its usage is unavailable; else the invocation's metadata; else its id. */
  ghost predicate FieldTold(m: Memory, key: Key, changes: Fields, timestamp: string, name: Name,
                            value: Option<string>)
  {
    if name == Timestamp then value == Some(timestamp)
    else if name in changes then value == Some(changes[name])
    else
      match Known(m.attempts, key)
      case Some(record) => if name in record then value == Some(record[name]) else FromInvocation(m, name, value)
      case None =>
        if name == RowAttemptId then value == Some(m.id + ":" + key.ts + ":" + UniqueIds.Decimal(key.idx))
        else if name == UsageUnavailable then value == Some("true")
        else FromInvocation(m, name, value)
  }

  ghost predicate FromInvocation(m: Memory, name: Name, value: Option<string>) {
    if name in m.metadata then value == Some(m.metadata[name])
    else if name == RowInvocationId then value == Some(m.id)
    else value.None?
  }

  lemma RevisionTold(m: Memory, key: Key, changes: Fields, timestamp: string, name: Name)
    ensures var row := Revision(Updated(m, key, changes), key, timestamp);
            FieldTold(m, key, changes, timestamp, name, if name in row then Some(row[name]) else None)
  {
    TouchedRecord(m.id, m.attempts, key, changes);
  }
}
