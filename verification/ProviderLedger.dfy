/** The provider accounting ledger: attempts held in memory, and a log of their revisions that only grows.
    How a row is written as JSON is a parameter. */
module ProviderLedger {
  import opened Wrappers
  import opened EventSnapshot
  import EventLog
  import UniqueIds

  datatype Name = RowAttemptId | RowInvocationId | Timestamp | RunId | Agent | CallId | UsageUnavailable
      | Other(name: string)

  /** A row's fields, each with the JSON text of its value. */
  type Fields = map<Name, string>

  datatype Key = Key(ts: string, idx: nat)

  datatype Attempt = Attempt(key: Key, record: Fields)

  function AttemptId(id: string, key: Key): string {
    id + ":" + key.ts + ":" + UniqueIds.Decimal(key.idx)
  }

  function Get(row: Fields, name: Name): string {
    if name in row then row[name] else ""
  }

  function IdOf(row: Fields): string { Get(row, RowAttemptId) }

  // ---- One invocation's attempts in memory, in the order first seen ----

  datatype Memory = Memory(id: string, metadata: Fields, attempts: seq<Attempt>)

  function NewRecord(id: string, key: Key): Fields {
    map[RowAttemptId := AttemptId(id, key), UsageUnavailable := "true"]
  }

  function Touched(id: string, attempts: seq<Attempt>, key: Key, changes: Fields): seq<Attempt> {
    if attempts == [] then [Attempt(key, NewRecord(id, key) + changes)]
    else if attempts[0].key == key then [attempts[0].(record := attempts[0].record + changes)] + attempts[1..]
    else [attempts[0]] + Touched(id, attempts[1..], key, changes)
  }

  /** The record the last update of `key` left. */
  function RecordOf(attempts: seq<Attempt>, key: Key): Fields {
    if attempts == [] then map[]
    else if attempts[0].key == key then attempts[0].record
    else RecordOf(attempts[1..], key)
  }

  function RowOf(id: string, metadata: Fields, record: Fields, timestamp: string): Fields {
    map[RowInvocationId := id] + metadata + record + map[Timestamp := timestamp]
  }

  // ---- The log ----

  /** Rows as text. A row that is cut short is not JSON, nor is one glued to what a crash left before it. */
  datatype Codec = Codec(enc: Fields -> Bytes, dec: Bytes -> Option<Fields>) {
    ghost predicate OneLine() { forall r :: enc(r) != [] && NEWLINE !in enc(r) }

    ghost predicate RoundTrip() { forall r :: dec(enc(r)) == Some(r) }

    ghost predicate CutUnreadable() { forall r, k: nat :: k < |enc(r)| ==> dec(enc(r)[..k]).None? }

    ghost predicate GluedUnreadable() { forall r, s, k: nat :: 0 < k <= |enc(r)| ==> dec(enc(r)[..k] + enc(s)).None? }
  }

  function LogOf(c: Codec, rows: seq<Fields>): Bytes {
    if rows == [] then [] else LogOf(c, rows[..|rows| - 1]) + c.enc(rows[|rows| - 1]) + [NEWLINE]
  }

  /** Rows by attempt, in the order the attempts were first seen. */
  function Upserted(rows: seq<Fields>, row: Fields): seq<Fields> {
    if rows == [] then [row]
    else if IdOf(rows[0]) == IdOf(row) then [row] + rows[1..]
    else [rows[0]] + Upserted(rows[1..], row)
  }

  function Latest(rows: seq<Fields>): seq<Fields> {
    if rows == [] then [] else Upserted(Latest(rows[..|rows| - 1]), rows[|rows| - 1])
  }

  datatype Read = Rows(rows: seq<Fields>) | Raised

  /** Only the last line may fail to decode. */
  function Parsed(c: Codec, entries: seq<Bytes>): Read {
    if entries == [] then Rows([])
    else
      match c.dec(entries[0])
      case None => if |entries| == 1 then Rows([]) else Raised
      case Some(row) => match Parsed(c, entries[1..]) case Raised => Raised case Rows(rs) => Rows([row] + rs)
  }

  function LatestAttempts(c: Codec, log: Bytes): Read {
    match Parsed(c, EventLog.Entries(log)) case Raised => Raised case Rows(rs) => Rows(Latest(rs))
  }

  lemma {:induction false} ParsedSplit(c: Codec, entries: seq<Bytes>, more: seq<Bytes>)
    requires forall i :: 0 <= i < |entries| ==> c.dec(entries[i]).Some?
    ensures Parsed(c, entries + more)
         == match Parsed(c, more) case Raised => Raised
                                  case Rows(rs) => Rows(RowsIn(c, entries) + rs)
  {
    if entries == [] {
      assert entries + more == more;
    } else {
      assert (entries + more)[1..] == entries[1..] + more;
      ParsedSplit(c, entries[1..], more);
    }
  }

  function RowsIn(c: Codec, entries: seq<Bytes>): seq<Fields>
    requires forall i :: 0 <= i < |entries| ==> c.dec(entries[i]).Some?
  {
    seq(|entries|, i requires 0 <= i < |entries| => c.dec(entries[i]).value)
  }

  lemma {:induction false} UpsertedAt(rows: seq<Fields>, row: Fields, i: nat)
    requires i <= |rows| && forall j :: 0 <= j < i ==> IdOf(rows[j]) != IdOf(row)
    requires i < |rows| ==> IdOf(rows[i]) == IdOf(row)
    ensures Upserted(rows, row) == if i < |rows| then rows[i := row] else rows + [row]
  {
    if i > 0 { UpsertedAt(rows[1..], row, i - 1); }
  }

  method Upsert(rows: seq<Fields>, row: Fields) returns (r: seq<Fields>)
    ensures r == Upserted(rows, row)
  {
    var i := 0;
    while i < |rows| && IdOf(rows[i]) != IdOf(row)
      invariant i <= |rows| && forall j :: 0 <= j < i ==> IdOf(rows[j]) != IdOf(row)
    {
      i := i + 1;
    }
    UpsertedAt(rows, row, i);
    if i < |rows| { r := rows[i := row]; } else { r := rows + [row]; }
  }

  /** The last durable revision of each attempt, or an exception. */
  method ReadLatest(c: Codec, log: Bytes) returns (r: Read)
    ensures r == LatestAttempts(c, log)
  {
    var attempts: seq<Fields> := [];
    var lines := EventLog.Entries(log);
    var i := 0;
    while i < |lines|
      invariant i <= |lines|
      invariant forall j :: 0 <= j < i ==> c.dec(lines[j]).Some?
      invariant attempts == Latest(RowsIn(c, lines[..i]))
    {
      ParsedSplit(c, lines[..i], lines[i..]);
      assert lines[..i] + lines[i..] == lines;
      match c.dec(lines[i]) {
        case None =>
          assert RowsIn(c, lines[..i]) + [] == RowsIn(c, lines[..i]);
          if i == |lines| - 1 { return Rows(attempts); }
          return Raised;
        case Some(row) =>
          attempts := Upsert(attempts, row);
          assert RowsIn(c, lines[..i + 1])[..i] == RowsIn(c, lines[..i]);
      }
      i := i + 1;
    }
    ParsedSplit(c, lines, []);
    assert lines[..i] == lines && lines + [] == lines && RowsIn(c, lines) + [] == RowsIn(c, lines);
    return Rows(attempts);
  }

  // ---- The object ----

  class Trace {
    const id: string
    const metadata: Fields
    var attempts: seq<Attempt>

    constructor (id: string, metadata: Fields)
      ensures this.id == id && this.metadata == metadata && attempts == []
    {
      this.id, this.metadata, attempts := id, metadata, [];
    }

    ghost function Value(): Memory reads this { Memory(id, metadata, attempts) }

    /** The attempt is made or changed, and its new revision appended to the log. */
    method Update(c: Codec, log: Bytes, key: Key, changes: Fields, timestamp: string) returns (grown: Bytes)
      modifies this`attempts
      ensures Value() == Updated(old(Value()), key, changes)
      ensures grown == log + c.enc(Revision(Value(), key, timestamp)) + [NEWLINE]
    {
      var i := 0;
      while i < |attempts| && attempts[i].key != key
        invariant i <= |attempts| && forall j :: 0 <= j < i ==> attempts[j].key != key
      {
        i := i + 1;
      }
      TouchedAt(id, attempts, key, changes, i);
      if i == |attempts| { attempts := attempts + [Attempt(key, NewRecord(id, key))]; }
      var record := attempts[i].record + changes;
      attempts := attempts[i := Attempt(key, record)];
      RecordAt(attempts, key, i);
      grown := log + c.enc(RowOf(id, metadata, record, timestamp)) + [NEWLINE];
    }
  }

  /** An update changes the attempt of its key where it is, or adds it at the end. */
  lemma {:induction false} TouchedAt(id: string, attempts: seq<Attempt>, key: Key, changes: Fields, i: nat)
    requires i <= |attempts| && forall j :: 0 <= j < i ==> attempts[j].key != key
    requires i < |attempts| ==> attempts[i].key == key
    ensures Touched(id, attempts, key, changes) ==
      if i < |attempts| then attempts[i := Attempt(key, attempts[i].record + changes)]
      else attempts + [Attempt(key, NewRecord(id, key) + changes)]
  {
    if i > 0 {
      TouchedAt(id, attempts[1..], key, changes, i - 1);
    }
  }

  lemma {:induction false} RecordAt(attempts: seq<Attempt>, key: Key, i: nat)
    requires i < |attempts| && attempts[i].key == key && forall j :: 0 <= j < i ==> attempts[j].key != key
    ensures RecordOf(attempts, key) == attempts[i].record
  {
    if i > 0 { RecordAt(attempts[1..], key, i - 1); }
  }

  function Updated(m: Memory, key: Key, changes: Fields): Memory {
    m.(attempts := Touched(m.id, m.attempts, key, changes))
  }

  function Revision(m: Memory, key: Key, timestamp: string): Fields {
    RowOf(m.id, m.metadata, RecordOf(m.attempts, key), timestamp)
  }

  /** The rows of one invocation, among those of all that share the log. */
  function Mine(rows: seq<Fields>, id: string): seq<Fields> {
    if rows == [] then []
    else (if Get(rows[0], RowInvocationId) == id then [rows[0]] else []) + Mine(rows[1..], id)
  }

  const KEPT := {RunId, Agent, CallId}

  function Restored(id: string, mine: seq<Fields>): Memory
    requires mine != []
  {
    Memory(id, map name | name in KEPT && name in mine[0] :: mine[0][name],
           seq(|mine|, i requires 0 <= i < |mine| => Attempt(Key(UniqueIds.Decimal(i), 0), mine[i])))
  }

  method Restore(rows: seq<Fields>, id: string) returns (t: Trace?)
    ensures t == null <==> Mine(rows, id) == []
    ensures t != null ==> fresh(t) && t.Value() == Restored(id, Mine(rows, id))
  {
    var mine := Mine(rows, id);
    if mine == [] { return null; }
    t := new Trace(id, map name | name in KEPT && name in mine[0] :: mine[0][name]);
    var i := 0;
    while i < |mine|
      invariant i <= |mine| && fresh(t) && t.id == id && t.metadata == Restored(id, mine).metadata
      invariant t.attempts == Restored(id, mine).attempts[..i]
    {
      t.attempts := t.attempts + [Attempt(Key(UniqueIds.Decimal(i), 0), mine[i])];
      i := i + 1;
    }
  }
}
