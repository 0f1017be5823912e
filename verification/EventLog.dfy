/** The append-only event log under torn writes: the newline repair before each append, and what a
    reader gets back. */
module EventLog {
  import opened Wrappers
  import opened EventSnapshot

  type Record = string

  /** One line read back: bytes that are no UTF-8, text that is no JSON object, or a record. */
  datatype Parsed = BadUtf8 | NotRecord | Record(rec: Record)

  /** What is assumed of the JSON text of a record: no line break inside, read back as written, and no
      proper beginning of it reads as a record (an object's text closes with its last byte). */
  ghost predicate Faithful(enc: Record -> Bytes, dec: Bytes -> Parsed, r: Record) {
    && enc(r) != [] && NEWLINE !in enc(r)
    && dec(enc(r)) == Record(r)
    && forall k: nat :: k < |enc(r)| ==> !dec(enc(r)[..k]).Record?
  }

  // ---- Writing ----

  /** The newline put before an append when the file does not end with one. */
  function Repair(bytes: Bytes): Bytes {
    if bytes != [] && bytes[|bytes| - 1] != NEWLINE then [NEWLINE] else []
  }

  /** What one append means to write after `bytes`. */
  function Data(bytes: Bytes, line: Bytes): Bytes {
    Repair(bytes) + line + [NEWLINE]
  }

  /** An append of which only the first `written` bytes reach the disk. */
  function Appended(bytes: Bytes, line: Bytes, written: nat): Bytes {
    bytes + if written < |Data(bytes, line)| then Data(bytes, line)[..written] else Data(bytes, line)
  }

  class Log {
    var bytes: Bytes

    /** `written` says how many bytes of this append the crash, if any, lets through. */
    method Append(line: Bytes, written: nat)
      modifies this
      ensures bytes == Appended(old(bytes), line, written)
    {
      var left := written;
      if |bytes| != 0 {
        var last := bytes[|bytes| - 1];
        if last != NEWLINE {
          if left == 0 { return; }
          bytes, left := bytes + [NEWLINE], left - 1;
        }
      }
      var data := line + [NEWLINE];
      bytes := bytes + if left < |data| then data[..left] else data;
      assert Data(old(bytes), line) == Repair(old(bytes)) + data;
    }
  }

  // ---- Reading ----

  function Chomp(line: Bytes): Bytes {
    if line != [] && line[|line| - 1] == NEWLINE then line[..|line| - 1] else line
  }

  function Chomped(lines: seq<Bytes>): seq<Bytes> {
    seq(|lines|, i requires 0 <= i < |lines| => Chomp(lines[i]))
  }

  /** The lines of a file without their newlines, the unterminated last one included. */
  function Entries(bytes: Bytes): seq<Bytes> {
    Chomped(Lines(bytes)) + if Tail(bytes) == [] then [] else [Tail(bytes)]
  }

  function Records(dec: Bytes -> Parsed, entries: seq<Bytes>): seq<Record> {
    if entries == [] then []
    else
      Records(dec, entries[..|entries| - 1]) +
        (match dec(entries[|entries| - 1]) case Record(r) => [r] case _ => [])
  }

  /** Reading the file as one UTF-8 text fails as a whole when any of it is not UTF-8. */
  function ReadText(dec: Bytes -> Parsed, bytes: Bytes): Option<seq<Record>> {
    if exists i :: 0 <= i < |Entries(bytes)| && dec(Entries(bytes)[i]).BadUtf8? then None
    else Some(Records(dec, Entries(bytes)))
  }

  /** Reading line by line as bytes skips only the line that does not decode. */
  function ReadLines(dec: Bytes -> Parsed, bytes: Bytes): seq<Record> {
    Records(dec, Entries(bytes))
  }

  // ---- A history of appends ----

  datatype Write = Write(rec: Record, written: nat)

  function Replay(enc: Record -> Bytes, start: Bytes, history: seq<Write>): Bytes {
    if history == [] then start
    else
      var before := Replay(enc, start, history[..|history| - 1]);
      var last := history[|history| - 1];
      Appended(before, enc(last.rec), last.written)
  }

  /** How many bytes of the record itself reached the disk. */
  function Landed(before: Bytes, line: Bytes, written: nat): (k: nat)
    ensures k <= |line|
  {
    var r := |Repair(before)|;
    if written <= r then 0 else if written - r < |line| then written - r else |line|
  }

  function LastLanded(enc: Record -> Bytes, start: Bytes, history: seq<Write>): (k: nat)
    requires history != []
    ensures k <= |enc(history[|history| - 1].rec)|
  {
    var last := history[|history| - 1];
    Landed(Replay(enc, start, history[..|history| - 1]), enc(last.rec), last.written)
  }

  /** The piece of each record that is on disk, where there is any. */
  function Pieces(enc: Record -> Bytes, start: Bytes, history: seq<Write>): seq<Bytes> {
    if history == [] then []
    else
      var k := LastLanded(enc, start, history);
      Pieces(enc, start, history[..|history| - 1]) + if k == 0 then [] else [enc(history[|history| - 1].rec)[..k]]
  }

  /** The records of which every byte reached the disk, in order. */
  function Survivors(enc: Record -> Bytes, start: Bytes, history: seq<Write>): seq<Record> {
    if history == [] then []
    else
      var last := history[|history| - 1];
      Survivors(enc, start, history[..|history| - 1]) +
        if LastLanded(enc, start, history) == |enc(last.rec)| then [last.rec] else []
  }

  ghost predicate AllFaithful(enc: Record -> Bytes, dec: Bytes -> Parsed, history: seq<Write>) {
    forall i :: 0 <= i < |history| ==> Faithful(enc, dec, history[i].rec)
  }
}
