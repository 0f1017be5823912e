/** Event payloads whose long strings are moved to blob files, and read back for display. */
module PayloadSpill {
  import opened Wrappers

  const MAX_INLINE_BYTES := 2048
  const REF := "$ref"

  /** A JSON value; numbers, booleans and null are kept as their text. */
  datatype Json = Atom(text: string) | Str(s: string) | List(items: seq<Json>) | Obj(fields: seq<Field>)

  datatype Field = Field(key: string, value: Json)

  // ---- Names ----

  function CharBytes(c: char): nat {
    if c as int < 0x80 then 1 else if c as int < 0x800 then 2 else if c as int < 0x10000 then 3 else 4
  }

  function Bytes(s: string): nat {
    if s == "" then 0 else CharBytes(s[0]) + Bytes(s[1..])
  }

  predicate Long(s: string) { Bytes(s) > MAX_INLINE_BYTES }

  function Safe(alnum: char -> bool, c: char): char {
    if alnum(c) || c == '-' || c == '_' || c == '.' then c else '_'
  }

  function SafeFilename(alnum: char -> bool, part: string): string {
    var safe := seq(|part|, i requires 0 <= i < |part| => Safe(alnum, part[i]));
    if |safe| <= 120 then safe else safe[..120]
  }

  /** What an event gives its blobs' names, and the digest of a string in ten hexadecimal digits. */
  datatype Naming = Naming(agent: string, kind: string, callId: string, alnum: char -> bool, digest: string -> string) {
    ghost predicate Valid() {
      forall s :: |digest(s)| == 10 && forall i :: 0 <= i < 10 ==> digest(s)[i] in "0123456789abcdef"
    }

    function Ref(s: string): string {
      "events_blobs/" + SafeFilename(alnum, agent) + "-" + SafeFilename(alnum, kind) + "-" +
      SafeFilename(alnum, callId) + "-" + digest(s) + ".txt"
    }
  }

  // ---- Spilling ----

  function Spilled(n: Naming, v: Json): Json {
    match v
    case Atom(_) => v
    case Str(s) => if Long(s) then Obj([Field(REF, Str(n.Ref(s)))]) else v
    case List(items) => List(SpilledItems(n, items))
    case Obj(fields) => Obj(SpilledFields(n, fields))
  }

  function SpilledItems(n: Naming, items: seq<Json>): (r: seq<Json>)
    ensures |r| == |items|
  {
    if items == [] then [] else [Spilled(n, items[0])] + SpilledItems(n, items[1..])
  }

  function SpilledFields(n: Naming, fields: seq<Field>): (r: seq<Field>)
    ensures |r| == |fields| && forall i :: 0 <= i < |r| ==> r[i].key == fields[i].key
  {
    if fields == [] then []
    else [Field(fields[0].key, Spilled(n, fields[0].value))] + SpilledFields(n, fields[1..])
  }

  /** The strings moved to files, in the order written. */
  function LongStrings(v: Json): seq<string> {
    match v
    case Atom(_) => []
    case Str(s) => if Long(s) then [s] else []
    case List(items) => ItemStrings(items)
    case Obj(fields) => FieldStrings(fields)
  }

  function ItemStrings(items: seq<Json>): seq<string> {
    if items == [] then [] else LongStrings(items[0]) + ItemStrings(items[1..])
  }

  function FieldStrings(fields: seq<Field>): seq<string> {
    if fields == [] then [] else LongStrings(fields[0].value) + FieldStrings(fields[1..])
  }

  /** Files by the path they have, as text written. */
  type Files = map<string, string>

  function Written(files: Files, n: Naming, strings: seq<string>): Files
    decreases strings
  {
    if strings == [] then files else Written(files[n.Ref(strings[0]) := strings[0]], n, strings[1..])
  }

  lemma {:induction false} WrittenConcat(files: Files, n: Naming, a: seq<string>, b: seq<string>)
    ensures Written(files, n, a + b) == Written(Written(files, n, a), n, b)
    decreases a
  {
    if a == [] {
      assert a + b == b;
    } else {
      assert (a + b)[1..] == a[1..] + b;
      WrittenConcat(files[n.Ref(a[0]) := a[0]], n, a[1..], b);
    }
  }

  class Sink {
    var files: Files

    method SpillString(n: Naming, s: string) returns (ref: string)
      modifies this
      ensures ref == n.Ref(s) && files == Written(old(files), n, [s])
    {
      ref := n.Ref(s);
      files := files[ref := s];
      assert [s][1..] == [];
    }

    method SpillValue(n: Naming, v: Json) returns (r: Json)
      modifies this
      ensures r == Spilled(n, v) && files == Written(old(files), n, LongStrings(v))
      decreases v
    {
      match v
      case Atom(_) => r := v;
      case Str(s) =>
        if Long(s) {
          var ref := SpillString(n, s);
          r := Obj([Field(REF, Str(ref))]);
        } else {
          r := v;
        }
      case List(items) =>
        var spilled := SpillItems(n, items);
        r := List(spilled);
      case Obj(fields) =>
        var spilled := SpillFields(n, fields);
        r := Obj(spilled);
    }

    method SpillItems(n: Naming, items: seq<Json>) returns (r: seq<Json>)
      modifies this
      ensures r == SpilledItems(n, items) && files == Written(old(files), n, ItemStrings(items))
      decreases items
    {
      if items == [] { return []; }
      var first := SpillValue(n, items[0]);
      WrittenConcat(old(files), n, LongStrings(items[0]), ItemStrings(items[1..]));
      var rest := SpillItems(n, items[1..]);
      r := [first] + rest;
    }

    method SpillFields(n: Naming, fields: seq<Field>) returns (r: seq<Field>)
      modifies this
      ensures r == SpilledFields(n, fields) && files == Written(old(files), n, FieldStrings(fields))
      decreases fields
    {
      if fields == [] { return []; }
      var first := SpillValue(n, fields[0].value);
      WrittenConcat(old(files), n, LongStrings(fields[0].value), FieldStrings(fields[1..]));
      var rest := SpillFields(n, fields[1..]);
      r := [Field(fields[0].key, first)] + rest;
    }

    /** Only a payload that is an object is looked into. */
    method SpillPayload(n: Naming, payload: Json) returns (r: Json)
      modifies this
      ensures r == if payload.Obj? then Spilled(n, payload) else payload
      ensures files == if payload.Obj? then Written(old(files), n, LongStrings(payload)) else old(files)
    {
      if payload.Obj? { r := SpillValue(n, payload); } else { r := payload; }
    }
  }

  // ---- Reading back ----

  /** A text file is read with every line end turned into a newline. */
  function Normal(s: string): string {
    if s == "" then ""
    else if s[0] == '\r' then ['\n'] + Normal(if |s| > 1 && s[1] == '\n' then s[2..] else s[1..])
    else [s[0]] + Normal(s[1..])
  }

  /** A run's directory: its files, and where a reference leads, if anywhere inside it. */
  datatype Disk = Disk(files: Files, resolve: string -> Option<string>) {
    function Text(ref: string): Option<string> {
      var path := resolve(ref);
      if path.Some? && path.value in files then Some(Normal(files[path.value])) else None
    }
  }

  /** An object of the one key `$ref` with a string is taken for a reference, whoever wrote it. */
  function Resolved(d: Disk, v: Json): Json {
    match v
    case Atom(_) => v
    case Str(_) => v
    case List(items) => List(ResolvedItems(d, items))
    case Obj(fields) =>
      if |fields| == 1 && fields[0].key == REF && fields[0].value.Str? then
        var text := d.Text(fields[0].value.s);
        if text.Some? then Str(text.value) else v
      else Obj(ResolvedFields(d, fields))
  }

  function ResolvedItems(d: Disk, items: seq<Json>): (r: seq<Json>)
    ensures |r| == |items|
  {
    if items == [] then [] else [Resolved(d, items[0])] + ResolvedItems(d, items[1..])
  }

  function ResolvedFields(d: Disk, fields: seq<Field>): (r: seq<Field>)
    ensures |r| == |fields| && forall i :: 0 <= i < |r| ==> r[i].key == fields[i].key
  {
    if fields == [] then []
    else [Field(fields[0].key, Resolved(d, fields[0].value))] + ResolvedFields(d, fields[1..])
  }
}
