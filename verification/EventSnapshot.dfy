/** The incremental reader of a problem's event log. Decoding one line is a parameter: the reader is
    right for every decoder. */
module EventSnapshot {
  import opened Wrappers

  newtype byte = x: int | 0 <= x < 256
  type Bytes = seq<byte>

  const NEWLINE: byte := 10
  const ANCHOR_BYTES: nat := 256

  /** A finished helper call, as its event's payload tells it. */
  datatype Helper = Helper(error: bool, deadline: bool, degraded: bool)

  /** What the reader keeps of one event: its usage record, its billed call, its activity, its helper. */
  datatype Event = Event(record: Option<string>, modelCall: Option<string>, activity: string, helper: Option<Helper>)

  datatype Decoded = Invalid | NotObject | Decoded(event: Event)

  type Decoder = Bytes -> Decoded

  datatype Warning = BadLine(line: nat) | NoFile | ReadFailed

  /** What a snapshot has gathered, up to `offset`. */
  datatype State = State(
    offset: nat, lineNumber: nat, records: seq<string>, modelCalls: seq<string>,
    finished: nat, completed: nat, timedOut: nat, degraded: nat, lastActivity: Option<string>,
    warnings: seq<Warning>)

  const EMPTY := State(0, 0, [], [], 0, 0, 0, 0, None, [])

  // ---- One line ----

  predicate Space(b: byte) {
    b == 32 || 9 <= b <= 13
  }

  predicate Blank(line: Bytes) {
    forall i :: 0 <= i < |line| ==> Space(line[i])
  }

  function Add(xs: seq<string>, x: Option<string>): seq<string> {
    if x.Some? then xs + [x.value] else xs
  }

  function Count(b: bool): nat {
    if b then 1 else 0
  }

  function WithEvent(s: State, e: Event): State {
    var t := s.(records := Add(s.records, e.record), modelCalls := Add(s.modelCalls, e.modelCall),
                lastActivity := Some(e.activity));
    if e.helper.None? then t
    else
      var h := e.helper.value;
      t.(finished := t.finished + 1, completed := t.completed + Count(!h.error),
         timedOut := t.timedOut + Count(h.deadline), degraded := t.degraded + Count(h.degraded))
  }

  function Consumed(s: State, decode: Decoder, line: Bytes, provisional: bool): State {
    if Blank(line) then s
    else
      match decode(line)
      case Invalid => if provisional then s else s.(warnings := s.warnings + [BadLine(s.lineNumber)])
      case NotObject => s
      case Decoded(e) => WithEvent(s, e)
  }

  /** A complete line is counted, consumed and passed by. */
  function Next(s: State, decode: Decoder, line: Bytes): State {
    Consumed(s.(lineNumber := s.lineNumber + 1), decode, line, false).(offset := s.offset + |line|)
  }

  function Fold(s: State, decode: Decoder, lines: seq<Bytes>): State
    decreases lines
  {
    if lines == [] then s else Fold(Next(s, decode, lines[0]), decode, lines[1..])
  }

  // ---- Lines of a file ----

  /** Where the line that starts at `pos` ends: after its newline, or with the file. */
  function LineEnd(bytes: Bytes, pos: nat): (end: nat)
    requires pos < |bytes|
    ensures pos < end <= |bytes|
    ensures forall i :: pos <= i < end - 1 ==> bytes[i] != NEWLINE
    ensures bytes[end - 1] == NEWLINE || end == |bytes|
    decreases |bytes| - pos
  {
    if bytes[pos] == NEWLINE || pos + 1 == |bytes| then pos + 1 else LineEnd(bytes, pos + 1)
  }

  /** The complete lines, each with its newline. */
  function Lines(bytes: Bytes): seq<Bytes> {
    if bytes == [] then []
    else
      var end := LineEnd(bytes, 0);
      if bytes[end - 1] == NEWLINE then [bytes[..end]] + Lines(bytes[end..]) else []
  }

  /** What follows the last newline. */
  function Tail(bytes: Bytes): Bytes {
    if bytes == [] then []
    else
      var end := LineEnd(bytes, 0);
      if bytes[end - 1] == NEWLINE then Tail(bytes[end..]) else bytes
  }

  predicate Complete(bytes: Bytes) {
    bytes == [] || bytes[|bytes| - 1] == NEWLINE
  }

  function Join(lines: seq<Bytes>): Bytes {
    if lines == [] then [] else lines[0] + Join(lines[1..])
  }

  lemma CompleteAppend(a: Bytes, b: Bytes)
    requires Complete(a) && Complete(b)
    ensures Complete(a + b)
  {
    if b == [] { assert a + b == a; }
  }

  /** One line on: the complete lines and the tail of what is left at `pos`. */
  lemma NextLine(bytes: Bytes, pos: nat, line: Bytes)
    requires pos < |bytes| && line == bytes[pos..][..LineEnd(bytes[pos..], 0)]
    ensures line != [] && pos + |line| <= |bytes|
    ensures line[|line| - 1] == NEWLINE ==>
              && Lines(bytes[pos..]) == [line] + Lines(bytes[pos + |line|..])
              && Tail(bytes[pos..]) == Tail(bytes[pos + |line|..])
    ensures line[|line| - 1] != NEWLINE ==> Lines(bytes[pos..]) == [] && Tail(bytes[pos..]) == line
  {
    var here := bytes[pos..];
    assert here[|line|..] == bytes[pos + |line|..];
  }

  lemma JoinCons(line: Bytes, lines: seq<Bytes>)
    ensures Join([line] + lines) == line + Join(lines)
  {
    assert ([line] + lines)[1..] == lines;
  }

  lemma Regroup(a: Bytes, b: Bytes, c: Bytes)
    ensures a + (b + c) == a + b + c
  {
  }

  /** A file is its complete lines and then its tail. */
  lemma {:induction false} FileSplits(bytes: Bytes)
    ensures bytes == Join(Lines(bytes)) + Tail(bytes)
  {
    if bytes != [] {
      var end := LineEnd(bytes, 0);
      if bytes[end - 1] == NEWLINE {
        var first, rest := bytes[..end], bytes[end..];
        FileSplits(rest);
        JoinCons(first, Lines(rest));
        assert bytes == first + rest;
        Regroup(first, Join(Lines(rest)), Tail(rest));
      }
    }
  }

  lemma {:induction false} JoinComplete(bytes: Bytes)
    ensures Complete(Join(Lines(bytes)))
  {
    if bytes != [] {
      var end := LineEnd(bytes, 0);
      if bytes[end - 1] == NEWLINE {
        JoinComplete(bytes[end..]);
        assert Lines(bytes)[1..] == Lines(bytes[end..]);
        CompleteAppend(bytes[..end], Join(Lines(bytes[end..])));
      }
    }
  }

  lemma {:induction false} TailOpen(bytes: Bytes)
    ensures NEWLINE !in Tail(bytes)
  {
    if bytes != [] {
      var end := LineEnd(bytes, 0);
      if bytes[end - 1] == NEWLINE { TailOpen(bytes[end..]); }
    }
  }

  lemma LineEndPrefix(a: Bytes, b: Bytes)
    requires a != [] && a[LineEnd(a, 0) - 1] == NEWLINE
    ensures LineEnd(a + b, 0) == LineEnd(a, 0)
  {
    var e, f := LineEnd(a, 0), LineEnd(a + b, 0);
    assert forall i :: 0 <= i < |a| ==> (a + b)[i] == a[i];
    assert (a + b)[e - 1] == NEWLINE;
    assert f >= e && f <= e;
  }

  /** Bytes appended after complete lines leave those lines as they were. */
  lemma {:induction false} LinesAppend(a: Bytes, b: Bytes)
    requires Complete(a)
    ensures Lines(a + b) == Lines(a) + Lines(b) && Tail(a + b) == Tail(b)
  {
    if a == [] {
      assert a + b == b;
    } else {
      var e := LineEnd(a, 0);
      LineEndPrefix(a, b);
      assert (a + b)[e..] == a[e..] + b && (a + b)[..e] == a[..e] && (a + b)[e - 1] == a[e - 1];
      LinesAppend(a[e..], b);
    }
  }

  lemma {:induction false} FoldAppend(s: State, decode: Decoder, a: seq<Bytes>, b: seq<Bytes>)
    ensures Fold(s, decode, a + b) == Fold(Fold(s, decode, a), decode, b)
    decreases a
  {
    if a == [] {
      assert a + b == b;
    } else {
      assert (a + b)[0] == a[0] && (a + b)[1..] == a[1..] + b;
      FoldAppend(Next(s, decode, a[0]), decode, a[1..], b);
    }
  }

  lemma {:induction false} FoldOffset(s: State, decode: Decoder, lines: seq<Bytes>)
    ensures Fold(s, decode, lines).offset == s.offset + |Join(lines)|
    ensures Fold(s, decode, lines).lineNumber == s.lineNumber + |lines|
    decreases lines
  {
    if lines != [] { FoldOffset(Next(s, decode, lines[0]), decode, lines[1..]); }
  }

  // ---- Reading from scratch ----

  function Summary(decode: Decoder, bytes: Bytes): State {
    Fold(EMPTY, decode, Lines(bytes))
  }

  function WithTail(s: State, decode: Decoder, tail: Bytes): State {
    if tail == [] then s else Consumed(s, decode, tail, true)
  }

  /** What parsing the whole file at once shows. */
  function FromScratch(decode: Decoder, bytes: Bytes): State {
    WithTail(Summary(decode, bytes), decode, Tail(bytes))
  }

  // ---- Polls ----

  datatype File = File(identity: int, bytes: Bytes, mtime: int)

  /** How an attempt to read the log goes; a read error may strike after some lines. */
  datatype Read = Missing | OpenFailed | Opened(file: File, errorAfter: Option<nat>)

  datatype Cache = Cache(identity: Option<int>, mtime: int, anchor: Bytes, state: State)

  const NEW_CACHE := Cache(None, 0, [], EMPTY)

  function Slice(bytes: Bytes, from: nat, to: nat): Bytes {
    if from <= to <= |bytes| then bytes[from..to] else if from <= |bytes| < to then bytes[from..] else []
  }

  function From(offset: nat, back: nat): nat {
    if offset < back then 0 else offset - back
  }

  /** The file is not the one the cache has read, or no longer holds what the cache has read. */
  predicate Resets(c: Cache, f: File) {
    var from := From(c.state.offset, |c.anchor|);
    || c.identity != Some(f.identity) || |f.bytes| < c.state.offset
    || Slice(f.bytes, from, from + |c.anchor|) != c.anchor
    || (|f.bytes| == c.state.offset && f.mtime != c.mtime)
  }

  function Base(c: Cache, f: File): Cache {
    if Resets(c, f) then Cache(Some(f.identity), 0, [], EMPTY) else c
  }

  /** The lines this poll reads before it ends or fails. */
  function Read1(c: Cache, f: File, errorAfter: Option<nat>): seq<Bytes>
    requires c.state.offset <= |f.bytes|
  {
    Cut(Lines(f.bytes[c.state.offset..]), errorAfter)
  }

  function Polled(c: Cache, decode: Decoder, f: File, errorAfter: Option<nat>): Cache {
    var base := Base(c, f);
    var state := Fold(base.state, decode, Read1(base, f, errorAfter));
    if errorAfter.Some? then base.(state := state)
    else Cache(base.identity, f.mtime, Slice(f.bytes, From(state.offset, ANCHOR_BYTES), state.offset), state)
  }

  function SeenTail(c: Cache, f: File, errorAfter: Option<nat>): Bytes {
    TailSeen(f.bytes[Base(c, f).state.offset..], errorAfter)
  }

  function Warned(s: State, w: Option<Warning>): State {
    if w.Some? then s.(warnings := s.warnings + [w.value]) else s
  }

  /** One poll: the cache it leaves and the snapshot it returns. */
  function Poll(c: Cache, decode: Decoder, r: Read): (Cache, State) {
    match r
    case Missing => (NEW_CACHE, Warned(EMPTY, Some(NoFile)))
    case OpenFailed => (c, Warned(c.state, Some(ReadFailed)))
    case Opened(f, e) =>
      var after := Polled(c, decode, f, e);
      (after, Warned(WithTail(after.state, decode, SeenTail(c, f, e)), if e.Some? then Some(ReadFailed) else None))
  }

  // ---- The reader step by step ----

  class Snapshot {
    var identity: Option<int>
    var mtime: int
    var anchor: Bytes
    var state: State

    ghost function Value(): Cache reads this { Cache(identity, mtime, anchor, state) }

    constructor (c: Cache)
      ensures Value() == c
    {
      identity, mtime, anchor, state := c.identity, c.mtime, c.anchor, c.state;
    }

    method Consume(decode: Decoder, line: Bytes, provisional: bool)
      modifies this`state
      ensures state == Consumed(old(state), decode, line, provisional)
    {
      if Blank(line) { return; }
      match decode(line) {
        case Invalid =>
          if !provisional { state := state.(warnings := state.warnings + [BadLine(state.lineNumber)]); }
        case NotObject =>
        case Decoded(e) =>
          state := state.(records := Add(state.records, e.record));
          state := state.(modelCalls := Add(state.modelCalls, e.modelCall));
          state := state.(lastActivity := Some(e.activity));
          if e.helper.Some? {
            var h := e.helper.value;
            state := state.(finished := state.finished + 1, completed := state.completed + Count(!h.error));
            state := state.(timedOut := state.timedOut + Count(h.deadline),
                degraded := state.degraded + Count(h.degraded));
          }
      }
    }

    /** Counts the line, consumes it and passes by it. */
    method ConsumeNext(decode: Decoder, line: Bytes)
      modifies this`state
      ensures state == Next(old(state), decode, line)
    {
      var at := state.offset + |line|;
      state := state.(lineNumber := state.lineNumber + 1);
      Consume(decode, line, false);
      state := state.(offset := at);
    }

    /** Reads line by line from the offset on; stops at the tail, which it hands back. */
    method ReadOn(decode: Decoder, bytes: Bytes, errorAfter: Option<nat>) returns (tail: Bytes)
      requires state.offset <= |bytes|
      modifies this`state
      ensures state == Fold(old(state), decode, Cut(Lines(bytes[old(state.offset)..]), errorAfter))
      ensures tail == TailSeen(bytes[old(state.offset)..], errorAfter)
    {
      tail := [];
      var pos, left: Option<nat> := state.offset, errorAfter;
      ghost var target := Fold(state, decode, Cut(Lines(bytes[pos..]), errorAfter));
      ghost var tailTarget := TailSeen(bytes[pos..], errorAfter);
      while pos < |bytes| && left != Some(0)
        invariant pos <= |bytes|
        invariant Fold(state, decode, Cut(Lines(bytes[pos..]), left)) == target
        invariant TailSeen(bytes[pos..], left) == tailTarget
      {
        var line := bytes[pos..][..LineEnd(bytes[pos..], 0)];
        ReadStep(bytes, pos, line, left);
        if line[|line| - 1] != NEWLINE {
          tail := line;
          return;
        }
        FoldNext(state, decode, line, Cut(Lines(bytes[pos + |line|..]), Less(left)));
        ConsumeNext(decode, line);
        pos, left := pos + |line|, Less(left);
      }
    }
  }

  /** The tail this poll comes to see: none when a read error strikes earlier. */
  function TailSeen(rest: Bytes, errorAfter: Option<nat>): Bytes {
    if errorAfter.Some? && errorAfter.value <= |Lines(rest)| then [] else Tail(rest)
  }

  function Cut(lines: seq<Bytes>, left: Option<nat>): seq<Bytes> {
    if left.Some? && left.value < |lines| then lines[..left.value] else lines
  }

  function Less(left: Option<nat>): Option<nat>
    requires left != Some(0)
  {
    if left.Some? then Some(left.value - 1) else None
  }

  lemma ReadStep(bytes: Bytes, pos: nat, line: Bytes, left: Option<nat>)
    requires pos < |bytes| && line == bytes[pos..][..LineEnd(bytes[pos..], 0)] && left != Some(0)
    ensures line != [] && pos + |line| <= |bytes|
    ensures line[|line| - 1] == NEWLINE ==>
              && Cut(Lines(bytes[pos..]), left) == [line] + Cut(Lines(bytes[pos + |line|..]), Less(left))
              && TailSeen(bytes[pos..], left) == TailSeen(bytes[pos + |line|..], Less(left))
    ensures line[|line| - 1] != NEWLINE ==> Cut(Lines(bytes[pos..]), left) == [] && TailSeen(bytes[pos..], left) == line
  {
    NextLine(bytes, pos, line);
  }

  lemma FoldNext(s: State, decode: Decoder, line: Bytes, lines: seq<Bytes>)
    ensures Fold(s, decode, [line] + lines) == Fold(Next(s, decode, line), decode, lines)
  {
    assert ([line] + lines)[1..] == lines;
  }

  /** The snapshot cache of one log. */
  class Store {
    var cached: Snapshot

    constructor ()
      ensures fresh(cached) && cached.Value() == NEW_CACHE
    {
      cached := new Snapshot(NEW_CACHE);
    }

    /** Reads what is new in the file; the cache moves on past every line read. */
    method ReadFile(decode: Decoder, f: File, errorAfter: Option<nat>) returns (tail: Bytes)
      modifies this, cached
      ensures cached == old(cached) || fresh(cached)
      ensures cached.Value() == Polled(old(cached.Value()), decode, f, errorAfter)
      ensures tail == SeenTail(old(cached.Value()), f, errorAfter)
    {
      if Resets(Cache(cached.identity, cached.mtime, cached.anchor, cached.state), f) {
        cached := new Snapshot(Cache(Some(f.identity), 0, [], EMPTY));
      }
      tail := cached.ReadOn(decode, f.bytes, errorAfter);
      if errorAfter.None? {
        cached.anchor := Slice(f.bytes, From(cached.state.offset, ANCHOR_BYTES), cached.state.offset);
        cached.mtime := f.mtime;
      }
    }

    /** The tail is consumed by a copy of the cached snapshot, never by the cached one. */
    method PollLog(decode: Decoder, r: Read) returns (view: Snapshot)
      modifies this, cached
      ensures (cached.Value(), view.state) == Poll(old(cached.Value()), decode, r)
      ensures fresh(view) && view != cached
    {
      var tail: Bytes := [];
      var warning: Option<Warning> := None;
      match r {
        case Missing =>
          cached := new Snapshot(NEW_CACHE);
          warning := Some(NoFile);
        case OpenFailed => warning := Some(ReadFailed);
        case Opened(f, e) =>
          tail := ReadFile(decode, f, e);
          if e.Some? { warning := Some(ReadFailed); }
      }
      view := new Snapshot(Cache(cached.identity, cached.mtime, cached.anchor, cached.state));
      if tail != [] { view.Consume(decode, tail, true); }
      view.state := Warned(view.state, warning);
    }
  }
}
