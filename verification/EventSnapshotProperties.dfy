/** The incremental snapshot equals a parse of the whole file, however appends and polls interleave. */
module EventSnapshotProperties {
  import opened Wrappers
  import opened EventSnapshot

  /** The cache has gathered exactly the complete lines of `seen`, the bytes before its offset. */
  ghost predicate Covers(c: Cache, decode: Decoder, seen: Bytes) {
    Complete(seen) && c.state == Summary(decode, seen)
  }

  lemma {:induction false} CompleteTail(bytes: Bytes)
    requires Complete(bytes)
    ensures Tail(bytes) == []
  {
    if bytes != [] {
      var end := LineEnd(bytes, 0);
      CompleteTail(bytes[end..]);
    }
  }

  lemma CoversOffset(c: Cache, decode: Decoder, seen: Bytes)
    requires Covers(c, decode, seen)
    ensures c.state.offset == |seen|
  {
    CompleteTail(seen);
    FileSplits(seen);
    FoldOffset(EMPTY, decode, Lines(seen));
  }

  predicate IsLine(line: Bytes) {
    line != [] && line[|line| - 1] == NEWLINE && forall i :: 0 <= i < |line| - 1 ==> line[i] != NEWLINE
  }

  lemma {:induction false} LinesAreLines(bytes: Bytes)
    ensures forall i :: 0 <= i < |Lines(bytes)| ==> IsLine(Lines(bytes)[i])
  {
    if bytes != [] {
      var end := LineEnd(bytes, 0);
      if bytes[end - 1] == NEWLINE {
        LinesAreLines(bytes[end..]);
        forall i | 0 <= i < |Lines(bytes)| ensures IsLine(Lines(bytes)[i]) {
          if i > 0 { assert Lines(bytes)[i] == Lines(bytes[end..])[i - 1]; }
        }
      }
    }
  }

  lemma OneLine(line: Bytes)
    requires IsLine(line)
    ensures Lines(line) == [line] && Complete(line)
  {
    var end := LineEnd(line, 0);
    assert line[end - 1] == NEWLINE;
    assert end == |line|;
    assert line[..end] == line && line[end..] == [];
  }

  /** Joining lines and splitting again gives the lines back. */
  lemma {:induction false} JoinLines(lines: seq<Bytes>)
    requires forall i :: 0 <= i < |lines| ==> IsLine(lines[i])
    ensures Lines(Join(lines)) == lines && Complete(Join(lines))
  {
    if lines != [] {
      JoinLines(lines[1..]);
      OneLine(lines[0]);
      LinesAppend(lines[0], Join(lines[1..]));
      CompleteAppend(lines[0], Join(lines[1..]));
    }
  }

  lemma {:induction false} JoinAppend(a: seq<Bytes>, b: seq<Bytes>)
    ensures Join(a + b) == Join(a) + Join(b)
  {
    if a == [] { assert a + b == b; }
    else {
      assert (a + b)[1..] == a[1..] + b;
      JoinAppend(a[1..], b);
    }
  }

  lemma Begins(a: Bytes, b: Bytes, c: Bytes)
    ensures a <= a + b + c && a + b + c == a + (b + c)
  {
  }

  lemma JoinPrefix(all: seq<Bytes>, k: nat, tail: Bytes)
    requires k <= |all|
    ensures Join(all[..k]) <= Join(all) + tail
  {
    var head, more := all[..k], all[k..];
    JoinAppend(head, more);
    assert head + more == all;
    Begins(Join(head), Join(more), tail);
  }

  /** The bytes of the lines that one poll reads begin what is left of the file. */
  lemma CutPrefix(rest: Bytes, errorAfter: Option<nat>, lines: seq<Bytes>)
    requires lines == Cut(Lines(rest), errorAfter)
    ensures Lines(Join(lines)) == lines && Complete(Join(lines)) && Join(lines) <= rest
    ensures errorAfter.None? ==> Join(lines) + Tail(rest) == rest
  {
    LinesAreLines(rest);
    JoinLines(lines);
    FileSplits(rest);
    JoinPrefix(Lines(rest), |lines|, Tail(rest));
    assert lines == Lines(rest)[..|lines|];
  }

  lemma SummaryExtends(decode: Decoder, seen: Bytes, more: Bytes)
    requires Complete(seen) && Complete(more)
    ensures Complete(seen + more)
    ensures Summary(decode, seen + more) == Fold(Summary(decode, seen), decode, Lines(more))
  {
    LinesAppend(seen, more);
    CompleteAppend(seen, more);
    FoldAppend(EMPTY, decode, Lines(seen), Lines(more));
  }

  lemma WholeSummary(decode: Decoder, seen: Bytes, bytes: Bytes)
    requires Complete(seen) && seen <= bytes
    ensures Summary(decode, bytes) == Fold(Summary(decode, seen), decode, Lines(bytes[|seen|..]))
    ensures Tail(bytes) == Tail(bytes[|seen|..])
  {
    var rest := bytes[|seen|..];
    assert bytes == seen + rest;
    LinesAppend(seen, rest);
    FoldAppend(EMPTY, decode, Lines(seen), Lines(rest));
  }

  lemma PrefixOn(seen: Bytes, more: Bytes, bytes: Bytes)
    requires seen <= bytes && more <= bytes[|seen|..]
    ensures seen + more <= bytes
  {
    assert bytes == seen + bytes[|seen|..];
  }

  /** Going on from a covered prefix: the lines read extend what is covered. */
  lemma ReadExtends(c: Cache, decode: Decoder, seen: Bytes, f: File, errorAfter: Option<nat>) returns (now: Bytes)
    requires Covers(c, decode, seen) && c.state.offset == |seen| && seen <= f.bytes
    ensures Complete(now) && now <= f.bytes && now == seen + Join(Read1(c, f, errorAfter))
    ensures Fold(c.state, decode, Read1(c, f, errorAfter)) == Summary(decode, now)
  {
    var lines := Read1(c, f, errorAfter);
    CutPrefix(f.bytes[|seen|..], errorAfter, lines);
    now := seen + Join(lines);
    SummaryExtends(decode, seen, Join(lines));
    PrefixOn(seen, Join(lines), f.bytes);
  }

  /** Without a read error they are all the complete lines there are. */
  lemma ReadAll(c: Cache, decode: Decoder, seen: Bytes, f: File)
    requires Covers(c, decode, seen) && c.state.offset == |seen| && seen <= f.bytes
    ensures seen + Join(Read1(c, f, None)) + Tail(f.bytes) == f.bytes
    ensures Fold(c.state, decode, Read1(c, f, None)) == Summary(decode, f.bytes)
    ensures TailSeen(f.bytes[|seen|..], None) == Tail(f.bytes)
  {
    WholeSummary(decode, seen, f.bytes);
    AllRead(seen, f.bytes, Lines(f.bytes[|seen|..]), Tail(f.bytes[|seen|..]));
  }

  lemma AllRead(seen: Bytes, bytes: Bytes, lines: seq<Bytes>, tail: Bytes)
    requires seen <= bytes && lines == Lines(bytes[|seen|..]) && tail == Tail(bytes[|seen|..])
    ensures seen + Join(lines) + tail == bytes
  {
    CutPrefix(bytes[|seen|..], None, lines);
    Glue(seen, Join(lines), tail, bytes[|seen|..]);
    assert seen + bytes[|seen|..] == bytes;
  }

  lemma Glue(a: Bytes, b: Bytes, c: Bytes, bc: Bytes)
    requires b + c == bc
    ensures a + b + c == a + bc
  {
  }

  /** One poll of a log that either still begins with what the cache covers, or is seen to be another
      file: the view is the parse of the whole file, and the cache covers its complete lines. After a
      read error the cache still covers complete lines, only fewer. */
  lemma PollExact(c: Cache, decode: Decoder, seen: Bytes, f: File, errorAfter: Option<nat>) returns (now: Bytes)
    requires Covers(c, decode, seen) && (Resets(c, f) || seen <= f.bytes)
    ensures Covers(Poll(c, decode, Opened(f, errorAfter)).0, decode, now) && now <= f.bytes
    ensures errorAfter.None? ==> now + Tail(f.bytes) == f.bytes
                                 && Poll(c, decode, Opened(f, errorAfter)).1 == FromScratch(decode, f.bytes)
  {
    CoversOffset(c, decode, seen);
    var base, from := Base(c, f), if Resets(c, f) then [] else seen;
    now := ReadExtends(base, decode, from, f, errorAfter);
    if errorAfter.None? { ReadAll(base, decode, from, f); }
  }

  function WithWarning(s: State, w: Warning): State {
    s.(warnings := s.warnings + [w])
  }

  /** What polls that fail show: without a file nothing, and the cache is forgotten; when it does not open, what
      the cache holds; when reading fails, what the complete lines read by then hold, or, if only what follows the
      lines was not read, the whole file. Each warns of it, after the warnings there are. */
  lemma FailedPollTells(c: Cache, decode: Decoder, seen: Bytes, f: File, k: nat) returns (now: Bytes)
    requires Covers(c, decode, seen) && (Resets(c, f) || seen <= f.bytes)
    ensures Poll(c, decode, Missing) == (NEW_CACHE, WithWarning(EMPTY, NoFile))
    ensures Poll(c, decode, OpenFailed) == (c, WithWarning(c.state, ReadFailed))
    ensures var p := Poll(c, decode, Opened(f, Some(k)));
            && Covers(p.0, decode, now) && now <= f.bytes
            && (p.1 == WithWarning(Summary(decode, now), ReadFailed)
                || (now + Tail(f.bytes) == f.bytes && p.1 == WithWarning(FromScratch(decode, f.bytes), ReadFailed)))
  {
    BaseWithin(c, f);
    if k <= |Lines(f.bytes[Base(c, f).state.offset..])| {
      now := PollExact(c, decode, seen, f, Some(k));
      FailedEarly(c, decode, f, k);
    } else {
      now := PollExact(c, decode, seen, f, None);
      FailedLate(c, decode, f, k);
    }
  }

  lemma BaseWithin(c: Cache, f: File)
    ensures Base(c, f).state.offset <= |f.bytes|
  {
  }

  lemma FailedEarly(c: Cache, decode: Decoder, f: File, k: nat)
    requires Base(c, f).state.offset <= |f.bytes| && k <= |Lines(f.bytes[Base(c, f).state.offset..])|
    ensures var p := Poll(c, decode, Opened(f, Some(k))); p.1 == WithWarning(p.0.state, ReadFailed)
  {
  }

  /** A read error after the last line leaves the poll as it would be, but for the warning. */
  lemma FailedLate(c: Cache, decode: Decoder, f: File, k: nat)
    requires Base(c, f).state.offset <= |f.bytes| && k > |Lines(f.bytes[Base(c, f).state.offset..])|
    ensures var p, q := Poll(c, decode, Opened(f, Some(k))), Poll(c, decode, Opened(f, None));
            p.0.state == q.0.state && p.1 == WithWarning(q.1, ReadFailed)
  {
    assert Read1(Base(c, f), f, Some(k)) == Read1(Base(c, f), f, None);
  }

  // ---- Any interleaving ----

  /** The log grows, or becomes another file altogether; polls read it, some fail, some find no file. */
  datatype Move =
    | Append(data: Bytes, mtime: int)
    | Become(file: File)
    | PollNow(errorAfter: Option<nat>)
    | PollUnopened
    | PollMissing

  /** What one poll showed, and the file it looked at. */
  datatype Shown = Shown(view: State, bytes: Bytes, failed: bool)

  function Grown(f: File, data: Bytes, mtime: int): File {
    f.(bytes := f.bytes + data, mtime := mtime)
  }

  function Shows(f: File, c: Cache, decode: Decoder, moves: seq<Move>): seq<Shown>
    decreases moves
  {
    if moves == [] then []
    else
      match moves[0]
      case Append(data, mtime) => Shows(Grown(f, data, mtime), c, decode, moves[1..])
      case Become(g) => Shows(g, c, decode, moves[1..])
      case PollNow(e) =>
        var p := Poll(c, decode, Opened(f, e));
        [Shown(p.1, f.bytes, e.Some?)] + Shows(f, p.0, decode, moves[1..])
      case PollUnopened =>
        var p := Poll(c, decode, OpenFailed);
        [Shown(p.1, f.bytes, true)] + Shows(f, p.0, decode, moves[1..])
      case PollMissing =>
        var p := Poll(c, decode, Missing);
        [Shown(p.1, f.bytes, true)] + Shows(f, p.0, decode, moves[1..])
  }

  /** The bytes a cache has read of the file it read last. */
  function Reached(c: Cache, f: File): Bytes {
    if c.state.offset <= |f.bytes| then f.bytes[..c.state.offset] else []
  }

  /** At every poll the file still begins with what was read, or is seen to be another one. */
  ghost predicate Recognized(f: File, c: Cache, decode: Decoder, moves: seq<Move>, seen: Bytes)
    decreases moves
  {
    moves != [] ==>
      match moves[0]
      case Append(data, mtime) => Recognized(Grown(f, data, mtime), c, decode, moves[1..], seen)
      case Become(g) => Recognized(g, c, decode, moves[1..], seen)
      case PollNow(e) =>
        && (Resets(c, f) || seen <= f.bytes)
        && var after := Poll(c, decode, Opened(f, e)).0;
           Recognized(f, after, decode, moves[1..], Reached(after, f))
      case PollUnopened => Recognized(f, c, decode, moves[1..], seen)
      case PollMissing => Recognized(f, NEW_CACHE, decode, moves[1..], [])
  }

  lemma PollReaches(c: Cache, decode: Decoder, seen: Bytes, f: File, e: Option<nat>)
    requires Covers(c, decode, seen) && (Resets(c, f) || seen <= f.bytes)
    ensures var after := Poll(c, decode, Opened(f, e)).0;
            Covers(after, decode, Reached(after, f)) && Reached(after, f) <= f.bytes
  {
    var after := Poll(c, decode, Opened(f, e)).0;
    var now := PollExact(c, decode, seen, f, e);
    CoversOffset(after, decode, now);
    assert Reached(after, f) == now;
  }

  /** Every poll that does not fail shows the parse of the whole file from scratch. */
  ghost predicate AllExact(decode: Decoder, shows: seq<Shown>) {
    forall i :: 0 <= i < |shows| ==> shows[i].failed || shows[i].view == FromScratch(decode, shows[i].bytes)
  }

  lemma ExactCons(decode: Decoder, first: Shown, rest: seq<Shown>)
    requires AllExact(decode, rest) && (first.failed || first.view == FromScratch(decode, first.bytes))
    ensures AllExact(decode, [first] + rest)
  {
  }

  /** For any interleaving of appends, replacements, polls, failing polls and polls of a missing file, every
      poll that does not fail shows the parse of the whole file, as long as each replacement is recognized. */
  lemma {:induction false} InterleavingsExact(f: File, c: Cache, decode: Decoder, moves: seq<Move>, seen: Bytes)
    requires Covers(c, decode, seen) && Recognized(f, c, decode, moves, seen)
    ensures AllExact(decode, Shows(f, c, decode, moves))
    decreases moves
  {
    if moves != [] {
      var rest := moves[1..];
      match moves[0]
      case Append(data, mtime) => InterleavingsExact(Grown(f, data, mtime), c, decode, rest, seen);
      case Become(g) => InterleavingsExact(g, c, decode, rest, seen);
      case PollNow(e) =>
        var now := PollExact(c, decode, seen, f, e);
        var p := Poll(c, decode, Opened(f, e));
        PollReaches(c, decode, seen, f, e);
        InterleavingsExact(f, p.0, decode, rest, Reached(p.0, f));
        ExactCons(decode, Shown(p.1, f.bytes, e.Some?), Shows(f, p.0, decode, rest));
      case PollUnopened =>
        InterleavingsExact(f, c, decode, rest, seen);
        ExactCons(decode, Shown(Poll(c, decode, OpenFailed).1, f.bytes, true), Shows(f, c, decode, rest));
      case PollMissing =>
        InterleavingsExact(f, NEW_CACHE, decode, rest, []);
        ExactCons(decode, Shown(Poll(c, decode, Missing).1, f.bytes, true), Shows(f, NEW_CACHE, decode, rest));
    }
  }

  /** A file that replaces the log has an identity that none before it had. */
  ghost predicate NewIdentities(moves: seq<Move>, had: set<int>)
    decreases moves
  {
    moves != [] ==>
      && (moves[0].Become? ==> moves[0].file.identity !in had)
      && NewIdentities(moves[1..], if moves[0].Become? then had + {moves[0].file.identity} else had)
  }

  lemma AppendKeeps(seen: Bytes, f: File, data: Bytes, mtime: int)
    requires seen <= f.bytes
    ensures seen <= Grown(f, data, mtime).bytes
  {
  }

  lemma {:induction false} NewIsRecognized(f: File, c: Cache, decode: Decoder, moves: seq<Move>, seen: Bytes,
                                           had: set<int>)
    requires Covers(c, decode, seen) && NewIdentities(moves, had) && f.identity in had
    requires (c.identity.Some? ==> c.identity.value in had) && (c.identity != Some(f.identity) || seen <= f.bytes)
    ensures Recognized(f, c, decode, moves, seen)
    decreases moves
  {
    if moves != [] {
      var rest := moves[1..];
      match moves[0]
      case Append(data, mtime) =>
        if seen <= f.bytes { AppendKeeps(seen, f, data, mtime); }
        NewIsRecognized(Grown(f, data, mtime), c, decode, rest, seen, had);
      case Become(g) => NewIsRecognized(g, c, decode, rest, seen, had + {g.identity});
      case PollNow(e) =>
        PollReaches(c, decode, seen, f, e);
        var after := Poll(c, decode, Opened(f, e)).0;
        NewIsRecognized(f, after, decode, rest, Reached(after, f), had);
      case PollUnopened => NewIsRecognized(f, c, decode, rest, seen, had);
      case PollMissing => NewIsRecognized(f, NEW_CACHE, decode, rest, [], had);
    }
  }

  /** From a new cache, as a run starts: exact whenever the files that replace the log are new ones. */
  lemma RunsExact(f: File, decode: Decoder, moves: seq<Move>)
    requires NewIdentities(moves, {f.identity})
    ensures AllExact(decode, Shows(f, NEW_CACHE, decode, moves))
  {
    NewIsRecognized(f, NEW_CACHE, decode, moves, [], {f.identity});
    InterleavingsExact(f, NEW_CACHE, decode, moves, []);
  }

  /** Growth alone never makes a poll read the file again from the start: after a successful poll, the
      same file with bytes appended is recognized (an unchanged size with a new time stamp is not). */
  lemma GrowthRecognized(c: Cache, decode: Decoder, seen: Bytes, f: File, g: File)
    requires Covers(c, decode, seen) && (Resets(c, f) || seen <= f.bytes)
    requires g.identity == f.identity && f.bytes <= g.bytes && (|g.bytes| == |f.bytes| ==> g.mtime == f.mtime)
    ensures !Resets(Poll(c, decode, Opened(f, None)).0, g)
  {
    var after := Poll(c, decode, Opened(f, None)).0;
    var now := PollExact(c, decode, seen, f, None);
    CoversOffset(after, decode, now);
    SameSlice(f.bytes, g.bytes, From(|now|, ANCHOR_BYTES), |now|);
    PollMarks(c, decode, f);
    NotReset(after, g, From(|now|, ANCHOR_BYTES), |now|);
  }

  lemma PollMarks(c: Cache, decode: Decoder, f: File)
    ensures var after := Poll(c, decode, Opened(f, None)).0;
            && after.identity == Some(f.identity) && after.mtime == f.mtime
            && after.anchor == Slice(f.bytes, From(after.state.offset, ANCHOR_BYTES), after.state.offset)
  {
  }

  lemma NotReset(c: Cache, g: File, from: nat, n: nat)
    requires c.identity == Some(g.identity) && c.state.offset == n <= |g.bytes| && from == From(n, ANCHOR_BYTES)
    requires c.anchor == Slice(g.bytes, from, n) && |c.anchor| == n - from && (|g.bytes| == n ==> g.mtime == c.mtime)
    ensures !Resets(c, g)
  {
  }

  lemma SameSlice(a: Bytes, b: Bytes, from: nat, to: nat)
    requires a <= b && from <= to <= |a|
    ensures |Slice(a, from, to)| == to - from && Slice(b, from, to) == Slice(a, from, to)
  {
    assert b[..|a|] == a;
    assert b[from..to] == b[..|a|][from..to];
  }

  // ---- What a summary says ----

  /** Some byte of the line is neither a space nor one of the tab, newline and other breaks. */
  predicate HoldsText(line: Bytes) {
    exists i :: 0 <= i < |line| && line[i] !in [9, 10, 11, 12, 13, 32]
  }

  lemma BlankIs(line: Bytes)
    ensures Blank(line) <==> !HoldsText(line)
  {
    if !Blank(line) {
      var i :| 0 <= i < |line| && !Space(line[i]);
      assert line[i] !in [9, 10, 11, 12, 13, 32];
    }
  }

  /** The events of the lines that hold one, in order. */
  function Events(decode: Decoder, lines: seq<Bytes>): seq<Event> {
    if lines == [] then []
    else
      var last := lines[|lines| - 1];
      var before := Events(decode, lines[..|lines| - 1]);
      if HoldsText(last) && decode(last).Decoded? then before + [decode(last).event] else before
  }

  /** The numbers, from one, of the lines that hold text but no JSON. */
  function BadLines(decode: Decoder, lines: seq<Bytes>): seq<Warning> {
    if lines == [] then []
    else
      var last := lines[|lines| - 1];
      var before := BadLines(decode, lines[..|lines| - 1]);
      if HoldsText(last) && decode(last).Invalid? then before + [BadLine(|lines|)] else before
  }

  function RecordsOf(events: seq<Event>): seq<string> {
    if events == [] then []
    else
      var before := RecordsOf(events[..|events| - 1]);
      match events[|events| - 1].record case None => before case Some(record) => before + [record]
  }

  function CallsOf(events: seq<Event>): seq<string> {
    if events == [] then []
    else
      var before := CallsOf(events[..|events| - 1]);
      match events[|events| - 1].modelCall case None => before case Some(call) => before + [call]
  }

  datatype Trait = Any | Well | Late | Degraded

  predicate Has(h: Helper, t: Trait) {
    match t case Any => true case Well => !h.error case Late => h.deadline case Degraded => h.degraded
  }

  /** How many events finish a helper with the trait. */
  function Tally(events: seq<Event>, t: Trait): nat {
    if events == [] then 0
    else
      var before := Tally(events[..|events| - 1], t);
      match events[|events| - 1].helper
      case None => before
      case Some(h) => if Has(h, t) then before + 1 else before
  }

  /** A state tells of these lines' events: all records and billed calls in order, the helper counts,
      the last activity, and a warning for each bad line. */
  ghost predicate Tells(s: State, events: seq<Event>, bad: seq<Warning>) {
    && s.records == RecordsOf(events) && s.modelCalls == CallsOf(events)
    && s.finished == Tally(events, Any) && s.completed == Tally(events, Well)
    && s.timedOut == Tally(events, Late) && s.degraded == Tally(events, Degraded)
    && s.lastActivity == (if events == [] then None else Some(events[|events| - 1].activity))
    && s.warnings == bad
  }

  lemma TellsMore(s: State, events: seq<Event>, bad: seq<Warning>, e: Event)
    requires Tells(s, events, bad)
    ensures Tells(WithEvent(s, e), events + [e], bad)
  {
    assert (events + [e])[..|events|] == events;
  }

  lemma TellsLine(s: State, decode: Decoder, events: seq<Event>, bad: seq<Warning>, line: Bytes)
    requires Tells(s, events, bad)
    ensures Tells(Next(s, decode, line),
                  if HoldsText(line) && decode(line).Decoded? then events + [decode(line).event] else events,
                  if HoldsText(line) && decode(line).Invalid? then bad + [BadLine(s.lineNumber + 1)] else bad)
  {
    BlankIs(line);
    if HoldsText(line) && decode(line).Decoded? {
      TellsMore(s.(lineNumber := s.lineNumber + 1), events, bad, decode(line).event);
    }
  }

  lemma {:induction false} SummaryTells(decode: Decoder, lines: seq<Bytes>)
    ensures Tells(Fold(EMPTY, decode, lines), Events(decode, lines), BadLines(decode, lines))
  {
    if lines != [] {
      var init, last := lines[..|lines| - 1], lines[|lines| - 1];
      SummaryTells(decode, init);
      FoldOffset(EMPTY, decode, init);
      TellsLine(Fold(EMPTY, decode, init), decode, Events(decode, init), BadLines(decode, init), last);
      FoldLast(decode, lines);
    }
  }

  lemma FoldLast(decode: Decoder, lines: seq<Bytes>)
    requires lines != []
    ensures Fold(EMPTY, decode, lines) == Next(Fold(EMPTY, decode, lines[..|lines| - 1]), decode, lines[|lines| - 1])
  {
    var init, last := lines[..|lines| - 1], lines[|lines| - 1];
    FoldAppend(EMPTY, decode, init, [last]);
    assert init + [last] == lines;
    var s := Fold(EMPTY, decode, init);
    assert [last][1..] == [];
    assert Fold(s, decode, [last]) == Fold(Next(s, decode, last), decode, []);
  }

  /** A whole file's view: the events of its complete lines and, when it decodes, of its unterminated
      tail; warnings only for complete lines. */
  lemma ViewTells(decode: Decoder, bytes: Bytes)
    ensures Tells(FromScratch(decode, bytes), Events(decode, Lines(bytes) + [Tail(bytes)]),
            BadLines(decode, Lines(bytes)))
  {
    SummaryTells(decode, Lines(bytes));
    var lines, tail := Lines(bytes), Tail(bytes);
    assert (lines + [tail])[..|lines|] == lines;
    BlankIs(tail);
    if HoldsText(tail) && decode(tail).Decoded? {
      TellsMore(Summary(decode, bytes), Events(decode, lines), BadLines(decode, lines), decode(tail).event);
    }
  }
}
