/** Token usage of command-line workers, and its price. */
module CliUsage {
  import opened Wrappers
  import UniqueIds

  function Or(a: Option<int>, b: int): int { if a.Some? then a.value else b }

  function MaxInt(a: int, b: int): int { if a < b then b else a }

  function MinInt(a: int, b: int): int { if b < a then b else a }

  // ---- Codex ----

  datatype Usage = Usage(input: int, cached: int, written: Option<int>, output: int, reasoning: int, nTurns: int,
      turns: seq<Usage>)
  {
    function Merge(other: Usage): Usage {
      Usage(input + other.input, cached + other.cached, AddWritten(written, other.written),
            output + other.output, reasoning + other.reasoning, nTurns + other.nTurns, turns + other.turns)
    }
  }

  const NOTHING := Usage(0, 0, None, 0, 0, 0, [])

  /** Cache-write counts; the sum is missing only if both are. */
  function AddWritten(a: Option<int>, b: Option<int>): Option<int> {
    if a.None? && b.None? then None else Some(Or(a, 0) + Or(b, 0))
  }

  /** A line of the log: one completed turn, its cache writes under any of three names, or anything else. */
  datatype Line = Turn(input: int, cached: int, writeNames: (Option<int>, Option<int>, Option<int>), output: int,
      reasoning: int)
                | OtherLine

  function FirstGiven(names: (Option<int>, Option<int>, Option<int>)): Option<int> {
    if names.0.Some? then names.0 else if names.1.Some? then names.1 else names.2
  }

  function TurnOf(l: Line): Usage
    requires l.Turn?
  {
    Usage(l.input, l.cached, FirstGiven(l.writeNames), l.output, l.reasoning, 1, [])
  }

  function TurnsOf(lines: seq<Line>): seq<Usage> {
    if lines == [] then []
    else
      var before := TurnsOf(lines[..|lines| - 1]);
      if lines[|lines| - 1].Turn? then before + [TurnOf(lines[|lines| - 1])] else before
  }

  /** The totals of turns, without the turns. */
  function Total(turns: seq<Usage>): Usage {
    if turns == [] then NOTHING else Total(turns[..|turns| - 1]).Merge(turns[|turns| - 1]).(turns := [])
  }

  lemma TotalSnoc(before: seq<Usage>, turn: Usage)
    ensures Total(before + [turn]) == Total(before).Merge(turn).(turns := [])
  {
    assert (before + [turn])[..|before|] == before;
  }

  method ParseCodexJsonl(lines: seq<Line>) returns (usage: Usage)
    ensures usage == Total(TurnsOf(lines)).(turns := TurnsOf(lines))
  {
    usage := NOTHING;
    for i := 0 to |lines|
      invariant usage == Total(TurnsOf(lines[..i])).(turns := TurnsOf(lines[..i]))
    {
      assert lines[..i + 1][..i] == lines[..i];
      if lines[i].Turn? {
        var turn := TurnOf(lines[i]);
        TotalSnoc(TurnsOf(lines[..i]), turn);
        usage := usage.Merge(turn);
        usage := usage.(turns := usage.turns + [turn]);
      }
    }
    assert lines[..|lines|] == lines;
  }

  // ---- Prices ----

  datatype Rates = Rates(
    read: real, write: real, cacheRead: Option<real>, cacheWrite: Option<real>, writesInInput: bool,
    threshold: Option<int>, inputMultiplier: real, outputMultiplier: real)

  function Input(u: Usage): nat { MaxInt(0, u.input) }

  function CachedIn(u: Usage): nat { MinInt(MaxInt(0, u.cached), Input(u)) }

  /** Input that was not read from the cache. */
  function Fresh(u: Usage): nat { Input(u) - CachedIn(u) }

  /** Cache-written tokens: where their count is missing, all fresh input if writes are part of it. */
  function Writes(u: Usage, r: Rates): nat {
    var count := if r.cacheWrite.None? then 0 else if u.written.Some? then u.written.value
        else if r.writesInInput then Fresh(u) else 0;
    if r.writesInInput then MinInt(MaxInt(0, count), Fresh(u)) else MaxInt(0, count)
  }

  function Output(u: Usage): nat { MaxInt(0, u.output) }

  predicate LongContext(u: Usage, r: Rates) { r.threshold.Some? && Input(u) > r.threshold.value }

  function WriteRate(r: Rates): real { if r.cacheWrite.None? then 0.0 else r.cacheWrite.value }

  function CacheRate(r: Rates): real { if r.cacheRead.None? then r.read else r.cacheRead.value }

  /** The input by price: at the full rate, read from the cache, written to it. Writes that are part of the
      input are priced instead of it, others besides it. */
  datatype Split = Split(full: int, cached: int, written: int) {
    function Plus(s: Split): Split { Split(full + s.full, cached + s.cached, written + s.written) }

    function Price(r: Rates): real {
      full as real * r.read + cached as real * CacheRate(r) + written as real * WriteRate(r)
    }
  }

  function InputSplit(u: Usage, r: Rates): Split {
    Split(if r.writesInInput then Fresh(u) - Writes(u, r) else Fresh(u), CachedIn(u), Writes(u, r))
  }

  function InputPrice(u: Usage, r: Rates): real { InputSplit(u, r).Price(r) }

  function OutputPrice(u: Usage, r: Rates): real { Output(u) as real * r.write }

  function TurnCost(u: Usage, r: Rates): real {
    (InputPrice(u, r) * (if LongContext(u, r) then r.inputMultiplier else 1.0)
     + OutputPrice(u, r) * (if LongContext(u, r) then r.outputMultiplier else 1.0)) / 1000000.0
  }

  function TurnCosts(turns: seq<Usage>, r: Rates): real {
    if turns == [] then 0.0 else TurnCosts(turns[..|turns| - 1], r) + TurnCost(turns[|turns| - 1], r)
  }

  /** Turn by turn; usage without turns is priced as one. */
  function Cost(u: Usage, r: Rates): real {
    TurnCosts(if u.turns == [] then [u] else u.turns, r)
  }

  // ---- Claude ----

  datatype Tokens = Tokens(input: int, created: int, read: int, output: int) {
    function Plus(t: Tokens): Tokens { Tokens(input + t.input, created + t.created, read + t.read, output + t.output) }

    predicate Valid() { input >= 0 && created >= 0 && read >= 0 && output >= 0 }
  }

  /** One model's counters in a result: all four of them, or not. */
  datatype Model = Complete(tokens: Tokens) | Partial

  /** A result object: its own usage, its models' counters (none when they are no mapping of records), and its
      number of turns. */
  datatype Report = Report(usage: Tokens, models: Option<seq<Model>>, turns: int)

  /** A final result, a result object without a type, one snapshot of a streamed message, or anything else. */
  datatype Event = Result(report: Report) | Bare(report: Report) | Message(id: string, tokens: Tokens) | OtherEvent

  datatype Parsed = Usable(tokens: Tokens, turns: nat, identified: bool) | Unusable

  /** What the loop over the lines has gathered: the last result, the messages in the order first seen with
      their last snapshots, and how many had no id. */
  datatype Gathered = Gathered(result: Option<Report>, messages: seq<(string, Tokens)>, anonymous: nat)

  function Snapshot(messages: seq<(string, Tokens)>, id: string, t: Tokens): seq<(string, Tokens)> {
    if messages == [] then [(id, t)]
    else if messages[0].0 == id then [(id, t)] + messages[1..]
    else [messages[0]] + Snapshot(messages[1..], id, t)
  }

  /** The id a message goes by. */
  function NameOf(id: string, anonymous: nat): string {
    if id == "" then "_anon_" + UniqueIds.Decimal(anonymous) else id
  }

  function Gather(g: Gathered, e: Event): Gathered {
    match e
    case Result(r) => g.(result := Some(r))
    case Bare(r) => if g.result.None? then g.(result := Some(r)) else g
    case Message(id, t) =>
      g.(messages := Snapshot(g.messages, NameOf(id, g.anonymous), t),
         anonymous := g.anonymous + if id == "" then 1 else 0)
    case OtherEvent => g
  }

  function GatherAll(events: seq<Event>): Gathered {
    if events == [] then Gathered(None, [], 0) else Gather(GatherAll(events[..|events| - 1]), events[|events| - 1])
  }

  function SumTokens(messages: seq<(string, Tokens)>): Tokens {
    if messages == [] then Tokens(0, 0, 0, 0)
    else SumTokens(messages[..|messages| - 1]).Plus(messages[|messages| - 1].1)
  }

  predicate AllComplete(models: seq<Model>) {
    models != [] && forall i :: 0 <= i < |models| ==> models[i].Complete?
  }

  function ModelTokens(models: seq<Model>): Tokens
    requires forall i :: 0 <= i < |models| ==> models[i].Complete?
  {
    if models == [] then Tokens(0, 0, 0, 0)
    else ModelTokens(models[..|models| - 1]).Plus(models[|models| - 1].tokens)
  }

  /** Complete counters of all models cover the whole session and replace the usage, which covers only the
      latest segment; the two are not added. */
  function ReportUsage(r: Report): Parsed {
    if r.models.None? || r.turns < 0 then Unusable
    else if AllComplete(r.models.value) then
      if forall i :: 0 <= i < |r.models.value| ==> r.models.value[i].tokens.Valid()
      then Usable(ModelTokens(r.models.value), r.turns, true)
      else Unusable
    else if r.usage.Valid() then Usable(r.usage, r.turns, true)
    else Unusable
  }

  function ClaudeUsage(g: Gathered): Parsed {
    if g.result.Some? then ReportUsage(g.result.value)
    else if exists i :: 0 <= i < |g.messages| && !g.messages[i].1.Valid() then Unusable
    else Usable(SumTokens(g.messages), |g.messages|, g.anonymous == 0)
  }

  method ParseClaudeJson(events: seq<Event>) returns (p: Parsed)
    ensures p == ClaudeUsage(GatherAll(events))
  {
    var g := Gathered(None, [], 0);
    for i := 0 to |events|
      invariant g == GatherAll(events[..i])
    {
      assert events[..i + 1][..i] == events[..i];
      match events[i] {
        case Result(r) => g := g.(result := Some(r));
        case Bare(r) => if g.result.None? { g := g.(result := Some(r)); }
        case Message(id, t) =>
          var name := NameOf(id, g.anonymous);
          g := g.(messages := Snapshot(g.messages, name, t), anonymous := g.anonymous + if id == "" then 1 else 0);
        case OtherEvent =>
      }
    }
    assert events[..|events|] == events;
    if g.result.Some? { return ReportUsage(g.result.value); }
    var total := Tokens(0, 0, 0, 0);
    for i := 0 to |g.messages|
      invariant total == SumTokens(g.messages[..i])
      invariant forall j :: 0 <= j < i ==> g.messages[j].1.Valid()
    {
      if !g.messages[i].1.Valid() { return Unusable; }
      assert g.messages[..i + 1][..i] == g.messages[..i];
      total := total.Plus(g.messages[i].1);
    }
    assert g.messages[..|g.messages|] == g.messages;
    return Usable(total, |g.messages|, g.anonymous == 0);
  }
}
