/** What parsed totals and prices are worth. */
module CliUsageProperties {
  import opened Wrappers
  import opened CliUsage
  import UniqueIds

  // ---- Totals ----

  function Sum(turns: seq<Usage>, f: Usage -> int): int {
    if turns == [] then 0 else Sum(turns[..|turns| - 1], f) + f(turns[|turns| - 1])
  }

  /** Every total of a parsed log is the sum over its turns; cache writes are missing only if every turn
      left them out. */
  lemma {:induction false} TotalsAreSums(turns: seq<Usage>)
    ensures var t := Total(turns);
            && t.input == Sum(turns, (u: Usage) => u.input) && t.cached == Sum(turns, (u: Usage) => u.cached)
            && t.output == Sum(turns, (u: Usage) => u.output) && t.reasoning == Sum(turns, (u: Usage) => u.reasoning)
            && Or(t.written, 0) == Sum(turns, (u: Usage) => Or(u.written, 0))
            && (t.written.None? <==> forall u :: u in turns ==> u.written.None?)
  {
    if turns != [] {
      var init, last := turns[..|turns| - 1], turns[|turns| - 1];
      TotalsAreSums(init);
      assert turns == init + [last];
      assert forall u :: u in turns <==> u in init || u == last;
    }
  }

  lemma {:induction false} OnePerTurn(lines: seq<Line>)
    ensures Total(TurnsOf(lines)).nTurns == |TurnsOf(lines)|
    ensures forall u :: u in TurnsOf(lines) ==> u.turns == []
  {
    if lines != [] {
      OnePerTurn(lines[..|lines| - 1]);
      var before, last := TurnsOf(lines[..|lines| - 1]), lines[|lines| - 1];
      if last.Turn? { assert (before + [TurnOf(last)])[..|before|] == before; }
    }
  }

  /** A completed turn's line and what is kept of it: cache writes under the first of their three names that is
      there. */
  predicate Reads(l: Line, u: Usage) {
    && l.Turn? && u.turns == [] && u.nTurns == 1
    && u.input == l.input && u.cached == l.cached && u.output == l.output && u.reasoning == l.reasoning
    && match l.writeNames
       case (Some(count), _, _) => u.written == Some(count)
       case (None, Some(count), _) => u.written == Some(count)
       case (None, None, count) => u.written == count
  }

  /** The completed turns among the first `n` lines. */
  function TurnCount(lines: seq<Line>): nat {
    if lines == [] then 0 else (if lines[0].Turn? then 1 else 0) + TurnCount(lines[1..])
  }

  lemma {:induction false} TurnCountSnoc(lines: seq<Line>, l: Line)
    ensures TurnCount(lines + [l]) == TurnCount(lines) + if l.Turn? then 1 else 0
  {
    if lines == [] {
      assert (lines + [l])[1..] == [];
    } else {
      assert (lines + [l])[1..] == lines[1..] + [l];
      TurnCountSnoc(lines[1..], l);
    }
  }

  /** The turns kept are those of the log's completed turns, in order. */
  lemma {:induction false} TurnsRead(lines: seq<Line>)
    ensures |TurnsOf(lines)| == TurnCount(lines)
    ensures forall k :: 0 <= k < |lines| && lines[k].Turn? ==>
              TurnCount(lines[..k]) < |TurnsOf(lines)| && Reads(lines[k], TurnsOf(lines)[TurnCount(lines[..k])])
  {
    if lines != [] {
      var init, last := lines[..|lines| - 1], lines[|lines| - 1];
      TurnsRead(init);
      assert lines == init + [last];
      TurnCountSnoc(init, last);
      forall k | 0 <= k < |lines| && lines[k].Turn?
        ensures TurnCount(lines[..k]) < |TurnsOf(lines)| && Reads(lines[k], TurnsOf(lines)[TurnCount(lines[..k])])
      {
        if k < |init| {
          assert lines[..k] == init[..k] && lines[k] == init[k];
        } else {
          assert lines[..k] == init;
        }
      }
    }
  }

  // ---- The price of a turn ----

  /** `y` is the number from `lo` to `hi` nearest to `x`. */
  predicate Nearest(x: int, lo: int, hi: int, y: int) {
    lo <= y <= hi && (y == x || (x < lo && y == lo) || (x > hi && y == hi))
  }

  /** How a turn's tokens are priced: input tokens at the full rate, read from the cache and written to it,
      and output tokens. Counts below nothing count as nothing, those of the cache at most as the input they are
      part of; a missing count of writes is that of all input not read from the cache, if writes are part of it. */
  predicate Priced(u: Usage, r: Rates, full: int, cached: int, written: int, output: int) {
    var input := if u.input < 0 then 0 else u.input;
    && Nearest(u.cached, 0, input, cached)
    && full + cached + (if r.writesInInput then written else 0) == input
    && (match (r.cacheWrite, u.written)
        case (None, _) => written == 0
        case (Some(_), Some(count)) =>
          if r.writesInInput then Nearest(count, 0, input - cached, written)
          else written == if count < 0 then 0 else count
        case (Some(_), None) => written == if r.writesInInput then input - cached else 0)
    && output == if u.output < 0 then 0 else u.output
  }

  /** Each kind of tokens is priced at its own rate per million: cached ones at the input rate if they have no
      rate, written ones at nothing. Past the threshold all input is dearer, and all output. */
  lemma PriceExactly(u: Usage, r: Rates, full: int, cached: int, written: int, output: int)
    requires Priced(u, r, full, cached, written, output)
    ensures var dear := r.threshold.Some? && (if u.input < 0 then 0 else u.input) > r.threshold.value;
            var atCache := if r.cacheRead.Some? then r.cacheRead.value else r.read;
            var atWrite := if r.cacheWrite.Some? then r.cacheWrite.value else 0.0;
            var inputs := full as real * r.read + cached as real * atCache + written as real * atWrite;
            var outputs := output as real * r.write;
            TurnCost(u, r) * 1000000.0 ==
              if dear then inputs * r.inputMultiplier + outputs * r.outputMultiplier else inputs + outputs
  {
    PricedIs(u, r, full, cached, written, output);
    SplitPriced(u, r, full, cached, written, output);
  }

  lemma SplitPriced(u: Usage, r: Rates, full: int, cached: int, written: int, output: int)
    requires InputSplit(u, r) == Split(full, cached, written) && Output(u) == output
    ensures var dear := r.threshold.Some? && (if u.input < 0 then 0 else u.input) > r.threshold.value;
            var atCache := if r.cacheRead.Some? then r.cacheRead.value else r.read;
            var atWrite := if r.cacheWrite.Some? then r.cacheWrite.value else 0.0;
            var inputs := full as real * r.read + cached as real * atCache + written as real * atWrite;
            var outputs := output as real * r.write;
            TurnCost(u, r) * 1000000.0 ==
              if dear then inputs * r.inputMultiplier + outputs * r.outputMultiplier else inputs + outputs
  {
    SplitPrice(full, cached, written, r);
    TurnIs(u, r, InputPrice(u, r), OutputPrice(u, r));
    DearIs(u, r);
  }

  lemma DearIs(u: Usage, r: Rates)
    ensures LongContext(u, r) <==> r.threshold.Some? && (if u.input < 0 then 0 else u.input) > r.threshold.value
  {
  }

  lemma SplitPrice(full: int, cached: int, written: int, r: Rates)
    ensures Split(full, cached, written).Price(r) ==
              full as real * r.read
              + cached as real * (if r.cacheRead.Some? then r.cacheRead.value else r.read)
              + written as real * (if r.cacheWrite.Some? then r.cacheWrite.value else 0.0)
  {
  }

  lemma PricedIs(u: Usage, r: Rates, full: int, cached: int, written: int, output: int)
    requires Priced(u, r, full, cached, written, output)
    ensures InputSplit(u, r) == Split(full, cached, written) && Output(u) == output
  {
  }

  lemma TurnIs(u: Usage, r: Rates, inputs: real, outputs: real)
    requires inputs == InputPrice(u, r) && outputs == OutputPrice(u, r)
    ensures TurnCost(u, r) * 1000000.0 ==
            if LongContext(u, r) then inputs * r.inputMultiplier + outputs * r.outputMultiplier else inputs + outputs
  {
  }

  /** Every turn has such a price. */
  lemma EveryTurnPriced(u: Usage, r: Rates)
    ensures exists full, cached, written, output :: Priced(u, r, full, cached, written, output)
  {
    var s := InputSplit(u, r);
    assert Priced(u, r, s.full, s.cached, s.written, Output(u));
  }

  // ---- Merging ----

  lemma {:induction false} CostsConcat(a: seq<Usage>, b: seq<Usage>, r: Rates)
    ensures TurnCosts(a + b, r) == TurnCosts(a, r) + TurnCosts(b, r)
  {
    if b == [] {
      assert a + b == a;
    } else {
      assert (a + b)[..|a + b| - 1] == a + b[..|b| - 1];
      CostsConcat(a, b[..|b| - 1], r);
    }
  }

  /** Merging adds the costs of logs that carry their turns. A log without turns loses its cost when it is
      merged with one that has them. */
  lemma MergedCost(a: Usage, b: Usage, r: Rates)
    ensures a.turns != [] && b.turns != [] ==> Cost(a.Merge(b), r) == Cost(a, r) + Cost(b, r)
    ensures a.turns != [] && b.turns == [] ==> Cost(a.Merge(b), r) == Cost(a, r)
    ensures a.turns == [] && b.turns != [] ==> Cost(a.Merge(b), r) == Cost(b, r)
  {
    CostsConcat(a.turns, b.turns, r);
    assert a.turns + [] == a.turns && [] + b.turns == b.turns;
  }

  // ---- One request against many ----

  /** Counts as a provider reports them. */
  predicate Reported(u: Usage) {
    u.input >= 0 && 0 <= u.cached <= u.input && u.output >= 0 && Or(u.written, 0) >= 0
  }

  predicate AllReported(turns: seq<Usage>) {
    forall i :: 0 <= i < |turns| ==> Reported(turns[i])
  }

  predicate RatesSound(r: Rates) {
    r.read >= 0.0 && r.write >= 0.0 && CacheRate(r) >= 0.0 && WriteRate(r) >= 0.0
    && r.inputMultiplier >= 1.0 && r.outputMultiplier >= 1.0
  }

  function SumWrites(turns: seq<Usage>, r: Rates): nat {
    if turns == [] then 0 else SumWrites(turns[..|turns| - 1], r) + Writes(turns[|turns| - 1], r)
  }

  function SumSplit(turns: seq<Usage>, r: Rates): Split {
    if turns == [] then Split(0, 0, 0) else SumSplit(turns[..|turns| - 1], r).Plus(InputSplit(turns[|turns| - 1], r))
  }

  function SumInput(turns: seq<Usage>, r: Rates): real {
    if turns == [] then 0.0 else SumInput(turns[..|turns| - 1], r) + InputPrice(turns[|turns| - 1], r)
  }

  function SumOutput(turns: seq<Usage>, r: Rates): real {
    if turns == [] then 0.0 else SumOutput(turns[..|turns| - 1], r) + OutputPrice(turns[|turns| - 1], r)
  }

  lemma PriceAdds(s: Split, t: Split, r: Rates)
    ensures s.Price(r) + t.Price(r) == s.Plus(t).Price(r)
  {
    Distribute(s.full, t.full, r.read);
    Distribute(s.cached, t.cached, CacheRate(r));
    Distribute(s.written, t.written, WriteRate(r));
  }

  lemma Distribute(a: int, b: int, x: real)
    ensures a as real * x + b as real * x == (a + b) as real * x
  {
  }

  lemma {:induction false} TotalReported(turns: seq<Usage>)
    requires AllReported(turns)
    ensures Reported(Total(turns))
  {
    if turns != [] { TotalReported(turns[..|turns| - 1]); }
  }

  lemma MergeTokens(a: Usage, b: Usage)
    requires Reported(a) && Reported(b)
    ensures var t := a.Merge(b).(turns := []);
            && Reported(t) && Input(t) == Input(a) + Input(b) && Fresh(t) == Fresh(a) + Fresh(b)
            && CachedIn(t) == CachedIn(a) + CachedIn(b) && Output(t) == Output(a) + Output(b)
  {
  }

  /** The input of `t` by price, if `w` of its tokens are charged as writes. */
  function SplitWith(t: Usage, w: nat, r: Rates): Split {
    Split(if r.writesInInput then Fresh(t) - w else Fresh(t), CachedIn(t), w)
  }

  lemma SplitStep(a: Usage, w: nat, b: Usage, t: Usage, all: nat, r: Rates)
    requires all == w + Writes(b, r) && Fresh(t) == Fresh(a) + Fresh(b) && CachedIn(t) == CachedIn(a) + CachedIn(b)
    ensures SplitWith(a, w, r).Plus(InputSplit(b, r)) == SplitWith(t, all, r)
  {
  }

  lemma {:induction false} SumSplitIs(turns: seq<Usage>, r: Rates)
    requires AllReported(turns)
    ensures SumSplit(turns, r) == SplitWith(Total(turns), SumWrites(turns, r), r)
  {
    if turns != [] {
      var init, last := turns[..|turns| - 1], turns[|turns| - 1];
      SumSplitIs(init, r);
      TotalReported(init);
      MergeTokens(Total(init), last);
      SplitStep(Total(init), SumWrites(init, r), last, Total(turns), SumWrites(turns, r), r);
    }
  }

  /** What the turns' input costs. */
  lemma {:induction false} SumInputIs(turns: seq<Usage>, r: Rates)
    ensures SumInput(turns, r) == SumSplit(turns, r).Price(r)
  {
    if turns != [] {
      SumInputIs(turns[..|turns| - 1], r);
      PriceAdds(SumSplit(turns[..|turns| - 1], r), InputSplit(turns[|turns| - 1], r), r);
    }
  }

  lemma OutputStep(a: Usage, b: Usage, t: Usage, r: Rates)
    requires Output(t) == Output(a) + Output(b)
    ensures OutputPrice(a, r) + OutputPrice(b, r) == OutputPrice(t, r)
  {
    Distribute(Output(a), Output(b), r.write);
  }

  lemma {:induction false} SumOutputIs(turns: seq<Usage>, r: Rates)
    requires AllReported(turns)
    ensures SumOutput(turns, r) == OutputPrice(Total(turns), r)
  {
    if turns != [] {
      var init, last := turns[..|turns| - 1], turns[|turns| - 1];
      SumOutputIs(init, r);
      TotalReported(init);
      MergeTokens(Total(init), last);
      OutputStep(Total(init), last, Total(turns), r);
    }
  }

  /** Without price tiers, one request for all costs more than the turns by exactly the additional writes
      it is charged for, at the difference of the two rates. */
  lemma UntieredDifference(turns: seq<Usage>, r: Rates)
    requires AllReported(turns) && r.threshold.None?
    ensures TurnCost(Total(turns), r) - TurnCosts(turns, r)
         == WriteDifference(ExtraWrites(turns, r), r) / 1000000.0
  {
    var t := Total(turns);
    UntieredCosts(turns, r);
    UntieredCost(t, r);
    SumOutputIs(turns, r);
    InputDifference(turns, r);
    Subtract(InputPrice(t, r), OutputPrice(t, r), SumInput(turns, r));
  }

  /** How many more tokens one request for all is charged for as written. */
  function ExtraWrites(turns: seq<Usage>, r: Rates): int {
    Writes(Total(turns), r) - SumWrites(turns, r)
  }

  lemma InputDifference(turns: seq<Usage>, r: Rates)
    requires AllReported(turns)
    ensures InputPrice(Total(turns), r) - SumInput(turns, r) == WriteDifference(ExtraWrites(turns, r), r)
  {
    SumInputIs(turns, r);
    SumSplitIs(turns, r);
    SplitDifference(InputSplit(Total(turns), r), SumSplit(turns, r), ExtraWrites(turns, r), r);
  }

  lemma Subtract(a: real, b: real, c: real)
    ensures (a + b) / 1000000.0 - (c + b) / 1000000.0 == (a - c) / 1000000.0
  {
  }

  function WriteDifference(writes: int, r: Rates): real {
    writes as real * (WriteRate(r) - if r.writesInInput then r.read else 0.0)
  }

  lemma UntieredCost(u: Usage, r: Rates)
    requires r.threshold.None?
    ensures TurnCost(u, r) == (InputPrice(u, r) + OutputPrice(u, r)) / 1000000.0
  {
  }

  lemma SplitDifference(s: Split, t: Split, extra: int, r: Rates)
    requires extra == s.written - t.written
    requires s.cached == t.cached && s.full - t.full == if r.writesInInput then t.written - s.written else 0
    ensures s.Price(r) - t.Price(r) == WriteDifference(extra, r)
  {
    Distribute(t.full, s.full - t.full, r.read);
    Distribute(t.written, s.written - t.written, WriteRate(r));
    Distribute(s.written - t.written, t.written - s.written, r.read);
  }

  lemma {:induction false} UntieredCosts(turns: seq<Usage>, r: Rates)
    requires r.threshold.None?
    ensures TurnCosts(turns, r) == (SumInput(turns, r) + SumOutput(turns, r)) / 1000000.0
  {
    if turns != [] { UntieredCosts(turns[..|turns| - 1], r); }
  }

  // ---- With price tiers ----

  /** The turns agree on whether they report cache writes, where that matters. */
  predicate Homogeneous(turns: seq<Usage>, r: Rates) {
    || r.cacheWrite.None? || !r.writesInInput
    || (forall i :: 0 <= i < |turns| ==> turns[i].written.Some?)
    || (forall i :: 0 <= i < |turns| ==> turns[i].written.None?)
  }

  /** One request is not charged for writes at less than what the turns were. */
  predicate WritesFavour(turns: seq<Usage>, r: Rates) {
    || r.cacheWrite.None? || !r.writesInInput
    || WriteRate(r) >= r.read
    || (forall i :: 0 <= i < |turns| ==> Or(turns[i].written, 0) <= Fresh(turns[i]))
  }

  function SumCounts(turns: seq<Usage>): int {
    if turns == [] then 0 else SumCounts(turns[..|turns| - 1]) + Or(turns[|turns| - 1].written, 0)
  }

  function SumFresh(turns: seq<Usage>): nat {
    if turns == [] then 0 else SumFresh(turns[..|turns| - 1]) + Fresh(turns[|turns| - 1])
  }

  lemma {:induction false} TotalCounts(turns: seq<Usage>)
    requires AllReported(turns)
    ensures Or(Total(turns).written, 0) == SumCounts(turns) && Fresh(Total(turns)) == SumFresh(turns)
  {
    if turns != [] {
      TotalCounts(turns[..|turns| - 1]);
      TotalReported(turns[..|turns| - 1]);
      MergeTokens(Total(turns[..|turns| - 1]), turns[|turns| - 1]);
    }
  }

  lemma {:induction false} TotalWritten(turns: seq<Usage>)
    ensures (forall i :: 0 <= i < |turns| ==> turns[i].written.None?) ==> Total(turns).written.None?
    ensures turns != [] && (forall i :: 0 <= i < |turns| ==> turns[i].written.Some?) ==> Total(turns).written.Some?
  {
    if turns != [] { TotalWritten(turns[..|turns| - 1]); }
  }

  lemma {:induction false} SumWritesCounted(turns: seq<Usage>, r: Rates)
    requires AllReported(turns) && r.cacheWrite.Some?
    requires r.writesInInput ==> forall i :: 0 <= i < |turns| ==> turns[i].written.Some?
    ensures SumWrites(turns, r) <= SumCounts(turns) && (r.writesInInput ==> SumWrites(turns, r) <= SumFresh(turns))
    ensures !r.writesInInput || (forall i :: 0 <= i < |turns| ==> Or(turns[i].written, 0) <= Fresh(turns[i])) ==>
              SumWrites(turns, r) == SumCounts(turns)
  {
    if turns != [] { SumWritesCounted(turns[..|turns| - 1], r); }
  }

  lemma {:induction false} SumWritesMissing(turns: seq<Usage>, r: Rates)
    requires r.cacheWrite.Some? && r.writesInInput && forall i :: 0 <= i < |turns| ==> turns[i].written.None?
    ensures SumWrites(turns, r) == SumFresh(turns)
  {
    if turns != [] { SumWritesMissing(turns[..|turns| - 1], r); }
  }

  lemma {:induction false} NoWrites(turns: seq<Usage>, r: Rates)
    requires r.cacheWrite.None?
    ensures SumWrites(turns, r) == 0
  {
    if turns != [] { NoWrites(turns[..|turns| - 1], r); }
  }

  /** What the additional writes of one request cost it is nothing negative. */
  lemma ExtraWritesFavour(turns: seq<Usage>, r: Rates)
    requires AllReported(turns) && Homogeneous(turns, r) && WritesFavour(turns, r)
    ensures WriteDifference(ExtraWrites(turns, r), r) >= 0.0
  {
    var extra := ExtraWrites(turns, r);
    if r.cacheWrite.None? {
      NoWrites(turns, r);
      assert extra == 0;
      FavouredExtra(extra, r);
    } else if turns == [] {
      NothingExtra(r);
      FavouredExtra(extra, r);
    } else if r.writesInInput && forall i :: 0 <= i < |turns| ==> turns[i].written.None? {
      AllMissingExtra(turns, r);
      FavouredExtra(extra, r);
    } else {
      TotalCounts(turns);
      TotalWritten(turns);
      SumWritesCounted(turns, r);
      ExtraCounted(turns, r);
    }
  }

  lemma NothingExtra(r: Rates)
    ensures ExtraWrites([], r) == 0
  {
  }

  lemma AllMissingExtra(turns: seq<Usage>, r: Rates)
    requires AllReported(turns) && r.cacheWrite.Some? && r.writesInInput
    requires forall i :: 0 <= i < |turns| ==> turns[i].written.None?
    ensures ExtraWrites(turns, r) == 0
  {
    TotalMissing(turns, r);
    SumWritesMissing(turns, r);
    NoneExtra(turns, r);
  }

  lemma TotalMissing(turns: seq<Usage>, r: Rates)
    requires AllReported(turns) && r.cacheWrite.Some? && r.writesInInput
    requires forall i :: 0 <= i < |turns| ==> turns[i].written.None?
    ensures Writes(Total(turns), r) == Fresh(Total(turns)) == SumFresh(turns)
  {
    TotalWritten(turns);
    MissingWrites(Total(turns), r);
    TotalCounts(turns);
  }

  lemma NoneExtra(turns: seq<Usage>, r: Rates)
    requires Writes(Total(turns), r) == Fresh(Total(turns)) && SumWrites(turns, r) == SumFresh(turns)
    requires Fresh(Total(turns)) == SumFresh(turns)
    ensures ExtraWrites(turns, r) == 0
  {
  }

  lemma MissingWrites(u: Usage, r: Rates)
    requires r.cacheWrite.Some? && r.writesInInput && u.written.None?
    ensures Writes(u, r) == Fresh(u)
  {
  }

  lemma ExtraCounted(turns: seq<Usage>, r: Rates)
    requires AllReported(turns) && turns != [] && r.cacheWrite.Some? && WritesFavour(turns, r)
    requires r.writesInInput ==> Total(turns).written.Some?
    requires Or(Total(turns).written, 0) == SumCounts(turns) && Fresh(Total(turns)) == SumFresh(turns)
    requires SumWrites(turns, r) <= SumCounts(turns) && (r.writesInInput ==> SumWrites(turns, r) <= SumFresh(turns))
    requires !r.writesInInput || (forall i :: 0 <= i < |turns| ==> Or(turns[i].written, 0) <= Fresh(turns[i])) ==>
               SumWrites(turns, r) == SumCounts(turns)
    ensures WriteDifference(ExtraWrites(turns, r), r) >= 0.0
  {
    var extra := ExtraWrites(turns, r);
    WritesAre(Total(turns), r);
    assert extra >= 0 && (!r.writesInInput ==> extra == 0);
    FavouredExtra(extra, r);
  }

  lemma FavouredExtra(extra: int, r: Rates)
    requires extra == 0 || (extra > 0 && r.writesInInput && WriteRate(r) >= r.read)
    ensures WriteDifference(extra, r) >= 0.0
  {
    if extra > 0 { Positive(extra, WriteRate(r) - r.read); }
  }

  lemma WritesAre(u: Usage, r: Rates)
    requires r.cacheWrite.Some? && (r.writesInInput ==> u.written.Some?)
    ensures Writes(u, r) == if r.writesInInput then MinInt(MaxInt(0, Or(u.written, 0)), Fresh(u))
            else MaxInt(0, Or(u.written, 0))
  {
  }

  lemma Positive(n: int, x: real)
    requires n >= 0 && x >= 0.0
    ensures n as real * x >= 0.0
  {
  }

  lemma {:induction false} PricesNotNegative(turns: seq<Usage>, r: Rates)
    requires RatesSound(r)
    ensures SumInput(turns, r) >= 0.0 && SumOutput(turns, r) >= 0.0
  {
    if turns != [] {
      PricesNotNegative(turns[..|turns| - 1], r);
      PriceNotNegative(turns[|turns| - 1], r);
    }
  }

  lemma PriceNotNegative(u: Usage, r: Rates)
    requires RatesSound(r)
    ensures InputPrice(u, r) >= 0.0 && OutputPrice(u, r) >= 0.0
  {
    var s := InputSplit(u, r);
    Positive(s.full, r.read);
    Positive(s.cached, CacheRate(r));
    Positive(s.written, WriteRate(r));
    Positive(Output(u), r.write);
  }

  function Dollars(input: real, output: real, m: real, n: real): real { (input * m + output * n) / 1000000.0 }

  lemma DollarsAdd(i: real, o: real, i2: real, o2: real, m: real, n: real)
    ensures Dollars(i, o, m, n) + Dollars(i2, o2, m, n) == Dollars(i + i2, o + o2, m, n)
  {
    assert i * m + i2 * m == (i + i2) * m;
    assert o * n + o2 * n == (o + o2) * n;
  }

  lemma DollarsMonotone(i: real, o: real, m: real, n: real, i2: real, m2: real, n2: real)
    requires 0.0 <= i <= i2 && 0.0 <= o && 0.0 <= m <= m2 && 0.0 <= n <= n2
    ensures Dollars(i, o, m, n) <= Dollars(i2, o, m2, n2)
  {
    assert i * m <= i * m2 <= i2 * m2 by { Products(i, m, m2); Products(m2, i, i2); }
    assert o * n <= o * n2 by { Products(o, n, n2); }
  }

  lemma Products(x: real, y: real, z: real)
    requires x >= 0.0 && y <= z
    ensures x * y <= x * z && y * x <= z * x
  {
    assert x * (z - y) >= 0.0;
  }

  /** The turns, each at its own tier, cost at most what they would all at the tier of the whole. */
  lemma {:induction false} TiersAtMost(turns: seq<Usage>, r: Rates, m: real, n: real)
    requires AllReported(turns) && RatesSound(r) && m >= 1.0 && n >= 1.0
    requires forall i :: 0 <= i < |turns| && LongContext(turns[i], r) ==>
               r.inputMultiplier <= m && r.outputMultiplier <= n
    ensures TurnCosts(turns, r) <= Dollars(SumInput(turns, r), SumOutput(turns, r), m, n)
  {
    if turns != [] {
      var init, last := turns[..|turns| - 1], turns[|turns| - 1];
      TiersAtMost(init, r, m, n);
      PriceNotNegative(last, r);
      TurnAtMost(last, r, m, n);
      DollarsAdd(SumInput(init, r), SumOutput(init, r), InputPrice(last, r), OutputPrice(last, r), m, n);
    }
  }

  lemma TurnAtMost(u: Usage, r: Rates, m: real, n: real)
    requires RatesSound(r) && InputPrice(u, r) >= 0.0 && OutputPrice(u, r) >= 0.0 && m >= 1.0 && n >= 1.0
    requires LongContext(u, r) ==> r.inputMultiplier <= m && r.outputMultiplier <= n
    ensures TurnCost(u, r) <= Dollars(InputPrice(u, r), OutputPrice(u, r), m, n)
  {
    DollarsMonotone(InputPrice(u, r), OutputPrice(u, r), if LongContext(u, r) then r.inputMultiplier else 1.0,
                    if LongContext(u, r) then r.outputMultiplier else 1.0, InputPrice(u, r), m, n);
  }

  lemma {:induction false} LongestTurn(turns: seq<Usage>, i: nat)
    requires AllReported(turns) && i < |turns|
    ensures Input(turns[i]) <= Input(Total(turns))
  {
    TotalReported(turns[..|turns| - 1]);
    MergeTokens(Total(turns[..|turns| - 1]), turns[|turns| - 1]);
    if i < |turns| - 1 { LongestTurn(turns[..|turns| - 1], i); }
  }

  lemma FavouredRequest(turns: seq<Usage>, r: Rates)
    requires AllReported(turns) && RatesSound(r) && WriteDifference(ExtraWrites(turns, r), r) >= 0.0
    ensures TurnCosts(turns, r) <= TurnCost(Total(turns), r)
  {
    var t := Total(turns);
    var m := if LongContext(t, r) then r.inputMultiplier else 1.0;
    var n := if LongContext(t, r) then r.outputMultiplier else 1.0;
    forall i | 0 <= i < |turns| && LongContext(turns[i], r) ensures LongContext(t, r) { LongestTurn(turns, i); }
    TiersAtMost(turns, r, m, n);
    PricesNotNegative(turns, r);
    OneRequestInput(turns, r);
    SumOutputIs(turns, r);
    DollarsMonotone(SumInput(turns, r), SumOutput(turns, r), m, n, InputPrice(t, r), m, n);
    OneRequestCost(t, r, m, n);
  }

  lemma OneRequestInput(turns: seq<Usage>, r: Rates)
    requires AllReported(turns) && WriteDifference(ExtraWrites(turns, r), r) >= 0.0
    ensures SumInput(turns, r) <= InputPrice(Total(turns), r)
  {
    InputDifference(turns, r);
  }

  lemma OneRequestCost(t: Usage, r: Rates, m: real, n: real)
    requires m == if LongContext(t, r) then r.inputMultiplier else 1.0
    requires n == if LongContext(t, r) then r.outputMultiplier else 1.0
    ensures TurnCost(t, r) == Dollars(InputPrice(t, r), OutputPrice(t, r), m, n)
  {
  }

  /** The same rates with another long-context tier. */
  function Tiered(r: Rates, threshold: Option<int>, m: real, n: real): Rates {
    r.(threshold := threshold, inputMultiplier := m, outputMultiplier := n)
  }

  lemma {:induction false} TieredWrites(turns: seq<Usage>, r: Rates, threshold: Option<int>, m: real, n: real)
    ensures SumWrites(turns, Tiered(r, threshold, m, n)) == SumWrites(turns, r)
  {
    if turns != [] { TieredWrites(turns[..|turns| - 1], r, threshold, m, n); }
  }

  lemma TieredDifference(turns: seq<Usage>, r: Rates, threshold: Option<int>, m: real, n: real)
    ensures WriteDifference(ExtraWrites(turns, Tiered(r, threshold, m, n)), Tiered(r, threshold, m, n))
         == WriteDifference(ExtraWrites(turns, r), r)
  {
    TieredWrites(turns, r, threshold, m, n);
    var tiered := Tiered(r, threshold, m, n);
    assert Writes(Total(turns), tiered) == Writes(Total(turns), r);
    SameDifference(ExtraWrites(turns, tiered), ExtraWrites(turns, r), tiered, r);
  }

  lemma SameDifference(x: int, y: int, q: Rates, r: Rates)
    requires x == y && WriteRate(q) == WriteRate(r) && q.writesInInput == r.writesInInput && q.read == r.read
    ensures WriteDifference(x, q) == WriteDifference(y, r)
  {
  }

  /** Pricing turn by turn costs at most what one request for the merged totals would, under every
      threshold and all multipliers of at least one, exactly when the additional writes that the one
      request is charged for cost it nothing negative. */
  lemma TurnsCostAtMostOneRequest(turns: seq<Usage>, r: Rates)
    requires AllReported(turns) && RatesSound(r)
    ensures (forall threshold, m, n :: m >= 1.0 && n >= 1.0 ==>
               TurnCosts(turns, Tiered(r, threshold, m, n)) <= TurnCost(Total(turns), Tiered(r, threshold, m, n)))
       <==> WriteDifference(ExtraWrites(turns, r), r) >= 0.0
  {
    if WriteDifference(ExtraWrites(turns, r), r) >= 0.0 {
      forall threshold, m, n | m >= 1.0 && n >= 1.0
        ensures TurnCosts(turns, Tiered(r, threshold, m, n)) <= TurnCost(Total(turns), Tiered(r, threshold, m, n))
      {
        TieredDifference(turns, r, threshold, m, n);
        FavouredRequest(turns, Tiered(r, threshold, m, n));
      }
    } else {
      var flat := Tiered(r, None, 1.0, 1.0);
      TieredDifference(turns, r, None, 1.0, 1.0);
      UntieredDifference(turns, flat);
      assert TurnCosts(turns, flat) > TurnCost(Total(turns), flat);
    }
  }

  /** So it is when the turns agree on reporting cache writes, and writes come besides the input, have no
      price of their own, cost at least as much as reads or fit in the uncached input. */
  lemma UniformTurnsCostAtMost(turns: seq<Usage>, r: Rates)
    requires AllReported(turns) && RatesSound(r) && Homogeneous(turns, r) && WritesFavour(turns, r)
    ensures TurnCosts(turns, r) <= TurnCost(Total(turns), r)
  {
    ExtraWritesFavour(turns, r);
    FavouredRequest(turns, r);
  }

  /** When only some turns report their cache writes, one request for all can cost less: so it does for a
      turn that leaves them out beside one that reports none, wherever writes are part of the input and
      cost more than reads. */
  lemma MixedReportsCostLess(silent: Usage, telling: Usage, r: Rates)
    requires Reported(silent) && silent.written.None? && Fresh(silent) > 0
    requires Reported(telling) && telling.written == Some(0)
    requires r.threshold.None? && r.writesInInput && r.cacheWrite.Some? && WriteRate(r) > r.read
    ensures TurnCosts([silent, telling], r) > TurnCost(Total([silent, telling]), r)
  {
    var turns := [silent, telling];
    UntieredDifference(turns, r);
    MixedExtra(silent, telling, r);
    Below(TurnCost(Total(turns), r), TurnCosts(turns, r), ExtraWrites(turns, r), WriteRate(r) - r.read);
  }

  lemma Below(x: real, y: real, n: int, rate: real)
    requires x - y == n as real * rate / 1000000.0 && n < 0 && rate > 0.0
    ensures x < y
  {
    assert n as real * rate < 0.0;
  }

  lemma MixedExtra(a: Usage, b: Usage, r: Rates)
    requires Reported(a) && a.written.None? && Reported(b) && b.written == Some(0)
    requires r.writesInInput && r.cacheWrite.Some?
    ensures ExtraWrites([a, b], r) + Fresh(a) == 0
  {
    TwoTurns(a, b, r);
    assert Total([a, b]).written == Some(0);
    WritesAre(Total([a, b]), r);
    WritesAre(b, r);
  }

  lemma TwoTurns(a: Usage, b: Usage, r: Rates)
    ensures Total([a, b]) == NOTHING.Merge(a).(turns := []).Merge(b).(turns := [])
    ensures SumWrites([a, b], r) == Writes(a, r) + Writes(b, r)
  {
    assert [a, b][..1] == [a] && [a][..0] == [];
    assert Total([a]) == NOTHING.Merge(a).(turns := []);
    assert SumWrites([a], r) == Writes(a, r);
  }

  // ---- Missing counts ----

  lemma WriteCost(u: Usage, r: Rates, k: int)
    requires Reported(u)
    ensures var v := u.(written := Some(k));
            && Fresh(v) == Fresh(u) && CachedIn(v) == CachedIn(u) && OutputPrice(v, r) == OutputPrice(u, r)
            && LongContext(v, r) == LongContext(u, r)
            && InputPrice(u, r) - InputPrice(v, r) == WriteDifference(Writes(u, r) - Writes(v, r), r)
  {
    var v := u.(written := Some(k));
    SplitDifference(InputSplit(u, r), InputSplit(v, r), Writes(u, r) - Writes(v, r), r);
  }

  /** Whether no reported count of cache writes could cost more than a missing one. */
  predicate MissingIsSafe(u: Usage, r: Rates) {
    r.cacheWrite.None? || if r.writesInInput then Fresh(u) == 0 || WriteRate(r) >= r.read else WriteRate(r) == 0.0
  }

  /** Usage without a cache-write count is never priced below what any reported count would be, exactly when
      writes have no price of their own, are part of the input and cost at least as much as reads, or
      come besides it at no cost. */
  lemma MissingCountExactly(u: Usage, r: Rates)
    requires Reported(u) && u.written.None? && RatesSound(r)
    ensures (forall k :: TurnCost(u.(written := Some(k)), r) <= TurnCost(u, r)) <==> MissingIsSafe(u, r)
  {
    if MissingIsSafe(u, r) {
      forall k ensures TurnCost(u.(written := Some(k)), r) <= TurnCost(u, r) { SafeCount(u, r, k); }
    } else if r.writesInInput {
      DearerCount(u, r, 0);
    } else {
      MissingCountBesidesInput(u, r, 1);
    }
  }

  lemma SafeCount(u: Usage, r: Rates, k: int)
    requires Reported(u) && u.written.None? && RatesSound(r) && MissingIsSafe(u, r)
    ensures TurnCost(u.(written := Some(k)), r) <= TurnCost(u, r)
  {
    var v := u.(written := Some(k));
    WriteCost(u, r, k);
    SafeDifference(u, r, k);
    PriceNotNegative(v, r);
    var m := if LongContext(u, r) then r.inputMultiplier else 1.0;
    var n := if LongContext(u, r) then r.outputMultiplier else 1.0;
    DollarsMonotone(InputPrice(v, r), OutputPrice(u, r), m, n, InputPrice(u, r), m, n);
  }

  lemma SafeDifference(u: Usage, r: Rates, k: int)
    requires Reported(u) && u.written.None? && RatesSound(r) && MissingIsSafe(u, r)
    ensures WriteDifference(Writes(u, r) - Writes(u.(written := Some(k)), r), r) >= 0.0
  {
    var more := Writes(u, r) - Writes(u.(written := Some(k)), r);
    if r.writesInInput && more != 0 { Positive(more, WriteRate(r) - r.read); }
  }

  lemma DearerCount(u: Usage, r: Rates, k: int)
    requires Reported(u) && u.written.None? && RatesSound(r) && r.cacheWrite.Some? && r.writesInInput
    requires WriteRate(r) < r.read && MaxInt(0, k) < Fresh(u)
    ensures TurnCost(u, r) < TurnCost(u.(written := Some(k)), r)
  {
    var v := u.(written := Some(k));
    WriteCost(u, r, k);
    var more := Writes(u, r) - Writes(v, r);
    MissingWrites(u, r);
    WritesAre(v, r);
    assert Writes(v, r) == MaxInt(0, k);
    NegativeDifference(more, r);
    DearerTurn(u, v, r);
  }

  lemma NegativeDifference(writes: int, r: Rates)
    requires if r.writesInInput then writes > 0 && WriteRate(r) < r.read else writes < 0 && WriteRate(r) > 0.0
    ensures WriteDifference(writes, r) < 0.0
  {
    var rate := WriteRate(r) - if r.writesInInput then r.read else 0.0;
    if writes > 0 { assert writes as real * -rate > 0.0; } else { assert (-writes) as real * rate > 0.0; }
  }

  /** Where writes are part of the input and cost at least as much as reads, usage without a cache-write
      count is never priced below what any reported count would be. */
  lemma MissingCountIsSafe(u: Usage, r: Rates, k: int)
    requires Reported(u) && u.written.None? && RatesSound(r)
    requires r.cacheWrite.None? || (r.writesInInput && WriteRate(r) >= r.read)
    ensures TurnCost(u.(written := Some(k)), r) <= TurnCost(u, r)
  {
    MissingCountExactly(u, r);
  }

  /** Where writes come besides the input, a missing count is priced as none, below any reported one. */
  lemma MissingCountBesidesInput(u: Usage, r: Rates, k: int)
    requires Reported(u) && u.written.None? && RatesSound(r) && !r.writesInInput && WriteRate(r) > 0.0 && k > 0
    ensures TurnCost(u, r) < TurnCost(u.(written := Some(k)), r)
  {
    var v := u.(written := Some(k));
    WriteCost(u, r, k);
    assert Writes(u, r) - Writes(v, r) == -k;
    NegativeDifference(-k, r);
    DearerTurn(u, v, r);
  }

  lemma DearerTurn(u: Usage, v: Usage, r: Rates)
    requires InputPrice(u, r) < InputPrice(v, r) && OutputPrice(u, r) == OutputPrice(v, r)
    requires LongContext(u, r) == LongContext(v, r) && RatesSound(r)
    ensures TurnCost(u, r) < TurnCost(v, r)
  {
    var m := if LongContext(u, r) then r.inputMultiplier else 1.0;
    var n := if LongContext(u, r) then r.outputMultiplier else 1.0;
    OneRequestCost(u, r, m, n);
    OneRequestCost(v, r, m, n);
    MoreDollars(InputPrice(u, r), InputPrice(v, r), OutputPrice(u, r), m, n);
  }

  lemma MoreDollars(i: real, j: real, o: real, m: real, n: real)
    requires i < j && m >= 1.0
    ensures Dollars(i, o, m, n) < Dollars(j, o, m, n)
  {
    assert (j - i) * m > 0.0;
    assert j * m - i * m == (j - i) * m;
  }

  // ---- Claude streams ----

  ghost predicate DistinctIds(messages: seq<(string, Tokens)>) {
    forall i, j :: 0 <= i < j < |messages| ==> messages[i].0 != messages[j].0
  }

  lemma {:induction false} SnapshotIs(messages: seq<(string, Tokens)>, id: string, t: Tokens)
    requires DistinctIds(messages)
    ensures DistinctIds(Snapshot(messages, id, t))
    ensures forall k :: k in Snapshot(messages, id, t) <==> k == (id, t) || (k in messages && k.0 != id)
  {
    if messages != [] {
      var rest := messages[1..];
      assert forall i :: 0 < i < |messages| ==> messages[i] == rest[i - 1];
      if messages[0].0 != id { SnapshotIs(rest, id, t); }
    }
  }

  /** How many messages had no id. */
  function Anonymous(events: seq<Event>): nat {
    if events == [] then 0
    else (if events[0].Message? && events[0].id == "" then 1 else 0) + Anonymous(events[1..])
  }

  lemma {:induction false} AnonymousSnoc(events: seq<Event>, e: Event)
    ensures Anonymous(events + [e]) == Anonymous(events) + if e.Message? && e.id == "" then 1 else 0
  {
    if events == [] {
      assert (events + [e])[1..] == [];
    } else {
      assert (events + [e])[1..] == events[1..] + [e];
      AnonymousSnoc(events[1..], e);
    }
  }

  lemma {:induction false} AnonymousIs(events: seq<Event>)
    ensures GatherAll(events).anonymous == Anonymous(events)
  {
    if events != [] {
      AnonymousIs(events[..|events| - 1]);
      AnonymousSnoc(events[..|events| - 1], events[|events| - 1]);
      assert events == events[..|events| - 1] + [events[|events| - 1]];
    }
  }

  lemma {:induction false} AnonymousGrows(events: seq<Event>, i: nat, j: nat)
    requires i < j <= |events| && events[i].Message? && events[i].id == ""
    ensures Anonymous(events[..i]) < Anonymous(events[..j])
    decreases j
  {
    assert events[..j] == events[..j - 1] + [events[j - 1]];
    AnonymousSnoc(events[..j - 1], events[j - 1]);
    if i < j - 1 { AnonymousGrows(events, i, j - 1); }
  }

  /** The name of the message at position `k`: its id, or for one without, the number of those before it. */
  function GoesBy(events: seq<Event>, k: nat): string
    requires k < |events| && events[k].Message?
  {
    match events[k].id
    case "" => "_anon_" + UniqueIds.Decimal(Anonymous(events[..k]))
    case id => id
  }

  /** Two messages without ids never go by one name. */
  lemma AnonymousApart(events: seq<Event>, i: nat, j: nat)
    requires i < j < |events| && events[i].Message? && events[i].id == "" && events[j].Message? && events[j].id == ""
    ensures GoesBy(events, i) != GoesBy(events, j)
  {
    AnonymousGrows(events, i, j);
    var m, n := Anonymous(events[..i]), Anonymous(events[..j]);
    assert GoesBy(events, i)[6..] == UniqueIds.Decimal(m) && GoesBy(events, j)[6..] == UniqueIds.Decimal(n);
    if UniqueIds.Decimal(m) == UniqueIds.Decimal(n) { UniqueIds.DecimalInjective(m, n); }
  }

  /** The messages that were streamed, under the names they go by. */
  function Named(events: seq<Event>): seq<(string, Tokens)> {
    if events == [] then []
    else
      var k := |events| - 1;
      if events[k].Message? then Named(events[..k]) + [(GoesBy(events, k), events[k].tokens)] else Named(events[..k])
  }

  ghost predicate LastFor(named: seq<(string, Tokens)>, m: (string, Tokens)) {
    exists i :: 0 <= i < |named| && named[i] == m && forall j :: i < j < |named| ==> named[j].0 != m.0
  }

  lemma LastSnoc(named: seq<(string, Tokens)>, last: (string, Tokens), m: (string, Tokens))
    ensures LastFor(named + [last], m) <==> m == last || (LastFor(named, m) && m.0 != last.0)
  {
    var all := named + [last];
    if m == last { assert all[|named|] == m; }
    if LastFor(named, m) && m.0 != last.0 {
      var i :| 0 <= i < |named| && named[i] == m && forall j :: i < j < |named| ==> named[j].0 != m.0;
      assert all[i] == m && forall j :: i < j < |all| ==> all[j].0 != m.0;
    }
    if LastFor(all, m) && m != last {
      var i :| 0 <= i < |all| && all[i] == m && forall j :: i < j < |all| ==> all[j].0 != m.0;
      assert named[i] == m && all[|named|] == last;
      assert forall j :: i < j < |named| ==> named[j] == all[j];
    }
  }

  /** Each streamed message is counted once, with its last snapshot, however many snapshots there were. */
  lemma {:induction false} LastSnapshotsCounted(events: seq<Event>)
    ensures DistinctIds(GatherAll(events).messages)
    ensures forall m :: m in GatherAll(events).messages <==> LastFor(Named(events), m)
  {
    if events != [] {
      var init, e := events[..|events| - 1], events[|events| - 1];
      LastSnapshotsCounted(init);
      if e.Message? {
        AnonymousIs(init);
        var g, name := GatherAll(init), GoesBy(events, |init|);
        SnapshotIs(g.messages, name, e.tokens);
        forall m ensures LastFor(Named(events), m) <==>
              m == (name, e.tokens) || (LastFor(Named(init), m) && m.0 != name) {
          LastSnoc(Named(init), (name, e.tokens), m);
        }
      }
    }
  }

  /** Whatever else was streamed, the last typed result decides; without one, the first bare one does. */
  lemma {:induction false} LastResultDecides(events: seq<Event>, i: nat)
    requires i < |events|
    requires || (events[i].Result? && forall j :: i < j < |events| ==> !events[j].Result?)
             || (events[i].Bare? && (forall j :: 0 <= j < |events| ==> !events[j].Result?)
                 && forall j :: 0 <= j < i ==> !events[j].Bare?)
    ensures GatherAll(events).result == Some(events[i].report)
    ensures ClaudeUsage(GatherAll(events)) == ReportUsage(events[i].report)
  {
    if i < |events| - 1 {
      LastResultDecides(events[..|events| - 1], i);
    } else if events[i].Bare? {
      NoResultYet(events[..|events| - 1]);
    }
  }

  lemma {:induction false} NoResultYet(events: seq<Event>)
    requires forall j :: 0 <= j < |events| ==> !events[j].Result? && !events[j].Bare?
    ensures GatherAll(events).result.None?
  {
    if events != [] { NoResultYet(events[..|events| - 1]); }
  }

  datatype Count = InputCount | CreatedCount | ReadCount | OutputCount

  function Take(t: Tokens, count: Count): int {
    match count
    case InputCount => t.input case CreatedCount => t.created case ReadCount => t.read case OutputCount => t.output
  }

  function SumOf(ts: seq<Tokens>, count: Count): int {
    if ts == [] then 0 else Take(ts[0], count) + SumOf(ts[1..], count)
  }

  ghost predicate NoneNegative(t: Tokens) {
    forall count :: Take(t, count) >= 0
  }

  lemma ValidIs(t: Tokens)
    ensures t.Valid() <==> NoneNegative(t)
  {
    assert Take(t, InputCount) == t.input && Take(t, CreatedCount) == t.created;
    assert Take(t, ReadCount) == t.read && Take(t, OutputCount) == t.output;
  }

  lemma {:induction false} SumOfSnoc(ts: seq<Tokens>, t: Tokens, count: Count)
    ensures SumOf(ts + [t], count) == SumOf(ts, count) + Take(t, count)
  {
    if ts == [] {
      assert (ts + [t])[1..] == [];
    } else {
      assert (ts + [t])[1..] == ts[1..] + [t];
      SumOfSnoc(ts[1..], t, count);
    }
  }

  function CountersOf(models: seq<Model>): (ts: seq<Tokens>)
    requires forall i :: 0 <= i < |models| ==> models[i].Complete?
    ensures |ts| == |models| && forall i :: 0 <= i < |models| ==> ts[i] == models[i].tokens
  {
    seq(|models|, i requires 0 <= i < |models| => models[i].tokens)
  }

  lemma {:induction false} ModelTokensAre(models: seq<Model>, count: Count)
    requires forall i :: 0 <= i < |models| ==> models[i].Complete?
    ensures Take(ModelTokens(models), count) == SumOf(CountersOf(models), count)
  {
    if models != [] {
      var init, last := models[..|models| - 1], models[|models| - 1];
      ModelTokensAre(init, count);
      assert CountersOf(models) == CountersOf(init) + [last.tokens];
      SumOfSnoc(CountersOf(init), last.tokens, count);
    }
  }

  /** A result's usage is, count by count, the sum of its models' counters when there are any and all are
      complete, and its own otherwise; it is refused exactly when its models are no mapping of records, or its
      turns or a count that is used are negative. */
  lemma ReportExactly(r: Report, count: Count)
    ensures var p := ReportUsage(r);
            var ofModels := r.models.Some? && |r.models.value| > 0
                            && forall i :: 0 <= i < |r.models.value| ==> r.models.value[i].Complete?;
            && (p.Usable? <==>
                  && r.models.Some? && r.turns >= 0
                  && if ofModels then forall i :: 0 <= i < |r.models.value| ==> NoneNegative(r.models.value[i].tokens)
                     else NoneNegative(r.usage))
            && (p.Usable? ==>
                  && p.turns == r.turns && p.identified
                  && Take(p.tokens, count)
                     == if ofModels then SumOf(CountersOf(r.models.value), count) else Take(r.usage, count))
  {
    ValidIs(r.usage);
    if r.models.Some? && AllComplete(r.models.value) {
      ModelTokensAre(r.models.value, count);
      forall i | 0 <= i < |r.models.value|
        ensures r.models.value[i].tokens.Valid() <==> NoneNegative(r.models.value[i].tokens)
      {
        ValidIs(r.models.value[i].tokens);
      }
    }
  }

  function TokensOf(messages: seq<(string, Tokens)>): (ts: seq<Tokens>)
    ensures |ts| == |messages| && forall i :: 0 <= i < |messages| ==> ts[i] == messages[i].1
  {
    seq(|messages|, i requires 0 <= i < |messages| => messages[i].1)
  }

  lemma {:induction false} SumTokensAre(messages: seq<(string, Tokens)>, count: Count)
    ensures Take(SumTokens(messages), count) == SumOf(TokensOf(messages), count)
  {
    if messages != [] {
      var init, last := messages[..|messages| - 1], messages[|messages| - 1];
      SumTokensAre(init, count);
      assert TokensOf(messages) == TokensOf(init) + [last.1];
      SumOfSnoc(TokensOf(init), last.1, count);
    }
  }

  lemma {:induction false} AllIdentified(events: seq<Event>)
    ensures Anonymous(events) == 0 <==> forall k :: 0 <= k < |events| && events[k].Message? ==> events[k].id != ""
  {
    if events != [] {
      AllIdentified(events[1..]);
      assert forall k :: 0 < k < |events| ==> events[k] == events[1..][k - 1];
    }
  }

  /** Without a result, the usage is, count by count, the sum over the messages of their last snapshots, refused
      exactly when one of these counts something negative; each message is a turn. */
  lemma StreamExactly(events: seq<Event>, count: Count)
    requires forall k :: 0 <= k < |events| ==> !events[k].Result? && !events[k].Bare?
    ensures var p, messages := ClaudeUsage(GatherAll(events)), GatherAll(events).messages;
            && (p.Usable? <==> forall i :: 0 <= i < |messages| ==> NoneNegative(messages[i].1))
            && (p.Usable? ==>
                  && Take(p.tokens, count) == SumOf(TokensOf(messages), count) && p.turns == |messages|
                  && (p.identified <==> forall k :: 0 <= k < |events| && events[k].Message? ==> events[k].id != ""))
  {
    var messages := GatherAll(events).messages;
    NoResultYet(events);
    SumTokensAre(messages, count);
    AnonymousIs(events);
    AllIdentified(events);
    forall i | 0 <= i < |messages| ensures messages[i].1.Valid() <==> NoneNegative(messages[i].1) {
      ValidIs(messages[i].1);
    }
  }

  /** Usage taken from a result counts nothing negative, whichever of its two views was used. */
  lemma ReportNonnegative(r: Report)
    ensures ReportUsage(r).Usable? ==> ReportUsage(r).tokens.Valid()
  {
    if r.models.Some? && AllComplete(r.models.value) { ValidSum(r.models.value); }
  }

  lemma {:induction false} ValidSum(models: seq<Model>)
    requires forall i :: 0 <= i < |models| ==> models[i].Complete?
    ensures (forall i :: 0 <= i < |models| ==> models[i].tokens.Valid()) ==> ModelTokens(models).Valid()
  {
    if models != [] { ValidSum(models[..|models| - 1]); }
  }
}
