/** What a check of a tracker comes to, told from the limits and counters of its scopes. */
module BudgetChecks {
  import opened Wrappers
  import opened BudgetTree
  import opened Budget
  import opened BudgetWarnings

  /** A limit is spent when it is reached; one of nothing, only when something was used. */
  predicate Spent(used: real, limit: Option<real>) {
    limit.Some? && ((limit.value > 0.0 && used >= limit.value) || (limit.value == 0.0 && used > 0.0))
  }

  /** A limit above nothing is nearly spent from nine tenths on. */
  predicate NearlySpent(used: real, limit: Option<real>) {
    limit.Some? && limit.value > 0.0 && used * 10.0 >= limit.value * 9.0
  }

  /** The time since a scope began, without the pauses. */
  function Elapsed(t: Tracker, now: real): real
    reads t`counters
  {
    if now > t.startedAt + t.counters.paused then now - t.startedAt - t.counters.paused else 0.0
  }

  function Limit(limit: Option<int>): Option<real> {
    match limit case None => None case Some(n) => Some(n as real)
  }

  lemma ReadingIs(r: Reading)
    ensures r.Exhausted() <==> Spent(r.used, r.limit)
    ensures r.Crossed() <==> NearlySpent(r.used, r.limit)
  {
  }

  lemma ChainUp(t: Tracker, i: nat)
    requires t.Placed() && t.parent != null && i < |t.parent.Chain()|
    ensures |t.Chain()| == |t.parent.Chain()| + 1 && t.Chain()[i + 1] == t.parent.Chain()[i]
  {
  }

  /** A scope is in subscription mode exactly when it or some scope above it is. */
  lemma {:induction false} SubscriptionIs(t: Tracker)
    requires t.Placed()
    ensures t.IsSubscription() <==> exists i :: 0 <= i < |t.Chain()| && t.Chain()[i].subscription
    decreases t.depth
  {
    if t.subscription { assert t.Chain()[0].subscription; }
    if t.parent != null {
      SubscriptionIs(t.parent);
      if t.parent.IsSubscription() {
        var i :| 0 <= i < |t.parent.Chain()| && t.parent.Chain()[i].subscription;
        ChainUp(t, i);
      }
      if i :| 0 <= i < |t.Chain()| && t.Chain()[i].subscription {
        if i > 0 { ChainUp(t, i - 1); }
      }
    }
  }

  /** A use and its limit that a check compares in one scope: money in the accounting mode the scope is in. */
  ghost predicate Compares(t: Tracker, now: real, kind: Kind, used: real, limit: Option<real>)
    requires t.Placed()
    reads t.Scopes()`counters, t.Scopes()`subscription
  {
    && t.spec.Some?
    && match kind
       case UsdKind => !t.IsSubscription() && used == t.counters.usd && limit == t.spec.value.maxUsd
       case ApiUsdKind => t.IsSubscription() && used == t.counters.apiUsd && limit == t.spec.value.maxUsd
       case TokenKind => used == t.counters.tokens as real && limit == Limit(t.spec.value.maxTokens)
       case WallclockKind => used == Elapsed(t, now) && limit == t.spec.value.maxWallclock
       case ToolCallKind => used == t.counters.toolCalls as real && limit == Limit(t.spec.value.maxToolCalls)
  }

  lemma OwnLooksAre(t: Tracker, now: real, l: Look<Tracker>)
    requires t.Placed()
    ensures l in t.OwnLooks(now) <==> l.node == t && Compares(t, now, l.reading.kind, l.reading.used, l.reading.limit)
  {
    if t.spec.Some? {
      var rs := Readings(t.spec.value, t.counters, t.IsSubscription(), t.WallclockS(now));
      var looks := At(t, rs);
      assert t.OwnLooks(now) == looks && |rs| == 4;
      assert l in looks <==> l == looks[0] || l == looks[1] || l == looks[2] || l == looks[3];
    }
  }

  /** A look is at a scope of the chain, at the time the clock shows there. */
  ghost predicate LooksAt(t: Tracker, clock: nat -> real, k: nat, l: Look<Tracker>, i: nat)
    requires t.Placed()
    reads t.Scopes()
  {
    t.ChainStep(if i < |t.Chain()| then i else 0);
    i < |t.Chain()| && l.node == t.Chain()[i]
    && Compares(t.Chain()[i], clock(k + i), l.reading.kind, l.reading.used, l.reading.limit)
  }

  lemma LookUp(t: Tracker, clock: nat -> real, k: nat, l: Look<Tracker>, i: nat)
    requires t.Placed() && t.parent != null
    ensures LooksAt(t, clock, k, l, i + 1) <==> LooksAt(t.parent, clock, k + 1, l, i)
  {
    if i < |t.parent.Chain()| { ChainUp(t, i); }
  }

  lemma {:induction false} LookFound(t: Tracker, clock: nat -> real, k: nat, l: Look<Tracker>) returns (i: nat)
    requires t.Placed() && l in t.Looks(clock, k)
    ensures LooksAt(t, clock, k, l, i)
    decreases t.depth
  {
    if l in t.OwnLooks(clock(k)) {
      OwnLooksAre(t, clock(k), l);
      i := 0;
    } else {
      assert t.parent != null && l in t.parent.Looks(clock, k + 1);
      i := LookFound(t.parent, clock, k + 1, l);
      LookUp(t, clock, k, l, i);
      i := i + 1;
    }
  }

  lemma {:induction false} LookMade(t: Tracker, clock: nat -> real, k: nat, l: Look<Tracker>, i: nat)
    requires t.Placed() && LooksAt(t, clock, k, l, i)
    ensures l in t.Looks(clock, k)
    decreases t.depth
  {
    if i == 0 {
      OwnLooksAre(t, clock(k), l);
    } else {
      LookUp(t, clock, k, l, i - 1);
      LookMade(t.parent, clock, k + 1, l, i - 1);
    }
  }

  /** The order in which the kinds are compared in a scope. */
  function Rank(kind: Kind): nat {
    match kind case UsdKind => 0 case ApiUsdKind => 0 case TokenKind => 1 case WallclockKind => 2 case ToolCallKind => 3
  }

  /** From the scope upwards, and in each scope kind by kind. */
  ghost predicate Before(l: Look<Tracker>, m: Look<Tracker>) {
    l.node.depth > m.node.depth || (l.node == m.node && Rank(l.reading.kind) < Rank(m.reading.kind))
  }

  lemma OwnOrdered(t: Tracker, now: real, i: nat, j: nat)
    requires t.Placed() && i < j < |t.OwnLooks(now)|
    ensures Before(t.OwnLooks(now)[i], t.OwnLooks(now)[j])
  {
    var rs := Readings(t.spec.value, t.counters, t.IsSubscription(), t.WallclockS(now));
    assert |rs| == 4 && t.OwnLooks(now) == At(t, rs);
  }

  lemma {:induction false} LooksOrdered(t: Tracker, clock: nat -> real, k: nat, i: nat, j: nat)
    requires t.Placed() && i < j < |t.Looks(clock, k)|
    ensures Before(t.Looks(clock, k)[i], t.Looks(clock, k)[j])
    decreases t.depth
  {
    var own, looks := t.OwnLooks(clock(k)), t.Looks(clock, k);
    if j < |own| {
      OwnOrdered(t, clock(k), i, j);
    } else {
      var above := t.parent.Looks(clock, k + 1);
      assert looks[j] == above[j - |own|];
      if i < |own| {
        OwnLooksAre(t, clock(k), own[i]);
        LookDeeper(t, clock, k, looks[j]);
      } else {
        LooksOrdered(t.parent, clock, k + 1, i - |own|, j - |own|);
      }
    }
  }

  lemma LookDeeper(t: Tracker, clock: nat -> real, k: nat, l: Look<Tracker>)
    requires t.Placed() && t.parent != null && l in t.parent.Looks(clock, k + 1)
    ensures l.node.depth < t.depth
  {
    var at := LookFound(t.parent, clock, k + 1, l);
  }

  /** In the i-th scope of the chain this use and limit are compared. */
  ghost predicate ComparesAt(t: Tracker, clock: nat -> real, i: nat, kind: Kind, used: real, limit: Option<real>)
    requires t.Placed()
    reads t.Scopes()
  {
    i < |t.Chain()| && LooksAt(t, clock, 0, Look(t.Chain()[i], Reading(kind, used, limit)), i)
  }

  lemma LooksSpent(t: Tracker, clock: nat -> real)
    requires t.Placed()
    ensures (exists q :: 0 <= q < |t.Looks(clock, 0)| && t.Looks(clock, 0)[q].reading.Exhausted())
            <==> exists i: nat, kind, used, limit :: ComparesAt(t, clock, i, kind, used, limit) && Spent(used, limit)
  {
    var looks := t.Looks(clock, 0);
    if q :| 0 <= q < |looks| && looks[q].reading.Exhausted() {
      var i := LookFound(t, clock, 0, looks[q]);
      ReadingIs(looks[q].reading);
      var r := looks[q].reading;
      assert looks[q] == Look(t.Chain()[i], Reading(r.kind, r.used, r.limit));
      assert ComparesAt(t, clock, i, r.kind, r.used, r.limit);
    }
    if i: nat, kind, used, limit :| ComparesAt(t, clock, i, kind, used, limit) && Spent(used, limit) {
      var l := Look(t.Chain()[i], Reading(kind, used, limit));
      LookMade(t, clock, 0, l, i);
      ReadingIs(l.reading);
      var q :| 0 <= q < |looks| && looks[q] == l;
    }
  }

  /** A check raises exactly when overruns are not allowed and some scope of the chain has spent a limit. */
  lemma CheckRaises(t: Tracker, all: set<Tracker>, clock: nat -> real, overrun: bool)
    requires t.Placed()
    ensures t.CheckScan(all, clock, overrun).raised.Some? <==>
              !overrun && exists i: nat, kind, used, limit ::
                ComparesAt(t, clock, i, kind, used, limit) && Spent(used, limit)
  {
    RaisesFirst(Scan(Warned(all), [], None), t.Looks(clock, 0), overrun);
    LooksSpent(t, clock);
  }

  /** It names a limit that is spent, the first one from the scope upwards: money, tokens, wallclock and tool
      calls in each. */
  lemma CheckNames(t: Tracker, all: set<Tracker>, clock: nat -> real, overrun: bool)
    requires t.Placed() && t.CheckScan(all, clock, overrun).raised.Some?
    ensures var l := t.CheckScan(all, clock, overrun).raised.value;
            && Spent(l.reading.used, l.reading.limit)
            && (exists i: nat :: LooksAt(t, clock, 0, l, i))
            && forall m, i: nat :: LooksAt(t, clock, 0, m, i) && Before(m, l) ==>
                 !Spent(m.reading.used, m.reading.limit)
  {
    var looks, l := t.Looks(clock, 0), t.CheckScan(all, clock, overrun).raised.value;
    RaisesFirst(Scan(Warned(all), [], None), looks, overrun);
    var q :| 0 <= q < |looks| && looks[q] == l && l.reading.Exhausted()
             && forall j :: 0 <= j < q ==> !looks[j].reading.Exhausted();
    ReadingIs(l.reading);
    var i := LookFound(t, clock, 0, l);
    forall m, at: nat | LooksAt(t, clock, 0, m, at) && Before(m, l) ensures !Spent(m.reading.used, m.reading.limit) {
      LookMade(t, clock, 0, m, at);
      var j :| 0 <= j < |looks| && looks[j] == m;
      if q < j { LooksOrdered(t, clock, 0, q, j); }
      ReadingIs(m.reading);
    }
  }

  /** A check that does not raise reports exactly the limits newly found nearly spent, each once. */
  lemma CheckWarns(t: Tracker, all: set<Tracker>, clock: nat -> real, overrun: bool, l: Look<Tracker>)
    requires t.Placed() && t.CheckScan(all, clock, overrun).raised.None?
    ensures var warnings := t.CheckScan(all, clock, overrun).warnings;
            && Distinct(warnings)
            && (l in warnings ==>
                  && NearlySpent(l.reading.used, l.reading.limit) && KeyOf(l) !in Warned(all)
                  && exists i: nat :: LooksAt(t, clock, 0, l, i))
            && ((exists i: nat :: LooksAt(t, clock, 0, l, i)) && NearlySpent(l.reading.used, l.reading.limit) ==>
                  KeyOf(l) in Warned(all) || KeyOf(l) in KeysOf(warnings))
  {
    var s, looks := Scan(Warned(all), [], None), t.Looks(clock, 0);
    assert KeysOf<Tracker>([]) == {};
    ScanReports(Warned(all), s, looks, overrun);
    ReadingIs(l.reading);
    var r := t.CheckScan(all, clock, overrun);
    if l in r.warnings {
      WarningsFromLooks(s, looks, overrun, l);
      assert KeyOf(l) in KeysOf(r.warnings);
      var i := LookFound(t, clock, 0, l);
    }
    if i: nat :| LooksAt(t, clock, 0, l, i) {
      LookMade(t, clock, 0, l, i);
      var q :| 0 <= q < |looks| && looks[q] == l;
    }
  }

  lemma {:induction false} WarningsFromLooks<T>(s: Scan<T>, looks: seq<Look<T>>, overrun: bool, l: Look<T>)
    requires l in ScanFrom(s, looks, overrun).warnings
    ensures l in s.warnings || l in looks
    decreases looks
  {
    if looks != [] && s.raised.None? {
      WarningsFromLooks(Seen(s, looks[0], overrun), looks[1..], overrun, l);
    }
  }

  predicate HasTime(t: Tracker) {
    t.spec.Some? && t.spec.value.maxWallclock.Some?
  }

  /** The time a scope has left, not below nothing. */
  function TimeLeft(t: Tracker, now: real): real
    requires HasTime(t)
    reads t`counters
  {
    if t.spec.value.maxWallclock.value > Elapsed(t, now) then t.spec.value.maxWallclock.value - Elapsed(t, now) else 0.0
  }

  lemma LeftIs(t: Tracker, now: real)
    ensures HasTime(t) <==> t.LeftS(now).Some?
    ensures HasTime(t) ==> Clamped(t.LeftS(now).value) == TimeLeft(t, now)
  {
  }

  /** The time left is the least that a scope with a time limit has left; there is no figure exactly when no
      scope of the chain has such a limit. */
  lemma RemainingExactly(chain: seq<Tracker>, clock: nat -> real, left: Option<real>)
    requires Least(chain, clock, left)
    ensures left.Some? <==> exists i :: 0 <= i < |chain| && HasTime(chain[i])
    ensures left.Some? ==>
              forall i :: 0 <= i < |chain| && HasTime(chain[i]) ==> left.value <= TimeLeft(chain[i], clock(i))
    ensures left.Some? ==>
              exists i :: 0 <= i < |chain| && HasTime(chain[i]) && left.value == TimeLeft(chain[i], clock(i))
  {
    forall i | 0 <= i < |chain|
      ensures HasTime(chain[i]) <==> chain[i].LeftS(clock(i)).Some?
      ensures HasTime(chain[i]) ==> Clamped(chain[i].LeftS(clock(i)).value) == TimeLeft(chain[i], clock(i))
    {
      LeftIs(chain[i], clock(i));
    }
    if left.Some? {
      var i :| 0 <= i < |chain| && chain[i].LeftS(clock(i)).Some?
               && left.value == Clamped(chain[i].LeftS(clock(i)).value);
      assert HasTime(chain[i]) && left.value == TimeLeft(chain[i], clock(i));
    }
  }

  /** What is charged for a spend, and when it is refused: real money in subscription mode unless there is none,
      and an API-equivalent amount below nothing; tokens, tool calls and pauses never. */
  lemma SpendExactly(spend: Spend, subscription: bool)
    ensures spend.Refused(subscription) <==>
              (spend.Usd? && spend.Delta().usd != 0.0 && subscription) || (spend.Api? && spend.Delta().apiUsd < 0.0)
    ensures var d := spend.Delta();
            match spend
            case Usd(a) => d.usd == a && d.apiUsd == d.paused == 0.0 && d.tokens == d.toolCalls == 0
            case Api(a) => d.apiUsd == a && d.usd == d.paused == 0.0 && d.tokens == d.toolCalls == 0
            case Tokens(n) => d.tokens == n && d.usd == d.apiUsd == d.paused == 0.0 && d.toolCalls == 0
            case ToolCalls(n) => d.toolCalls == n && d.usd == d.apiUsd == d.paused == 0.0 && d.tokens == 0
            case Paused(t) => d.paused == t && d.usd == d.apiUsd == 0.0 && d.tokens == d.toolCalls == 0
  {
  }
}
