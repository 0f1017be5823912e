/** Budget trackers: spending bubbles up the parents, checks read every scope on the way to the root. */
module Budget {
  import opened Wrappers
  import opened BudgetTree

  datatype Kind = UsdKind | ApiUsdKind | TokenKind | WallclockKind | ToolCallKind

  /** Limits of a scope; None is no limit, and so is a negative one. */
  datatype Spec = Spec(maxUsd: Option<real>, maxTokens: Option<int>, maxWallclock: Option<real>,
      maxToolCalls: Option<int>)

  datatype Reading = Reading(kind: Kind, used: real, limit: Option<real>) {
    predicate Live() { limit.Some? && limit.value >= 0.0 }

    predicate Exhausted() { Live() && if limit.value == 0.0 then used > 0.0 else used >= limit.value }

    predicate Crossed() { Live() && limit.value > 0.0 && used >= 0.9 * limit.value }
  }

  function AsReal(limit: Option<int>): Option<real> {
    if limit.Some? then Some(limit.value as real) else None
  }

  /** What one check looks at in one scope, in order. */
  function Readings(spec: Spec, c: Counters, subscription: bool, wallclock: real): seq<Reading> {
    [ if subscription then Reading(ApiUsdKind, c.apiUsd, spec.maxUsd) else Reading(UsdKind, c.usd, spec.maxUsd),
      Reading(TokenKind, c.tokens as real, AsReal(spec.maxTokens)),
      Reading(WallclockKind, wallclock, spec.maxWallclock),
      Reading(ToolCallKind, c.toolCalls as real, AsReal(spec.maxToolCalls)) ]
  }

  // ---- A check, as a scan of readings ----

  /** A reading taken at a scope. */
  datatype Look<T> = Look(node: T, reading: Reading)

  datatype Scan<T(==)> = Scan(warned: set<(T, Kind)>, warnings: seq<Look<T>>, raised: Option<Look<T>>)

  function Seen<T(==)>(s: Scan<T>, l: Look<T>, overrun: bool): Scan<T> {
    if l.reading.Exhausted() && !overrun then s.(raised := Some(l))
    else if l.reading.Crossed() && (l.node, l.reading.kind) !in s.warned then
      s.(warned := s.warned + {(l.node, l.reading.kind)}, warnings := s.warnings + [l])
    else s
  }

  function ScanFrom<T(==)>(s: Scan<T>, looks: seq<Look<T>>, overrun: bool): Scan<T>
    decreases looks
  {
    if looks == [] || s.raised.Some? then s else ScanFrom(Seen(s, looks[0], overrun), looks[1..], overrun)
  }

  lemma {:induction false} ScanConcat<T>(s: Scan<T>, first: seq<Look<T>>, later: seq<Look<T>>, overrun: bool)
    ensures ScanFrom(s, first + later, overrun) == ScanFrom(ScanFrom(s, first, overrun), later, overrun)
    decreases first
  {
    if first == [] || s.raised.Some? {
      assert first == [] ==> first + later == later;
    } else {
      assert (first + later)[1..] == first[1..] + later;
      ScanConcat(Seen(s, first[0], overrun), first[1..], later, overrun);
    }
  }

  function At<T>(node: T, rs: seq<Reading>): (looks: seq<Look<T>>)
    ensures |looks| == |rs| && forall i :: 0 <= i < |rs| ==> looks[i] == Look(node, rs[i])
  {
    if rs == [] then [] else [Look(node, rs[0])] + At(node, rs[1..])
  }

  ghost function Warned(trackers: set<Tracker>): set<(Tracker, Kind)>
    reads trackers
  {
    set t, k | t in trackers && k in t.warned :: (t, k)
  }

  // ---- The objects ----

  class Tracker {
    const scope: string
    const spec: Option<Spec>
    const parent: Tracker?
    const startedAt: real
    ghost const depth: nat
    var counters: Counters
    var warned: set<Kind>
    var subscription: bool

    constructor (scope: string, spec: Option<Spec>, parent: Tracker?, now: real)
      requires parent != null ==> parent.Placed()
      ensures Placed() && this.scope == scope && this.spec == spec && this.parent == parent && startedAt == now
      ensures counters == ZERO && warned == {} && !subscription
    {
      this.scope, this.spec, this.parent, startedAt := scope, spec, parent, now;
      depth := if parent == null then 0 else parent.depth + 1;
      counters, warned, subscription := ZERO, {}, false;
    }

    ghost predicate Placed()
      decreases depth
    {
      parent != null ==> parent.depth < depth && parent.Placed()
    }

    /** The tracker and its ancestors, upwards. */
    ghost function Chain(): (c: seq<Tracker>)
      requires Placed()
      ensures |c| > 0 && c[0] == this
      ensures forall t :: t in c && t != this ==> t.depth < depth
      ensures (forall t :: t in c ==> t in Scopes()) && (forall t :: t in Scopes() ==> t in c)
      decreases depth
    {
      if parent == null then [this] else [this] + parent.Chain()
    }

    ghost function Scopes(): (s: set<Tracker>)
      requires Placed()
      ensures this in s && (parent != null ==> s == {this} + parent.Scopes() && parent.Scopes() <= s)
      ensures forall t :: t in s && t != this ==> t.depth < depth
      decreases depth
    {
      if parent == null then {this} else {this} + parent.Scopes()
    }

    /** Some scope of the chain is in subscription mode. */
    predicate IsSubscription()
      requires Placed()
      reads Scopes()`subscription
      decreases depth
    {
      subscription || (parent != null && parent.IsSubscription())
    }

    function WallclockS(now: real): real
      reads this`counters
    {
      var s := now - startedAt - counters.paused;
      if s > 0.0 then s else 0.0
    }

    ghost function OwnLooks(now: real): seq<Look<Tracker>>
      requires Placed()
      reads Scopes()`counters, Scopes()`subscription
    {
      if spec.None? then [] else At(this, Readings(spec.value, counters, IsSubscription(), WallclockS(now)))
    }

    /** All a check may look at, from the tracker upwards. The clock is read anew at each scope: `clock(k)` is
        what it shows at the k-th. */
    ghost function Looks(clock: nat -> real, k: nat): seq<Look<Tracker>>
      requires Placed()
      reads Scopes()`counters, Scopes()`subscription
      decreases depth
    {
      OwnLooks(clock(k)) + (if parent == null then [] else parent.Looks(clock, k + 1))
    }

    /** The scopes of a chain are different objects. */
    lemma {:induction false} ChainStep(i: nat)
      requires Placed() && i < |Chain()|
      ensures Chain()[i].Placed() && Chain()[i].Chain() == Chain()[i..]
      ensures forall j :: 0 <= j < |Chain()| && j != i ==> Chain()[j] != Chain()[i]
      decreases depth
    {
      if i > 0 {
        parent.ChainStep(i - 1);
        assert Chain()[1..] == parent.Chain();
        assert Chain()[i..] == Chain()[1..][i - 1..];
        assert Chain()[i] == parent.Chain()[i - 1];
      }
    }

    method CheckReading(ghost all: set<Tracker>, r: Reading, overrun: bool, warnings: seq<Look<Tracker>>)
      returns (more: seq<Look<Tracker>>, raised: Option<Look<Tracker>>)
      requires this in all
      modifies this`warned
      ensures Scan(Warned(all), more, raised) == Seen(Scan(old(Warned(all)), warnings, None), Look(this, r), overrun)
    {
      if r.Exhausted() && !overrun { return warnings, Some(Look(this, r)); }
      if r.Crossed() && r.kind !in warned {
        ghost var before := Warned(all);
        warned := warned + {r.kind};
        assert Warned(all) == before + {(this, r.kind)};
        return warnings + [Look(this, r)], None;
      }
      return warnings, None;
    }

    method CheckScope(ghost all: set<Tracker>, now: real, overrun: bool, warnings: seq<Look<Tracker>>)
      returns (more: seq<Look<Tracker>>, raised: Option<Look<Tracker>>)
      requires Placed() && this in all
      modifies this`warned
      ensures Scan(Warned(all), more, raised)
           == ScanFrom(Scan(old(Warned(all)), warnings, None), old(OwnLooks(now)), overrun)
    {
      more, raised := warnings, None;
      if spec.None? { return; }
      var rs := Readings(spec.value, counters, IsSubscription(), WallclockS(now));
      ghost var looks := At(this, rs);
      ghost var total := ScanFrom(Scan(Warned(all), warnings, None), looks, overrun);
      var j := 0;
      while j < |rs| && raised.None?
        invariant j <= |rs|
        invariant total == ScanFrom(Scan(Warned(all), more, raised), looks[j..], overrun)
      {
        more, raised := CheckReading(all, rs[j], overrun, more);
        j := j + 1;
      }
    }

    ghost function CheckScan(all: set<Tracker>, clock: nat -> real, overrun: bool): Scan<Tracker>
      requires Placed()
      reads all, Scopes()
    {
      ScanFrom(Scan(Warned(all), [], None), Looks(clock, 0), overrun)
    }

    /** Raises at the first exhausted reading of the chain, unless overruns are allowed; otherwise returns
        the readings that newly crossed the warning threshold. The flags it sets stay set when it raises. */
    method Check(ghost all: set<Tracker>, clock: nat -> real, overrun: bool)
      returns (warnings: seq<Look<Tracker>>, raised: Option<Look<Tracker>>)
      requires Placed() && Scopes() <= all
      modifies Scopes()`warned
      ensures raised == old(CheckScan(all, clock, overrun)).raised
      ensures warnings == if raised.Some? then [] else old(CheckScan(all, clock, overrun)).warnings
      ensures Warned(all) == old(CheckScan(all, clock, overrun)).warned
    {
      warnings, raised := [], None;
      ghost var scan, rest := Scan(Warned(all), [], None), Looks(clock, 0);
      ghost var total := CheckScan(all, clock, overrun);
      var node: Tracker? := this;
      var k := 0;
      while node != null
        invariant raised.None? && (node != null ==> node.Placed() && node in Scopes() && node.Scopes() <= Scopes())
        invariant rest == if node == null then [] else old(node.Looks(clock, k))
        invariant scan == Scan(Warned(all), warnings, None) && ScanFrom(scan, rest, overrun) == total
        decreases if node == null then 0 else node.depth + 1
      {
        ghost var own := old(node.OwnLooks(clock(k)));
        assert old(allocated(node.Scopes()));
        assert own == node.OwnLooks(clock(k));
        ghost var above := if node.parent == null then [] else old(node.parent.Looks(clock, k + 1));
        assert rest == own + above;
        ScanConcat(scan, own, above, overrun);
        warnings, raised := node.CheckScope(all, clock(k), overrun, warnings);
        scan, rest := ScanFrom(scan, own, overrun), above;
        assert scan == Scan(Warned(all), warnings, raised);
        if raised.Some? { return [], raised; }
        node, k := node.parent, k + 1;
      }
    }

    function LeftS(now: real): Option<real>
      reads this`counters
    {
      if spec.None? || spec.value.maxWallclock.None? then None
      else Some(spec.value.maxWallclock.value - WallclockS(now))
    }

    /** The smallest wallclock allowance left on the chain, not below zero. */
    method RemainingWallclockS(clock: nat -> real) returns (left: Option<real>)
      requires Placed()
      ensures Least(Chain(), clock, left)
    {
      var node: Tracker? := this;
      var i := 0;
      var least: Option<real> := None;
      while node != null
        invariant i <= |Chain()| && (node == null <==> i == |Chain()|)
        invariant node != null ==> node.Placed() && Chain()[i] == node
        invariant forall j :: 0 <= j < i && Chain()[j].LeftS(clock(j)).Some? ==>
                    least.Some? && least.value <= Chain()[j].LeftS(clock(j)).value
        invariant least.Some? ==> exists j :: 0 <= j < i && Chain()[j].LeftS(clock(j)) == least
        decreases |Chain()| - i
      {
        ChainStep(i);
        var here := node.LeftS(clock(i));
        if here.Some? && (least.None? || here.value < least.value) { least := here; }
        node := node.parent;
        i := i + 1;
      }
      if least.None? { return None; }
      return Some(Clamped(least.value));
    }

    /** Real money; refused as a whole when any scope of the chain is in subscription mode. */
    method AddUsd(amount: real) returns (accepted: bool)
      requires Placed()
      modifies Scopes()`counters
      ensures accepted == !Usd(amount).Refused(old(IsSubscription()))
      ensures Bubbled(Scopes(), if accepted then Usd(amount).Delta() else ZERO)
      decreases depth
    {
      if amount != 0.0 && IsSubscription() { return false; }
      counters := counters.(usd := counters.usd + amount);
      if parent != null {
        var above := parent.AddUsd(amount);
      }
      return true;
    }

    method AddApiEquivalentUsd(amount: real) returns (accepted: bool)
      requires Placed()
      modifies Scopes()`counters
      ensures accepted == !Api(amount).Refused(old(IsSubscription()))
      ensures Bubbled(Scopes(), if accepted then Api(amount).Delta() else ZERO)
      decreases depth
    {
      if amount < 0.0 { return false; }
      counters := counters.(apiUsd := counters.apiUsd + amount);
      if parent != null { var above := parent.AddApiEquivalentUsd(amount); }
      return true;
    }

    method AddPlanningUsd(amount: real) returns (accepted: bool)
      requires Placed()
      modifies Scopes()`counters
      ensures var spend := if old(IsSubscription()) then Api(amount) else Usd(amount);
              accepted == !spend.Refused(old(IsSubscription()))
                  && Bubbled(Scopes(), if accepted then spend.Delta() else ZERO)
    {
      if IsSubscription() { accepted := AddApiEquivalentUsd(amount); } else { accepted := AddUsd(amount); }
    }

    method AddTokens(count: int)
      requires Placed()
      modifies Scopes()`counters
      ensures Bubbled(Scopes(), Tokens(count).Delta())
      decreases depth
    {
      counters := counters.(tokens := counters.tokens + count);
      if parent != null { parent.AddTokens(count); }
    }

    method AddToolCall(n: int)
      requires Placed()
      modifies Scopes()`counters
      ensures Bubbled(Scopes(), ToolCalls(n).Delta())
      decreases depth
    {
      counters := counters.(toolCalls := counters.toolCalls + n);
      if parent != null { parent.AddToolCall(n); }
    }

    /** Waiting for a person is not counted as wallclock. */
    method AddPaused(seconds: real)
      requires Placed()
      modifies Scopes()`counters
      ensures Bubbled(Scopes(), Paused(seconds).Delta())
      decreases depth
    {
      counters := counters.(paused := counters.paused + seconds);
      if parent != null { parent.AddPaused(seconds); }
    }
  }

  function Clamped(x: real): real { if x < 0.0 then 0.0 else x }

  /** The least allowance the scopes of the chain have left, each clamped at zero. */
  ghost predicate Least(chain: seq<Tracker>, clock: nat -> real, left: Option<real>)
    reads chain
  {
    && (left.None? <==> forall i :: 0 <= i < |chain| ==> chain[i].LeftS(clock(i)).None?)
    && (left.Some? ==>
          && (forall i :: 0 <= i < |chain| && chain[i].LeftS(clock(i)).Some? ==>
                left.value <= Clamped(chain[i].LeftS(clock(i)).value))
          && exists i :: 0 <= i < |chain| && chain[i].LeftS(clock(i)).Some?
               && left.value == Clamped(chain[i].LeftS(clock(i)).value))
  }

  /** The whole chain, and nothing else of the counters, grew by `d`. */
  twostate predicate Bubbled(chain: set<Tracker>, d: Counters)
    reads chain
  {
    forall t :: t in chain ==> t.counters == old(t.counters).Plus(d)
  }

  // ---- The objects as a forest ----

  ghost predicate Closed(trackers: set<Tracker>) {
    forall t :: t in trackers ==> t.Placed() && (t.parent == null || t.parent in trackers)
  }

  ghost function ParentOf(t: Tracker): Option<Tracker> {
    if t.parent == null then None else Some(t.parent)
  }

  ghost function View(trackers: set<Tracker>): State<Tracker>
    reads trackers
  {
    State(Forest(map t | t in trackers :: ParentOf(t), map t | t in trackers :: t.depth),
          map t | t in trackers :: t.counters,
          set t | t in trackers && t.subscription)
  }

  lemma {:induction false} ViewChain(trackers: set<Tracker>, x: Tracker)
    requires Closed(trackers) && x in trackers
    ensures View(trackers).forest.Valid() && View(trackers).forest.Chain(x) == x.Scopes() && x.Scopes() <= trackers
    ensures ValidState(View(trackers)) && Subscription(View(trackers), x) == x.IsSubscription()
    decreases x.depth
  {
    if x.parent != null {
      ViewChain(trackers, x.parent);
    }
  }

  class Registry {
    var roots: map<string, Tracker>
    var byScope: map<string, Tracker>
    ghost var trackers: set<Tracker>

    constructor ()
      ensures roots == map[] && byScope == map[] && trackers == {}
    {
      roots, byScope, trackers := map[], map[], {};
    }

    method RegisterRoot(scope: string, spec: Option<Spec>, now: real) returns (t: Tracker)
      requires Closed(trackers)
      modifies this
      ensures fresh(t) && t.scope == scope && t.spec == spec && t.parent == null
      ensures roots == old(roots)[scope := t] && byScope == old(byScope)[scope := t]
      ensures Closed(trackers) && trackers == old(trackers) + {t}
      ensures View(trackers).used == old(View(trackers)).used[t := ZERO]
      ensures View(trackers).forest.parent == old(View(trackers)).forest.parent[t := None]
    {
      t := new Tracker(scope, spec, null, now);
      roots := roots[scope := t];
      byScope := byScope[scope := t];
      trackers := trackers + {t};
    }

    method Child(scope: string, parent: Tracker, spec: Option<Spec>, now: real) returns (t: Tracker)
      requires Closed(trackers) && parent in trackers
      modifies this`byScope, this`trackers
      ensures fresh(t) && t.scope == scope && t.spec == spec && t.parent == parent
      ensures byScope == old(byScope)[scope := t]
      ensures Closed(trackers) && trackers == old(trackers) + {t}
      ensures View(trackers).used == old(View(trackers)).used[t := ZERO]
      ensures View(trackers).forest.parent == old(View(trackers)).forest.parent[t := Some(parent)]
    {
      t := new Tracker(scope, spec, parent, now);
      byScope := byScope[scope := t];
      trackers := trackers + {t};
    }
  }

  lemma RaisedByHand(s: State<Tracker>, x: Tracker, spend: Spend, later: map<Tracker, Counters>)
    requires ValidState(s) && x in s.used && later.Keys == s.used.Keys
    requires var d := if spend.Refused(Subscription(s, x)) then ZERO else spend.Delta();
             forall t :: t in s.used ==> later[t] == if t in s.forest.Chain(x) then s.used[t].Plus(d) else s.used[t]
    ensures After(s, Spent(x, spend)) == s.(used := later)
  {
    if spend.Refused(Subscription(s, x)) {
      forall t | t in s.used ensures later[t] == s.used[t] { PlusLaws(s.used[t], ZERO, ZERO); }
      assert later == s.used;
    } else {
      assert later == Raised(s.forest, s.used, x, spend.Delta());
    }
  }

  twostate lemma SameShape(trackers: set<Tracker>)
    requires forall t :: t in trackers ==> t.subscription == old(t.subscription)
    ensures View(trackers).forest == old(View(trackers)).forest
    ensures View(trackers).subscriptions == old(View(trackers)).subscriptions
    ensures View(trackers).used.Keys == old(View(trackers)).used.Keys
  {
  }

  /** What the charging methods promise is one step of the run model, whose counters are conserved. */
  twostate lemma BubbledIsSpent(trackers: set<Tracker>, x: Tracker, spend: Spend, accepted: bool)
    requires Closed(trackers) && x in trackers
    requires accepted == !spend.Refused(x.IsSubscription())
    requires Bubbled(x.Scopes(), if accepted then spend.Delta() else ZERO)
    requires forall t :: t in trackers ==> t.subscription == old(t.subscription)
    requires forall t :: t in trackers && t !in x.Scopes() ==> t.counters == old(t.counters)
    ensures ValidState(old(View(trackers)))
    ensures View(trackers) == After(old(View(trackers)), Spent(x, spend))
  {
    var s, r := old(View(trackers)), View(trackers);
    ViewChain(trackers, x);
    SameShape(trackers);
    RaisedByHand(s, x, spend, r.used);
  }
}
