/** The budget forest as a value: scopes whose spending counts for every scope above them. */
module BudgetTree {
  import opened Wrappers

  datatype Counters = Counters(usd: real, apiUsd: real, tokens: int, toolCalls: int, paused: real) {
    function Plus(c: Counters): Counters {
      Counters(usd + c.usd, apiUsd + c.apiUsd, tokens + c.tokens, toolCalls + c.toolCalls, paused + c.paused)
    }
  }

  lemma PlusLaws(a: Counters, b: Counters, c: Counters)
    ensures a.Plus(b).Plus(c) == a.Plus(b.Plus(c)) && a.Plus(b).Plus(c) == a.Plus(c).Plus(b)
    ensures a.Plus(b.Plus(c)) == b.Plus(a.Plus(c)) && a.Plus(ZERO) == a
  {
  }

  const ZERO := Counters(0.0, 0.0, 0, 0, 0.0)

  datatype Spend = Usd(amount: real) | Api(amount: real) | Tokens(count: int) | ToolCalls(n: int)
      | Paused(seconds: real)
  {
    function Delta(): Counters {
      match this
      case Usd(a) => ZERO.(usd := a)
      case Api(a) => ZERO.(apiUsd := a)
      case Tokens(c) => ZERO.(tokens := c)
      case ToolCalls(c) => ZERO.(toolCalls := c)
      case Paused(s) => ZERO.(paused := s)
    }

    /** Real money is refused in subscription mode, and a negative API-equivalent amount always. */
    predicate Refused(subscription: bool) {
      match this
      case Usd(a) => a != 0.0 && subscription
      case Api(a) => a < 0.0
      case _ => false
    }
  }

  /** Scopes with their parents; a parent is less deep than its children. */
  datatype Forest<T> = Forest(parent: map<T, Option<T>>, ghost depth: map<T, nat>) {
    ghost predicate Valid() {
      && depth.Keys == parent.Keys
      && forall t :: t in parent && parent[t].Some? ==> parent[t].value in parent && depth[parent[t].value] < depth[t]
    }

    /** The scope and all above it. */
    ghost function Chain(x: T): (c: set<T>)
      requires Valid() && x in parent
      ensures x in c && c <= parent.Keys
      ensures forall t :: t in c && t != x ==> depth[t] < depth[x]
      decreases depth[x]
    {
      if parent[x].None? then {x} else {x} + Chain(parent[x].value)
    }

    ghost function Children(n: T): set<T> {
      set t | t in parent && parent[t] == Some(n)
    }
  }

  ghost function SumOf<T>(s: set<T>, used: map<T, Counters>): Counters
    requires s <= used.Keys
  {
    if s == {} then ZERO else
      var t :| t in s;
      used[t].Plus(SumOf(s - {t}, used))
  }

  /** Charging `d` to `x`. */
  ghost function Raised<T>(f: Forest<T>, used: map<T, Counters>, x: T, d: Counters): map<T, Counters>
    requires f.Valid() && x in f.parent && used.Keys == f.parent.Keys
  {
    map t | t in used :: if t in f.Chain(x) then used[t].Plus(d) else used[t]
  }

  lemma {:induction false} SumSame<T>(s: set<T>, used: map<T, Counters>, later: map<T, Counters>)
    requires s <= used.Keys && s <= later.Keys
    requires forall t :: t in s ==> later[t] == used[t]
    ensures SumOf(s, later) == SumOf(s, used)
  {
    if s != {} {
      var t :| t in s && SumOf(s, used) == used[t].Plus(SumOf(s - {t}, used))
               && SumOf(s, later) == later[t].Plus(SumOf(s - {t}, later));
      SumSame(s - {t}, used, later);
    }
  }

  lemma {:induction false} SumOneChanged<T>(s: set<T>, used: map<T, Counters>, later: map<T, Counters>, c: T,
                                            d: Counters)
    requires s <= used.Keys && s <= later.Keys && c in s
    requires forall t :: t in s ==> later[t] == if t == c then used[t].Plus(d) else used[t]
    ensures SumOf(s, later) == SumOf(s, used).Plus(d)
  {
    var t :| t in s && SumOf(s, used) == used[t].Plus(SumOf(s - {t}, used))
             && SumOf(s, later) == later[t].Plus(SumOf(s - {t}, later));
    if t == c {
      SumSame(s - {t}, used, later);
      PlusLaws(used[t], d, SumOf(s - {t}, used));
    } else {
      SumOneChanged(s - {t}, used, later, c, d);
      PlusLaws(used[t], SumOf(s - {t}, used), d);
    }
  }

  lemma {:induction false} SumWith<T>(s: set<T>, t: T, used: map<T, Counters>)
    requires t !in s && s + {t} <= used.Keys
    ensures SumOf(s + {t}, used) == used[t].Plus(SumOf(s, used))
  {
    var all := s + {t};
    var u :| u in all && SumOf(all, used) == used[u].Plus(SumOf(all - {u}, used));
    if u == t {
      assert all - {t} == s;
    } else {
      assert all - {u} == (s - {u}) + {t} && s == (s - {u}) + {u};
      SumWith(s - {u}, t, used);
      SumWith(s - {u}, u, used);
      PlusLaws(used[u], used[t], SumOf(s - {u}, used));
    }
  }

  /** Exactly one child of a scope above `x` leads down to `x`. */
  lemma {:induction false} OneChildOnChain<T>(f: Forest<T>, x: T, n: T) returns (c: T)
    requires f.Valid() && x in f.parent && n in f.Chain(x) && n != x
    ensures f.Children(n) * f.Chain(x) == {c}
    decreases f.depth[x]
  {
    var p := f.parent[x].value;
    if p == n {
      c := x;
    } else {
      c := OneChildOnChain(f, p, n);
    }
  }

  /** The sum over a scope's children grows by what is charged anywhere below it. */
  lemma ChildrenRaised<T>(f: Forest<T>, used: map<T, Counters>, x: T, d: Counters, n: T)
    requires f.Valid() && x in f.parent && n in f.parent && used.Keys == f.parent.Keys
    ensures SumOf(f.Children(n), Raised(f, used, x, d))
         == if n in f.Chain(x) && n != x then SumOf(f.Children(n), used).Plus(d) else SumOf(f.Children(n), used)
  {
    var later := Raised(f, used, x, d);
    if n in f.Chain(x) && n != x {
      var c := OneChildOnChain(f, x, n);
      assert forall t :: t in f.Children(n) ==> (t in f.Chain(x) <==> t in f.Children(n) * f.Chain(x));
      SumOneChanged(f.Children(n), used, later, c, d);
    } else {
      forall t | t in f.Children(n)
        ensures t !in f.Chain(x)
      {
        if t in f.Chain(x) { ParentOnChain(f, x, t); }
      }
      SumSame(f.Children(n), used, later);
    }
  }

  lemma {:induction false} ParentOnChain<T>(f: Forest<T>, x: T, t: T)
    requires f.Valid() && x in f.parent && t in f.Chain(x) && f.parent[t].Some?
    ensures f.parent[t].value in f.Chain(x) && f.parent[t].value != x
    decreases f.depth[x]
  {
    if t != x { ParentOnChain(f, f.parent[x].value, t); }
  }

  // ---- Runs: the forest grows while it is charged ----

  datatype State<T> = State(forest: Forest<T>, used: map<T, Counters>, subscriptions: set<T>)

  datatype Event<T> = Root(t: T) | Child(t: T, parent: T) | Mode(t: T) | Spent(t: T, spend: Spend)

  ghost predicate ValidState<T>(s: State<T>) {
    s.forest.Valid() && s.used.Keys == s.forest.parent.Keys && s.subscriptions <= s.used.Keys
  }

  ghost predicate Subscription<T>(s: State<T>, x: T)
    requires ValidState(s) && x in s.used
  {
    s.forest.Chain(x) * s.subscriptions != {}
  }

  ghost predicate Enabled<T>(s: State<T>, e: Event<T>) {
    match e
    case Root(t) => t !in s.used
    case Child(t, p) => t !in s.used && p in s.used
    case Mode(t) => t in s.used
    case Spent(t, _) => t in s.used
  }

  ghost function Grown<T>(s: State<T>, t: T, parent: Option<T>): State<T>
    requires ValidState(s) && t !in s.used && (parent.Some? ==> parent.value in s.used)
  {
    var depth := if parent.Some? then s.forest.depth[parent.value] + 1 else 0;
    s.(forest := Forest(s.forest.parent[t := parent], s.forest.depth[t := depth]), used := s.used[t := ZERO])
  }

  ghost function After<T>(s: State<T>, e: Event<T>): (r: State<T>)
    requires ValidState(s) && Enabled(s, e)
    ensures ValidState(r)
  {
    match e
    case Root(t) => Grown(s, t, None)
    case Child(t, p) => Grown(s, t, Some(p))
    case Mode(t) => s.(subscriptions := s.subscriptions + {t})
    case Spent(t, spend) =>
      if spend.Refused(Subscription(s, t)) then s
      else s.(used := Raised(s.forest, s.used, t, spend.Delta()))
  }

  ghost predicate Legal<T>(s: State<T>, events: seq<Event<T>>)
    requires ValidState(s)
    decreases events
  {
    events != [] ==> Enabled(s, events[0]) && Legal(After(s, events[0]), events[1..])
  }

  ghost function Runs<T>(s: State<T>, events: seq<Event<T>>): (r: State<T>)
    requires ValidState(s) && Legal(s, events)
    ensures ValidState(r)
    decreases events
  {
    if events == [] then s else Runs(After(s, events[0]), events[1..])
  }

  ghost function DirectStep<T>(s: State<T>, e: Event<T>, n: T): Counters
    requires ValidState(s) && Enabled(s, e)
  {
    if e.Spent? && e.t == n && !e.spend.Refused(Subscription(s, n)) then e.spend.Delta() else ZERO
  }

  /** What the accepted spends of a run charged to `n` itself. */
  ghost function Direct<T>(s: State<T>, events: seq<Event<T>>, n: T): Counters
    requires ValidState(s) && Legal(s, events)
    decreases events
  {
    if events == [] then ZERO
    else DirectStep(s, events[0], n).Plus(Direct(After(s, events[0]), events[1..], n))
  }

  lemma InCons<T>(events: seq<T>, x: T)
    requires events != []
    ensures x in events <==> x == events[0] || x in events[1..]
  {
    assert events == [events[0]] + events[1..];
  }

  /** A run makes the scopes its events name, below the parents they name, and puts those into subscription
      mode that it names for it; it takes no scope away, moves none and ends no mode. */
  lemma {:induction false} RunShape<T>(s: State<T>, events: seq<Event<T>>, t: T)
    requires ValidState(s) && Legal(s, events)
    ensures var r := Runs(s, events);
            && (t in r.subscriptions <==> t in s.subscriptions || Mode(t) in events)
            && (t in s.used ==> t in r.used && r.forest.parent[t] == s.forest.parent[t])
            && (Root(t) in events ==> t in r.used && r.forest.parent[t] == None)
            && (forall p :: Child(t, p) in events ==> t in r.used && r.forest.parent[t] == Some(p))
            && (t in r.used ==> t in s.used || Root(t) in events || exists p :: Child(t, p) in events)
    decreases events
  {
    if events != [] {
      var e, rest := events[0], events[1..];
      RunShape(After(s, e), rest, t);
      InCons(events, Mode(t));
      InCons(events, Root(t));
      forall p ensures Child(t, p) in events <==> Child(t, p) == e || Child(t, p) in rest {
        InCons(events, Child(t, p));
      }
      if t !in s.used && t in After(s, e).used { assert e == Root(t) || (e.Child? && e == Child(t, e.parent)); }
    }
  }

  /** A scope's own spending: its counter less those of its children. */
  ghost predicate Owns<T>(s: State<T>, n: T, own: Counters)
    requires ValidState(s)
  {
    if n in s.used then s.used[n] == own.Plus(SumOf(s.forest.Children(n), s.used)) else own == ZERO
  }

  lemma NewScopeOwns<T>(s: State<T>, t: T, parent: Option<T>)
    requires ValidState(s) && t !in s.used && (parent.Some? ==> parent.value in s.used)
    ensures Grown(s, t, parent).forest.Children(t) == {}
  {
  }

  lemma OtherChildren<T>(s: State<T>, t: T, parent: Option<T>, n: T)
    requires ValidState(s) && t !in s.used && (parent.Some? ==> parent.value in s.used) && n in s.used
    ensures var now := Grown(s, t, parent).forest.Children(n);
            now == (if parent == Some(n) then s.forest.Children(n) + {t} else s.forest.Children(n))
            && t !in s.forest.Children(n) && now <= s.used.Keys + {t}
  {
  }

  lemma GrownOwns<T>(s: State<T>, t: T, parent: Option<T>, n: T, own: Counters)
    requires ValidState(s) && t !in s.used && (parent.Some? ==> parent.value in s.used)
    requires ValidState(Grown(s, t, parent)) && Owns(s, n, own)
    ensures Owns(Grown(s, t, parent), n, own)
  {
    if n == t {
      NewScopeOwns(s, t, parent);
    } else if n in s.used {
      OtherChildren(s, t, parent, n);
      NewChildSum(s.forest.Children(n), t, s.used);
    }
  }

  lemma NewChildSum<T>(s: set<T>, t: T, used: map<T, Counters>)
    requires s <= used.Keys && t !in used
    ensures SumOf(s, used[t := ZERO]) == SumOf(s, used) == SumOf(s + {t}, used[t := ZERO])
  {
    var later := used[t := ZERO];
    SumSame(s, used, later);
    SumWith(s, t, later);
    PlusLaws(SumOf(s, later), ZERO, ZERO);
  }

  lemma SpentOwns<T>(s: State<T>, t: T, spend: Spend, n: T, own: Counters)
    requires ValidState(s) && t in s.used && Owns(s, n, own)
    ensures Owns(After(s, Spent(t, spend)), n, own.Plus(DirectStep(s, Spent(t, spend), n)))
  {
    PlusLaws(own, ZERO, ZERO);
    if n in s.used && !spend.Refused(Subscription(s, t)) {
      var d := spend.Delta();
      ChildrenRaised(s.forest, s.used, t, d, n);
      PlusLaws(own, SumOf(s.forest.Children(n), s.used), d);
    }
  }

  lemma StepOwns<T>(s: State<T>, e: Event<T>, n: T, own: Counters)
    requires ValidState(s) && Enabled(s, e) && Owns(s, n, own)
    ensures Owns(After(s, e), n, own.Plus(DirectStep(s, e, n)))
  {
    PlusLaws(own, ZERO, ZERO);
    match e
    case Root(t) =>
      assert After(s, e) == Grown(s, t, None);
      GrownOwns(s, t, None, n, own);
    case Child(t, p) =>
      assert After(s, e) == Grown(s, t, Some(p));
      GrownOwns(s, t, Some(p), n, own);
    case Mode(_) =>
    case Spent(t, spend) => SpentOwns(s, t, spend, n, own);
  }

  /** In every run, however the forest grew meanwhile, a scope's counter is what was charged to it directly
      plus its children's counters. */
  lemma {:induction false} Conservation<T>(s: State<T>, events: seq<Event<T>>, n: T, own: Counters)
    requires ValidState(s) && Legal(s, events) && Owns(s, n, own)
    ensures Owns(Runs(s, events), n, own.Plus(Direct(s, events, n)))
    decreases events
  {
    if events != [] {
      var step := DirectStep(s, events[0], n);
      StepOwns(s, events[0], n, own);
      Conservation(After(s, events[0]), events[1..], n, own.Plus(step));
      PlusLaws(own, step, Direct(After(s, events[0]), events[1..], n));
    } else {
      PlusLaws(own, ZERO, ZERO);
    }
  }
}
