/** What checks report: the first exhausted reading, and every crossed threshold at most once. */
module BudgetWarnings {
  import opened Wrappers
  import opened BudgetTree
  import opened Budget

  lemma {:induction false} RaisesFirst<T>(s: Scan<T>, looks: seq<Look<T>>, overrun: bool)
    requires s.raised.None?
    ensures var r := ScanFrom(s, looks, overrun).raised;
            && (r.Some? <==> !overrun && exists i :: 0 <= i < |looks| && looks[i].reading.Exhausted())
            && (r.Some? ==> exists i :: 0 <= i < |looks| && r == Some(looks[i]) && looks[i].reading.Exhausted()
                                 && forall j :: 0 <= j < i ==> !looks[j].reading.Exhausted())
    decreases looks
  {
    if looks != [] {
      if looks[0].reading.Exhausted() && !overrun {
        assert ScanFrom(s, looks, overrun).raised == Some(looks[0]);
      } else {
        RaisesFirst(Seen(s, looks[0], overrun), looks[1..], overrun);
        var r := ScanFrom(s, looks, overrun).raised;
        if r.Some? {
          var i :| 0 <= i < |looks[1..]| && r == Some(looks[1..][i]) && looks[1..][i].reading.Exhausted()
                   && forall j :: 0 <= j < i ==> !looks[1..][j].reading.Exhausted();
          assert forall j :: 0 < j < i + 1 ==> looks[j] == looks[1..][j - 1];
          assert looks[i + 1] == looks[1..][i];
        } else {
          assert forall i :: 0 < i < |looks| ==> looks[i] == looks[1..][i - 1];
        }
      }
    }
  }

  function KeyOf<T>(l: Look<T>): (T, Kind) { (l.node, l.reading.kind) }

  ghost function KeysOf<T>(warnings: seq<Look<T>>): set<(T, Kind)> { set l | l in warnings :: KeyOf(l) }

  ghost predicate Distinct<T>(warnings: seq<Look<T>>) {
    forall i, j :: 0 <= i < j < |warnings| ==> KeyOf(warnings[i]) != KeyOf(warnings[j])
  }

  /** What was newly reported since the flags were `before`. */
  ghost predicate Reported<T>(before: set<(T, Kind)>, s: Scan<T>) {
    && Distinct(s.warnings) && s.warned == before + KeysOf(s.warnings) && before !! KeysOf(s.warnings)
    && forall l :: l in s.warnings ==> l.reading.Crossed()
  }

  lemma SeenReported<T>(before: set<(T, Kind)>, s: Scan<T>, l: Look<T>, overrun: bool)
    requires Reported(before, s)
    ensures Reported(before, Seen(s, l, overrun))
  {
    var t := Seen(s, l, overrun);
    if t.warnings != s.warnings {
      assert KeysOf(t.warnings) == KeysOf(s.warnings) + {KeyOf(l)};
      assert forall i :: 0 <= i < |s.warnings| ==> KeyOf(s.warnings[i]) in KeysOf(s.warnings);
    }
  }

  /** A check flags exactly the thresholds it newly found crossed, each once; one that does not raise
      leaves no crossed threshold unflagged. */
  lemma {:induction false} ScanReports<T>(before: set<(T, Kind)>, s: Scan<T>, looks: seq<Look<T>>, overrun: bool)
    requires Reported(before, s)
    ensures var r := ScanFrom(s, looks, overrun);
            && Reported(before, r) && s.warned <= r.warned
            && (r.raised.None? ==> forall i :: 0 <= i < |looks| && looks[i].reading.Crossed() ==>
                  KeyOf(looks[i]) in r.warned)
    decreases looks
  {
    if looks != [] && s.raised.None? {
      SeenReported(before, s, looks[0], overrun);
      ScanReports(before, Seen(s, looks[0], overrun), looks[1..], overrun);
      assert forall i :: 0 < i < |looks| ==> looks[i] == looks[1..][i - 1];
    }
  }

  // ---- Any series of checks, from any trackers ----

  datatype Checking<T> = Checking(looks: seq<Look<T>>, overrun: bool)

  function Result<T(==)>(warned: set<(T, Kind)>, c: Checking<T>): Scan<T> {
    ScanFrom(Scan(warned, [], None), c.looks, c.overrun)
  }

  /** All the warnings the callers got; a check that raises returns none. */
  ghost function Returned<T>(warned: set<(T, Kind)>, checks: seq<Checking<T>>): seq<Look<T>>
    decreases checks
  {
    if checks == [] then []
    else
      var r := Result(warned, checks[0]);
      (if r.raised.Some? then [] else r.warnings) + Returned(r.warned, checks[1..])
  }

  /** Over any series of checks, each scope and kind is reported at most once, and never when it was
      flagged before. */
  lemma {:induction false} WarnedAtMostOnce<T>(warned: set<(T, Kind)>, checks: seq<Checking<T>>)
    ensures Distinct(Returned(warned, checks)) && KeysOf(Returned(warned, checks)) !! warned
    decreases checks
  {
    if checks != [] {
      var r := Result(warned, checks[0]);
      assert KeysOf<T>([]) == {};
      ScanReports(warned, Scan(warned, [], None), checks[0].looks, checks[0].overrun);
      WarnedAtMostOnce(r.warned, checks[1..]);
      var first, later := if r.raised.Some? then [] else r.warnings, Returned(r.warned, checks[1..]);
      assert forall i :: 0 <= i < |first| ==> KeyOf(first[i]) in KeysOf(first);
      assert forall i :: 0 <= i < |later| ==> KeyOf(later[i]) in KeysOf(later);
      assert KeysOf(first + later) == KeysOf(first) + KeysOf(later);
    } else {
      assert KeysOf<T>([]) == {};
    }
  }

  // ---- Exactly which warnings are reported ----

  /** The check comes to a crossed reading of the key before any exhausted one stops it. */
  ghost predicate Reaches<T>(looks: seq<Look<T>>, overrun: bool, key: (T, Kind)) {
    exists j :: 0 <= j < |looks| && KeyOf(looks[j]) == key && looks[j].reading.Crossed() && Unstopped(looks, overrun, j)
  }

  ghost predicate Unstopped<T>(looks: seq<Look<T>>, overrun: bool, j: nat)
    requires j < |looks|
  {
    overrun || forall k :: 0 <= k <= j ==> !looks[k].reading.Exhausted()
  }

  ghost predicate Raises<T>(c: Checking<T>) {
    !c.overrun && exists j :: 0 <= j < |c.looks| && c.looks[j].reading.Exhausted()
  }

  lemma ReachesOn<T>(looks: seq<Look<T>>, overrun: bool, key: (T, Kind))
    requires looks != [] && (overrun || !looks[0].reading.Exhausted())
    ensures Reaches(looks, overrun, key)
       <==> (KeyOf(looks[0]) == key && looks[0].reading.Crossed()) || Reaches(looks[1..], overrun, key)
  {
    var rest := looks[1..];
    assert forall i :: 0 < i < |looks| ==> looks[i] == rest[i - 1];
    if Reaches(rest, overrun, key) {
      var j :| 0 <= j < |rest| && KeyOf(rest[j]) == key && rest[j].reading.Crossed() && Unstopped(rest, overrun, j);
      assert looks[j + 1] == rest[j] && Unstopped(looks, overrun, j + 1);
    }
    if KeyOf(looks[0]) == key && looks[0].reading.Crossed() { assert Unstopped(looks, overrun, 0); }
    if Reaches(looks, overrun, key) && !(KeyOf(looks[0]) == key && looks[0].reading.Crossed()) {
      var j :| 0 <= j < |looks| && KeyOf(looks[j]) == key && looks[j].reading.Crossed() && Unstopped(looks, overrun, j);
      assert rest[j - 1] == looks[j] && Unstopped(rest, overrun, j - 1);
    }
  }

  lemma {:induction false} ScanFlags<T>(s: Scan<T>, looks: seq<Look<T>>, overrun: bool, key: (T, Kind))
    requires s.raised.None?
    ensures key in ScanFrom(s, looks, overrun).warned <==> key in s.warned || Reaches(looks, overrun, key)
    decreases looks
  {
    if looks != [] {
      if looks[0].reading.Exhausted() && !overrun {
        assert forall j :: 0 <= j < |looks| ==> !Unstopped(looks, overrun, j);
      } else {
        ReachesOn(looks, overrun, key);
        ScanFlags(Seen(s, looks[0], overrun), looks[1..], overrun, key);
      }
    }
  }

  /** Over any series of checks, a key not flagged before is reported exactly when the first check that
      comes to it crossed does not raise. */
  lemma {:induction false} ReportedExactly<T>(warned: set<(T, Kind)>, checks: seq<Checking<T>>, key: (T, Kind))
    requires key !in warned
    ensures key in KeysOf(Returned(warned, checks)) <==> FirstReachKeeps(checks, key)
    decreases checks
  {
    if checks == [] {
      assert KeysOf<T>([]) == {};
    } else {
      var c, r, rest := checks[0], Result(warned, checks[0]), checks[1..];
      var start := Scan(warned, [], None);
      assert KeysOf<T>([]) == {};
      ScanReports(warned, start, c.looks, c.overrun);
      ScanFlags(start, c.looks, c.overrun, key);
      RaisesFirst(start, c.looks, c.overrun);
      var first, later := if r.raised.Some? then [] else r.warnings, Returned(r.warned, rest);
      KeysOfConcat(first, later);
      FirstReachOn(checks, key);
      if key in r.warned {
        WarnedAtMostOnce(r.warned, rest);
      } else {
        ReportedExactly(r.warned, rest, key);
      }
    }
  }

  ghost predicate FirstReachKeeps<T>(checks: seq<Checking<T>>, key: (T, Kind)) {
    exists i :: 0 <= i < |checks| && FirstReach(checks, key, i) && !Raises(checks[i])
  }

  ghost predicate FirstReach<T>(checks: seq<Checking<T>>, key: (T, Kind), i: nat)
    requires i < |checks|
  {
    Reaches(checks[i].looks, checks[i].overrun, key)
    && forall h :: 0 <= h < i ==> !Reaches(checks[h].looks, checks[h].overrun, key)
  }

  lemma FirstReachOn<T>(checks: seq<Checking<T>>, key: (T, Kind))
    requires checks != []
    ensures FirstReachKeeps(checks, key) <==>
      if Reaches(checks[0].looks, checks[0].overrun, key) then !Raises(checks[0]) else FirstReachKeeps(checks[1..], key)
  {
    var rest := checks[1..];
    assert forall i :: 0 < i < |checks| ==> checks[i] == rest[i - 1];
    if Reaches(checks[0].looks, checks[0].overrun, key) {
      assert FirstReach(checks, key, 0);
    } else {
      assert forall i :: 0 <= i < |rest| ==> (FirstReach(rest, key, i) <==> FirstReach(checks, key, i + 1));
      if FirstReachKeeps(checks, key) {
        var i :| 0 <= i < |checks| && FirstReach(checks, key, i) && !Raises(checks[i]);
        assert FirstReach(rest, key, i - 1);
      }
    }
  }

  lemma KeysOfConcat<T>(a: seq<Look<T>>, b: seq<Look<T>>)
    ensures KeysOf(a + b) == KeysOf(a) + KeysOf(b)
  {
  }

  /** A check that raises after a crossed threshold flags it without reporting it: it is never reported. */
  lemma RaiseLosesWarning(node: int, later: seq<Checking<int>>)
    ensures var usd, tokens := Look(node, Reading(UsdKind, 0.95, Some(1.0))),
            Look(node, Reading(TokenKind, 5.0, Some(5.0)));
            var c := Checking([usd, tokens], false);
            var all := Returned({}, [c] + later);
            usd.reading.Crossed() && forall l :: l in all ==> KeyOf(l) != (node, UsdKind)
  {
    var usd, tokens := Look(node, Reading(UsdKind, 0.95, Some(1.0))), Look(node, Reading(TokenKind, 5.0, Some(5.0)));
    var c := Checking([usd, tokens], false);
    var s1 := Seen(Scan({}, [], None), usd, false);
    assert c.looks[1..] == [tokens];
    assert ScanFrom(s1, [tokens], false) == Seen(s1, tokens, false) by { assert [tokens][1..] == []; }
    assert Result({}, c) == Seen(s1, tokens, false);
    assert ([c] + later)[1..] == later && s1.warned == {(node, UsdKind)};
    WarnedAtMostOnce({(node, UsdKind)}, later);
    assert Returned({}, [c] + later) == [] + Returned({(node, UsdKind)}, later);
    var all := Returned({}, [c] + later);
    forall l | l in all ensures KeyOf(l) != (node, UsdKind) { assert KeyOf(l) in KeysOf(all); }
  }
}
