/** A crashed run costs nothing it had finished: what its calls returned is replayed, never run again. */
module ResumeCacheProperties {
  import opened Wrappers
  import opened ResumeCache

  predicate RunningNow(r: Run, key: Key) {
    exists id :: id in r.calls && r.calls[id] == Running(key)
  }

  /** No call with this key starts to run while another with the same key runs. */
  ghost predicate Alone(p: Policy, r: Run, steps: seq<Step>, key: Key)
    requires Legal(p, r, steps)
    decreases steps
  {
    steps != [] ==>
      && (steps[0].Start? && steps[0].key == key && RunningNow(r, key) ==> Replayable(p, r.Roots(), key).Some?)
      && Alone(p, After(p, r, steps[0]), steps[1..], key)
  }

  /** What is known of one key while its calls run one at a time. */
  ghost predicate Settled(p: Policy, r: Run, key: Key) {
    && (forall i :: 0 <= i < |r.returned| && r.returned[i].key == key && p.Keeps(key, r.returned[i].value) ==>
          Holds(r, key, r.returned[i].value))
    && (forall id :: id in r.calls && r.calls[id].Kept? && r.calls[id].key == key && p.Keeps(key, r.calls[id].value) ==>
          Holds(r, key, r.calls[id].value))
    && (forall i :: 0 <= i < |r.puts| && r.puts[i].0 == key ==> p.Keeps(key, r.puts[i].1) && Holds(r, key, r.puts[i].1))
    && (forall id, other :: id in r.calls && other in r.calls ==>
          r.calls[id] == Running(key) && r.calls[other] == Running(key) ==> id == other)
    && (RunningNow(r, key) ==> Replayable(p, r.Roots(), key).None?)
  }

  predicate Holds(r: Run, key: Key, value: string) {
    key in r.dir && r.dir[key] == Output(value)
  }

  lemma HeldReplays(p: Policy, r: Run, key: Key, value: string)
    requires Holds(r, key, value) && p.Keeps(key, value)
    ensures Replayable(p, r.Roots(), key) == Some(value)
  {
    assert r.Roots()[0] == r.dir;
  }

  lemma {:induction false} LookupOther(dir: Dir, prior: seq<Dir>, key: Key, other: Key, value: string)
    requires key != other
    ensures Lookup([dir[other := Output(value)]] + prior, key) == Lookup([dir] + prior, key)
  {
    assert ([dir[other := Output(value)]] + prior)[1..] == prior && ([dir] + prior)[1..] == prior;
  }

  /** Other keys' steps do not touch this key. */
  lemma OtherKey(p: Policy, r: Run, s: Step, key: Key)
    requires Enabled(r, s) && Settled(p, r, key)
    requires match s case Start(_, k) => k != key case End(id, _) => r.calls[id].key != key
                     case Return(id) => r.calls[id].key != key case Fail(id) => r.calls[id].key != key
    ensures Settled(p, After(p, r, s), key)
  {
    var t := After(p, r, s);
    if s.Start? && Replayable(p, r.Roots(), s.key).Some? {
      LookupOther(r.dir, r.prior, key, s.key, Replayable(p, r.Roots(), s.key).value);
    }
    if s.End? { LookupOther(r.dir, r.prior, key, r.calls[s.id].key, s.value); }
    if RunningNow(t, key) {
      var id :| id in t.calls && t.calls[id] == Running(key);
      assert id in r.calls && r.calls[id] == Running(key);
    }
  }

  lemma StartSettled(p: Policy, r: Run, id: CallId, key: Key)
    requires id !in r.calls && Settled(p, r, key)
    requires RunningNow(r, key) ==> Replayable(p, r.Roots(), key).Some?
    ensures Settled(p, After(p, r, Start(id, key)), key)
  {
    var t := After(p, r, Start(id, key));
    if Replayable(p, r.Roots(), key).Some? {
      assert r.Roots()[0] == r.dir;
      assert !RunningNow(r, key) || Settled(p, r, key);
    }
  }

  lemma EndSettled(p: Policy, r: Run, id: CallId, value: string)
    requires Enabled(r, End(id, value)) && Settled(p, r, r.calls[id].key)
    ensures Settled(p, After(p, r, End(id, value)), r.calls[id].key)
  {
    var key := r.calls[id].key;
    var t := After(p, r, End(id, value));
    assert RunningNow(r, key);
    forall v | Holds(r, key, v) && p.Keeps(key, v) ensures false { HeldReplays(p, r, key, v); }
    assert forall other :: other in t.calls && other != id ==> other in r.calls && t.calls[other] == r.calls[other];
  }

  lemma LeaveSettled(p: Policy, r: Run, s: Step)
    requires Enabled(r, s) && (s.Return? || s.Fail?) && Settled(p, r, r.calls[s.id].key)
    ensures Settled(p, After(p, r, s), r.calls[s.id].key)
  {
    var key := r.calls[s.id].key;
    var t := After(p, r, s);
    if RunningNow(t, key) {
      var other :| other in t.calls && t.calls[other] == Running(key);
      assert r.calls[other] == Running(key);
    }
  }

  lemma {:induction false} RunSettled(p: Policy, r: Run, steps: seq<Step>, key: Key)
    requires Legal(p, r, steps) && Alone(p, r, steps, key) && Settled(p, r, key)
    ensures Settled(p, Runs(p, r, steps), key)
    decreases steps
  {
    if steps != [] {
      var s := steps[0];
      var own := match s case Start(_, k) => k case End(id, _) => r.calls[id].key
                         case Return(id) => r.calls[id].key case Fail(id) => r.calls[id].key;
      if own != key { OtherKey(p, r, s, key); }
      else {
        match s
        case Start(id, _) => StartSettled(p, r, id, key);
        case End(id, v) => EndSettled(p, r, id, v);
        case Return(_) => LeaveSettled(p, r, s);
        case Fail(_) => LeaveSettled(p, r, s);
      }
      RunSettled(p, After(p, r, s), steps[1..], key);
    }
  }

  // ---- The last put of a key is what its directory holds ----

  /** The value the last put of this key stored. */
  function LastPut(puts: seq<(Key, string)>, key: Key): Option<string> {
    if puts == [] then None
    else if puts[|puts| - 1].0 == key then Some(puts[|puts| - 1].1)
    else LastPut(puts[..|puts| - 1], key)
  }

  /** What a directory by itself answers the key with. */
  function Recalled(p: Policy, dir: Dir, key: Key): Option<string> {
    Replayable(p, [dir], key)
  }

  /** A key that was put holds its last value; one that was asked and never put has nothing to replay. */
  ghost predicate Recorded(p: Policy, r: Run, key: Key) {
    match LastPut(r.puts, key)
    case Some(v) => Holds(r, key, v) && p.Keeps(key, v)
    case None => Asked(r, key) ==> Recalled(p, r.dir, key).None? && NoneKept(p, r, key)
  }

  ghost predicate Asked(r: Run, key: Key) {
    || (exists id :: id in r.calls && r.calls[id].key == key)
    || (exists i :: 0 <= i < |r.returned| && r.returned[i].key == key)
  }

  ghost predicate NoneKept(p: Policy, r: Run, key: Key) {
    && (forall id :: id in r.calls && r.calls[id].Kept? && r.calls[id].key == key ==> !p.Keeps(key, r.calls[id].value))
    && (forall i :: 0 <= i < |r.returned| && r.returned[i].key == key ==> !p.Keeps(key, r.returned[i].value))
  }

  lemma LastPutAdd(puts: seq<(Key, string)>, key: Key, k: Key, v: string)
    ensures LastPut(puts + [(k, v)], key) == if k == key then Some(v) else LastPut(puts, key)
  {
    assert (puts + [(k, v)])[..|puts|] == puts;
  }

  /** A directory that answers the key decides for all that are read after it. */
  lemma RecalledFirst(p: Policy, dir: Dir, prior: seq<Dir>, key: Key)
    ensures Recalled(p, dir, key).Some? ==> Replayable(p, [dir] + prior, key) == Recalled(p, dir, key)
  {
    assert ([dir] + prior)[0] == dir && [dir][0] == dir;
    assert [dir][1..] == [] && Lookup([], key) == None;
  }

  lemma PutRecords(p: Policy, r: Run, key: Key, k: Key, v: string)
    requires Recorded(p, r, key) && p.Keeps(k, v)
    ensures k == key ==> LastPut(Stored(r, k, v).puts, key) == Some(v) && Holds(Stored(r, k, v), key, v)
    ensures k != key ==> Recorded(p, Stored(r, k, v), key) && LastPut(Stored(r, k, v).puts, key) == LastPut(r.puts, key)
  {
    LastPutAdd(r.puts, key, k, v);
    if k != key { LookupOther(r.dir, [], key, k, v); }
    if k != key && Asked(Stored(r, k, v), key) { assert Asked(r, key); }
    assert [r.dir[k := Output(v)]] + [] == [r.dir[k := Output(v)]] && [r.dir] + [] == [r.dir];
  }

  lemma StartRecords(p: Policy, r: Run, id: CallId, k: Key, key: Key)
    requires id !in r.calls && Recorded(p, r, key)
    ensures Recorded(p, After(p, r, Start(id, k)), key)
  {
    var t := After(p, r, Start(id, k));
    var hit := Replayable(p, r.Roots(), k);
    if hit.Some? {
      PutRecords(p, r, key, k, hit.value);
      if k != key && Asked(t, key) { assert Asked(r, key); }
    } else {
      RecalledFirst(p, r.dir, r.prior, k);
      if k != key && Asked(t, key) { assert Asked(r, key); }
    }
  }

  lemma EndRecords(p: Policy, r: Run, id: CallId, v: string, key: Key)
    requires Enabled(r, End(id, v)) && Recorded(p, r, key)
    ensures Recorded(p, After(p, r, End(id, v)), key)
  {
    var t := After(p, r, End(id, v));
    var k := r.calls[id].key;
    if p.Keeps(k, v) { PutRecords(p, r, key, k, v); }
    if Asked(t, key) { assert Asked(r, key); }
  }

  lemma LeaveRecords(p: Policy, r: Run, s: Step, key: Key)
    requires Enabled(r, s) && (s.Return? || s.Fail?) && Recorded(p, r, key)
    ensures Recorded(p, After(p, r, s), key)
  {
    var t := After(p, r, s);
    if Asked(t, key) { assert Asked(r, key); }
  }

  lemma {:induction false} RunRecords(p: Policy, r: Run, steps: seq<Step>, key: Key)
    requires Legal(p, r, steps) && Recorded(p, r, key)
    ensures Recorded(p, Runs(p, r, steps), key)
    decreases steps
  {
    if steps != [] {
      var s := steps[0];
      match s {
        case Start(id, k) => StartRecords(p, r, id, k, key);
        case End(id, v) => EndRecords(p, r, id, v, key);
        case Return(_) => LeaveRecords(p, r, s, key);
        case Fail(_) => LeaveRecords(p, r, s, key);
      }
      RunRecords(p, After(p, r, s), steps[1..], key);
    }
  }

  /** What the directory of a run answers for a key the run returned an answer for. */
  lemma RecalledIsLastPut(p: Policy, start: Run, steps: seq<Step>, i: nat)
    requires Legal(p, start, steps) && start == NewRun(start.dir, start.prior)
    requires i < |Runs(p, start, steps).returned|
    ensures var end := Runs(p, start, steps);
            Recalled(p, end.dir, end.returned[i].key) == LastPut(end.puts, end.returned[i].key)
  {
    var end := Runs(p, start, steps);
    RunRecords(p, start, steps, end.returned[i].key);
    assert Asked(end, end.returned[i].key);
  }

  // ---- What a resumed run replays ----

  /** The key can only be answered with `value`, and without running anything. */
  ghost predicate Replays(p: Policy, r: Run, key: Key, value: string) {
    && p.Keeps(key, value) && Replayable(p, r.Roots(), key) == Some(value)
    && (forall id :: id in r.calls ==> r.calls[id].key != key)
    && (forall i :: 0 <= i < |r.returned| && r.returned[i].key == key ==> r.returned[i] == Answer(key, value, false))
  }

  lemma ReplayStep(p: Policy, r: Run, s: Step, key: Key, value: string)
    requires Enabled(r, s) && Replays(p, r, key, value)
    ensures Replays(p, After(p, r, s), key, value)
  {
    var t := After(p, r, s);
    if s.Start? && Replayable(p, r.Roots(), s.key).Some? {
      if s.key == key { HeldReplays(p, t, key, value); }
      else { LookupOther(r.dir, r.prior, key, s.key, Replayable(p, r.Roots(), s.key).value); }
    }
    if s.End? { LookupOther(r.dir, r.prior, key, r.calls[s.id].key, s.value); }
  }

  lemma {:induction false} ReplayRun(p: Policy, r: Run, steps: seq<Step>, key: Key, value: string)
    requires Legal(p, r, steps) && Replays(p, r, key, value)
    ensures Replays(p, Runs(p, r, steps), key, value)
    decreases steps
  {
    if steps != [] {
      ReplayStep(p, r, steps[0], key, value);
      ReplayRun(p, After(p, r, steps[0]), steps[1..], key, value);
    }
  }

  function Resume(crashed: Run, inPlace: bool): Run {
    if inPlace then ResumedInPlace(crashed) else Resumed(crashed)
  }

  lemma ResumeReads(p: Policy, crashed: Run, inPlace: bool, key: Key)
    ensures Replayable(p, Resume(crashed, inPlace).Roots(), key) == Recalled(p, crashed.dir, key)
  {
    assert Resume(crashed, inPlace).Roots()[1..] == [crashed.dir];
    assert [crashed.dir][1..] == [];
  }

  /** Every run resumed from this one, however far it gets, answers the key with the value and runs nothing. */
  ghost predicate AlwaysReplays(p: Policy, crashed: Run, inPlace: bool, key: Key, value: string) {
    forall more :: Legal(p, Resume(crashed, inPlace), more) ==>
      Replays(p, Runs(p, Resume(crashed, inPlace), more), key, value)
  }

  /** An answer a run returned before it crashed, after any of its steps, is replayed with its value by
      every resumed run, in all its steps, exactly when the last put of its key stored that value. */
  lemma CrashReplaysExactly(p: Policy, start: Run, steps: seq<Step>, i: nat, inPlace: bool)
    requires Legal(p, start, steps) && start == NewRun(start.dir, start.prior)
    requires i < |Runs(p, start, steps).returned|
    ensures var crashed := Runs(p, start, steps);
            var a := crashed.returned[i];
            AlwaysReplays(p, crashed, inPlace, a.key, a.value) <==> LastPut(crashed.puts, a.key) == Some(a.value)
  {
    var crashed := Runs(p, start, steps);
    var a := crashed.returned[i];
    var resumed := Resume(crashed, inPlace);
    RecalledIsLastPut(p, start, steps, i);
    ResumeReads(p, crashed, inPlace, a.key);
    if AlwaysReplays(p, crashed, inPlace, a.key, a.value) {
      assert Legal(p, resumed, []);
      assert Replays(p, Runs(p, resumed, []), a.key, a.value);
    }
    if LastPut(crashed.puts, a.key) == Some(a.value) {
      forall more | Legal(p, resumed, more) ensures Replays(p, Runs(p, resumed, more), a.key, a.value) {
        ReplayRun(p, resumed, more, a.key, a.value);
      }
    }
  }

  /** So whatever a run returned from the cache's agents is replayed when calls with its key ran one at a time. */
  lemma CrashReplays(p: Policy, start: Run, steps: seq<Step>, i: nat, inPlace: bool)
    requires Legal(p, start, steps) && start == NewRun(start.dir, start.prior)
    requires i < |Runs(p, start, steps).returned|
    requires var a := Runs(p, start, steps).returned[i];
             p.Keeps(a.key, a.value) && Alone(p, start, steps, a.key)
    ensures var crashed := Runs(p, start, steps);
            AlwaysReplays(p, crashed, inPlace, crashed.returned[i].key, crashed.returned[i].value)
  {
    var crashed := Runs(p, start, steps);
    var a := crashed.returned[i];
    RunSettled(p, start, steps, a.key);
    RecalledIsLastPut(p, start, steps, i);
    assert Lookup([crashed.dir], a.key) == Some(a.value);
    CrashReplaysExactly(p, start, steps, i, inPlace);
  }

  // ---- One value per key over a whole chain ----

  /** A chain of runs resumed in place: where it ends and all that was ever put. */
  ghost predicate LegalChain(p: Policy, dir: Dir, prior: seq<Dir>, runs: seq<seq<Step>>)
    decreases runs
  {
    runs != [] ==>
      && Legal(p, NewRun(dir, prior), runs[0])
      && var end := Runs(p, NewRun(dir, prior), runs[0]);
         LegalChain(p, end.dir, [end.dir], runs[1..])
  }

  ghost function ChainPuts(p: Policy, dir: Dir, prior: seq<Dir>, runs: seq<seq<Step>>): seq<(Key, string)>
    requires LegalChain(p, dir, prior, runs)
    decreases runs
  {
    if runs == [] then []
    else
      var end := Runs(p, NewRun(dir, prior), runs[0]);
      end.puts + ChainPuts(p, end.dir, [end.dir], runs[1..])
  }

  ghost predicate ChainAlone(p: Policy, dir: Dir, prior: seq<Dir>, runs: seq<seq<Step>>, key: Key)
    requires LegalChain(p, dir, prior, runs)
    decreases runs
  {
    runs != [] ==>
      && Alone(p, NewRun(dir, prior), runs[0], key)
      && var end := Runs(p, NewRun(dir, prior), runs[0]);
         ChainAlone(p, end.dir, [end.dir], runs[1..], key)
  }

  /** Every put of this key stores this value. */
  ghost predicate OnlyValue(puts: seq<(Key, string)>, key: Key, value: string) {
    forall i :: 0 <= i < |puts| && puts[i].0 == key ==> puts[i].1 == value
  }

  lemma OnlyValueConcat(first: seq<(Key, string)>, later: seq<(Key, string)>, key: Key, value: string)
    requires OnlyValue(first, key, value) && OnlyValue(later, key, value)
    ensures OnlyValue(first + later, key, value)
  {
  }

  /** While a reusable output is held and no call of its key runs, every put of the key stores it again. */
  lemma {:induction false} HeldStays(p: Policy, r: Run, steps: seq<Step>, key: Key, value: string)
    requires Legal(p, r, steps) && p.Keeps(key, value) && Holds(r, key, value) && OnlyValue(r.puts, key, value)
    requires forall id :: id in r.calls ==> r.calls[id].key != key
    ensures Holds(Runs(p, r, steps), key, value) && OnlyValue(Runs(p, r, steps).puts, key, value)
    decreases steps
  {
    HeldReplays(p, r, key, value);
    if steps != [] { HeldStays(p, After(p, r, steps[0]), steps[1..], key, value); }
  }

  lemma {:induction false} ChainOneValue(p: Policy, dir: Dir, prior: seq<Dir>, runs: seq<seq<Step>>, key: Key,
                                         value: string)
    requires LegalChain(p, dir, prior, runs)
    requires key in dir && dir[key] == Output(value) && p.Keeps(key, value)
    ensures OnlyValue(ChainPuts(p, dir, prior, runs), key, value)
    decreases runs
  {
    if runs != [] {
      HeldStays(p, NewRun(dir, prior), runs[0], key, value);
      var end := Runs(p, NewRun(dir, prior), runs[0]);
      ChainOneValue(p, end.dir, [end.dir], runs[1..], key, value);
      OnlyValueConcat(end.puts, ChainPuts(p, end.dir, [end.dir], runs[1..]), key, value);
    }
  }

  predicate Agree(puts: seq<(Key, string)>, key: Key) {
    forall i, j :: 0 <= i < |puts| && 0 <= j < |puts| && puts[i].0 == key && puts[j].0 == key ==> puts[i].1 == puts[j].1
  }

  predicate PutsKey(puts: seq<(Key, string)>, key: Key) {
    exists i :: 0 <= i < |puts| && puts[i].0 == key
  }

  /** In the first run of the chain that puts the key at all, its puts agree. */
  ghost predicate FirstRunAgrees(p: Policy, dir: Dir, prior: seq<Dir>, runs: seq<seq<Step>>, key: Key)
    requires LegalChain(p, dir, prior, runs)
    decreases runs
  {
    runs != [] ==>
      var end := Runs(p, NewRun(dir, prior), runs[0]);
      if PutsKey(end.puts, key) then Agree(end.puts, key)
      else FirstRunAgrees(p, end.dir, [end.dir], runs[1..], key)
  }

  lemma {:induction false} LastOfAgreeing(puts: seq<(Key, string)>, key: Key)
    ensures PutsKey(puts, key) <==> LastPut(puts, key).Some?
    ensures PutsKey(puts, key) && Agree(puts, key) ==> OnlyValue(puts, key, LastPut(puts, key).value)
  {
    if puts != [] {
      var n := |puts| - 1;
      LastOfAgreeing(puts[..n], key);
      if puts[n].0 != key && PutsKey(puts, key) {
        var i :| 0 <= i < |puts| && puts[i].0 == key;
        assert puts[..n][i].0 == key;
      }
    }
  }

  /** Over a whole chain of in-place resumes, crashed anywhere, the puts of a key agree exactly when they
      do in the first run that puts it: no resumed run stores a second value. */
  lemma {:induction false} ChainExactly(p: Policy, dir: Dir, prior: seq<Dir>, runs: seq<seq<Step>>, key: Key)
    requires LegalChain(p, dir, prior, runs)
    ensures Agree(ChainPuts(p, dir, prior, runs), key) <==> FirstRunAgrees(p, dir, prior, runs, key)
    decreases runs
  {
    if runs != [] {
      var r := NewRun(dir, prior);
      var end := Runs(p, r, runs[0]);
      var later := ChainPuts(p, end.dir, [end.dir], runs[1..]);
      LastOfAgreeing(end.puts, key);
      AgreeConcat(end.puts, later, key);
      if PutsKey(end.puts, key) {
        if Agree(end.puts, key) {
          RunRecords(p, r, runs[0], key);
          var value := LastPut(end.puts, key).value;
          ChainOneValue(p, end.dir, [end.dir], runs[1..], key, value);
          OnlyValueConcat(end.puts, later, key, value);
        }
      } else {
        ChainExactly(p, end.dir, [end.dir], runs[1..], key);
      }
    }
  }

  lemma AgreeConcat(first: seq<(Key, string)>, later: seq<(Key, string)>, key: Key)
    ensures Agree(first + later, key) ==> Agree(first, key) && Agree(later, key)
    ensures !PutsKey(first, key) ==> (Agree(first + later, key) <==> Agree(later, key))
  {
    var both := first + later;
    if Agree(both, key) {
      forall i, j | 0 <= i < |first| && 0 <= j < |first| && first[i].0 == key && first[j].0 == key
        ensures first[i].1 == first[j].1
      {
        assert both[i] == first[i] && both[j] == first[j];
      }
      forall i, j | 0 <= i < |later| && 0 <= j < |later| && later[i].0 == key && later[j].0 == key
        ensures later[i].1 == later[j].1
      {
        assert both[|first| + i] == later[i] && both[|first| + j] == later[j];
      }
    }
  }

  /** So the puts of a key whose calls run one at a time all store the same value. */
  lemma {:induction false} ChainConsistent(p: Policy, dir: Dir, prior: seq<Dir>, runs: seq<seq<Step>>, key: Key)
    requires LegalChain(p, dir, prior, runs) && ChainAlone(p, dir, prior, runs, key)
    ensures Agree(ChainPuts(p, dir, prior, runs), key)
    decreases runs
  {
    if runs != [] {
      var r := NewRun(dir, prior);
      var end := Runs(p, r, runs[0]);
      RunSettled(p, r, runs[0], key);
      ChainExactly(p, dir, prior, runs, key);
      if !PutsKey(end.puts, key) {
        ChainConsistent(p, end.dir, [end.dir], runs[1..], key);
        ChainExactly(p, end.dir, [end.dir], runs[1..], key);
      }
    }
  }

  /** Two calls of one key that run at the same time persist two values: both outputs are returned, and a
      resumed run replays only the later one. */
  lemma RacingCallsOverwrite(p: Policy, key: Key, first: string, second: string)
    requires p.Keeps(key, first) && p.Keeps(key, second)
    ensures var start := NewRun(map[], []);
            var steps := [Start(0, key), Start(1, key), End(0, first), End(1, second), Return(0), Return(1)];
            && Legal(p, start, steps)
            && var end := Runs(p, start, steps);
               && end.puts == [(key, first), (key, second)]
               && end.returned == [Answer(key, first, true), Answer(key, second, true)]
               && Replayable(p, Resumed(end).Roots(), key) == Some(second)
  {
    var r0 := NewRun(map[], []);
    assert Lookup([map[]], key).None?;
    var r1 := r0.(calls := map[0 := Running(key)]);
    var r2 := r0.(calls := map[0 := Running(key), 1 := Running(key)]);
    assert r0.Roots() == [map[]] && r1.Roots() == [map[]];
    assert After(p, r0, Start(0, key)) == r1 && After(p, r1, Start(1, key)) == r2;
    var r3 := After(p, r2, End(0, first));
    var r4 := After(p, r3, End(1, second));
    var r5 := After(p, r4, Return(0));
    var r6 := After(p, r5, Return(1));
    RunsCons(p, r5, Return(1), []);
    RunsCons(p, r4, Return(0), [Return(1)]);
    RunsCons(p, r3, End(1, second), [Return(0), Return(1)]);
    RunsCons(p, r2, End(0, first), [End(1, second), Return(0), Return(1)]);
    RunsCons(p, r1, Start(1, key), [End(0, first), End(1, second), Return(0), Return(1)]);
    RunsCons(p, r0, Start(0, key), [Start(1, key), End(0, first), End(1, second), Return(0), Return(1)]);
    RacedReplay(p, r6, key, second);
  }

  lemma RunsCons(p: Policy, r: Run, s: Step, rest: seq<Step>)
    requires Enabled(r, s) && Legal(p, After(p, r, s), rest)
    ensures Legal(p, r, [s] + rest) && Runs(p, r, [s] + rest) == Runs(p, After(p, r, s), rest)
  {
    assert ([s] + rest)[1..] == rest;
  }

  lemma RacedReplay(p: Policy, end: Run, key: Key, value: string)
    requires p.Keeps(key, value) && Holds(end, key, value)
    ensures Replayable(p, Resumed(end).Roots(), key) == Some(value)
  {
    assert Lookup([end.dir], key) == Some(value);
    assert Resumed(end).Roots()[1..] == [end.dir];
  }

  // ---- The output of a finished run ----

  /** A workflow: what it asks next, given the answers to what it asked before, or its output. Calls made
      at the same time are asked one after another here; their answers may come back in any order. */
  datatype Move = Ask(key: Key) | Done(output: string)

  type Workflow = seq<string> -> Move

  /** The answers of a run to what the workflow asked: the i-th asked is the one returned at `at[i]`. */
  ghost predicate Followed(w: Workflow, returned: seq<Answer>, at: seq<nat>) {
    && (forall i :: 0 <= i < |at| ==> at[i] < |returned|)
    && (forall i :: 0 <= i < |at| ==> w(Used(returned, at[..i])) == Ask(returned[at[i]].key))
  }

  function Used(returned: seq<Answer>, at: seq<nat>): (values: seq<string>)
    requires forall i :: 0 <= i < |at| ==> at[i] < |returned|
    ensures |values| == |at|
    ensures forall i :: 0 <= i < |at| ==> values[i] == returned[at[i]].value
  {
    seq(|at|, i requires 0 <= i < |at| => returned[at[i]].value)
  }

  /** The workflow answered from a directory, and where that has nothing to replay by agents run again. */
  function FromDir(p: Policy, w: Workflow, dir: Dir, again: seq<string>): (values: seq<string>)
    ensures |values| <= |again|
  {
    if again == [] then []
    else
      var n := |again| - 1;
      var before := FromDir(p, w, dir, again[..n]);
      match w(before)
      case Done(_) => before
      case Ask(key) => before + [match Recalled(p, dir, key) case Some(v) => v case None => again[n]]
  }

  lemma {:induction false} FromDirIs(p: Policy, w: Workflow, dir: Dir, keys: seq<Key>, values: seq<string>)
    requires |keys| == |values| && forall i :: 0 <= i < |keys| ==> w(values[..i]) == Ask(keys[i])
    ensures (FromDir(p, w, dir, values) == values) <==>
            (forall i :: 0 <= i < |keys| ==> Recalled(p, dir, keys[i]) in {None, Some(values[i])})
  {
    if values != [] {
      var n := |values| - 1;
      var first := values[..n];
      forall i | 0 <= i < n ensures first[..i] == values[..i] {}
      FromDirIs(p, w, dir, keys[..n], first);
      if FromDir(p, w, dir, first) == first { assert values == first + [values[n]]; }
      if FromDir(p, w, dir, values) == values { assert FromDir(p, w, dir, values)[..n] == FromDir(p, w, dir, first); }
    }
  }

  /** A run's answers are those of an uninterrupted run answered from its own directory, where agents whose
      outputs were not kept answer as before, exactly when no later put replaced one of them. */
  lemma FinishedFromOwnCache(p: Policy, w: Workflow, start: Run, steps: seq<Step>, at: seq<nat>)
    requires Legal(p, start, steps) && start == NewRun(start.dir, start.prior)
    requires Followed(w, Runs(p, start, steps).returned, at)
    ensures var end := Runs(p, start, steps);
            (FromDir(p, w, end.dir, Used(end.returned, at)) == Used(end.returned, at)) <==>
            (forall i :: 0 <= i < |at| ==>
               LastPut(end.puts, end.returned[at[i]].key) in {None, Some(end.returned[at[i]].value)})
  {
    var end := Runs(p, start, steps);
    var values := Used(end.returned, at);
    var keys := seq(|at|, i requires 0 <= i < |at| => end.returned[at[i]].key);
    forall i | 0 <= i < |at| ensures w(values[..i]) == Ask(keys[i]) {
      assert values[..i] == Used(end.returned, at[..i]);
    }
    forall i | 0 <= i < |at| ensures Recalled(p, end.dir, keys[i]) == LastPut(end.puts, keys[i]) {
      RecalledIsLastPut(p, start, steps, at[i]);
    }
    FromDirIs(p, w, end.dir, keys, values);
  }
}
