/** The resume cache and the calls of agents through it, interleaved in any way and crashed anywhere. */
module ResumeCache {
  import opened Wrappers

  type Key = string
  type CallId = nat

  /** A cache file: a JSON output, the JSON null, or text that does not parse. */
  datatype Entry = Output(value: string) | Null | Corrupt

  type Dir = map<Key, Entry>

  /** Which keys belong to agents that use the cache, and which outputs may be reused. */
  datatype Policy = Policy(enabled: Key -> bool, reusable: (Key, string) -> bool) {
    predicate Keeps(k: Key, v: string) { enabled(k) && reusable(k, v) }
  }

  function ValueOf(e: Entry): Option<string> {
    if e.Output? then Some(e.value) else None
  }

  /** The first directory that has the key decides, even when its file is unusable. */
  function Lookup(roots: seq<Dir>, key: Key): Option<string> {
    if roots == [] then None
    else if key in roots[0] then ValueOf(roots[0][key])
    else Lookup(roots[1..], key)
  }

  /** The output a call may replay. */
  function Replayable(p: Policy, roots: seq<Dir>, key: Key): Option<string> {
    if !p.enabled(key) then None
    else
      var cached := Lookup(roots, key);
      if cached.Some? && p.reusable(key, cached.value) then cached else None
  }

  class Cache {
    var write: Dir
    var prior: seq<Dir>

    constructor (write: Dir, prior: seq<Dir>)
      ensures this.write == write && this.prior == prior
    {
      this.write, this.prior := write, prior;
    }

    method Get(key: Key) returns (value: Option<string>)
      ensures value == Lookup([write] + prior, key)
    {
      var roots := [write] + prior;
      var i := 0;
      while i < |roots|
        invariant i <= |roots|
        invariant Lookup(roots, key) == Lookup(roots[i..], key)
      {
        if key in roots[i] { return ValueOf(roots[i][key]); }
        i := i + 1;
      }
      return None;
    }

    method Put(key: Key, value: string)
      modifies this`write
      ensures write == old(write)[key := Output(value)]
    {
      write := write[key := Output(value)];
    }

    /** The start of an agent call: on a hit the output is put again, into this run's own directory. */
    method TryReplay(p: Policy, key: Key) returns (value: Option<string>)
      modifies this`write
      ensures value == Replayable(p, [old(write)] + prior, key)
      ensures write == if value.Some? then old(write)[key := Output(value.value)] else old(write)
    {
      if !p.enabled(key) { return None; }
      value := Get(key);
      if value.None? || !p.reusable(key, value.value) { return None; }
      Put(key, value.value);
    }

    /** The end of an agent run that returned `value`. */
    method Keep(p: Policy, key: Key, value: string)
      modifies this`write
      ensures write == if p.Keeps(key, value) then old(write)[key := Output(value)] else old(write)
    {
      if p.enabled(key) && p.reusable(key, value) { Put(key, value); }
    }
  }

  // ---- Calls in flight, crashes and resumes ----

  datatype Call = Running(key: Key) | Kept(key: Key, value: string)

  datatype Answer = Answer(key: Key, value: string, ran: bool)

  /** One run: its own cache directory, the ones it reads besides, the calls in flight, what was put into
      the directory and what was returned, in order. */
  datatype Run = Run(dir: Dir, prior: seq<Dir>, calls: map<CallId, Call>, puts: seq<(Key, string)>,
      returned: seq<Answer>)
  {
    function Roots(): seq<Dir> { [dir] + prior }
  }

  datatype Step =
    | Start(id: CallId, key: Key)      // a call looks into the cache, and replays or begins to run
    | End(id: CallId, value: string)   // its run ends; the output is persisted
    | Return(id: CallId)               // it returns to its caller
    | Fail(id: CallId)                 // its run ends with an exception

  predicate Enabled(r: Run, s: Step) {
    match s
    case Start(id, _) => id !in r.calls
    case End(id, _) => id in r.calls && r.calls[id].Running?
    case Return(id) => id in r.calls && r.calls[id].Kept?
    case Fail(id) => id in r.calls && r.calls[id].Running?
  }

  function Stored(r: Run, key: Key, value: string): Run {
    r.(dir := r.dir[key := Output(value)], puts := r.puts + [(key, value)])
  }

  function After(p: Policy, r: Run, s: Step): Run
    requires Enabled(r, s)
  {
    match s
    case Start(id, key) =>
      var hit := Replayable(p, r.Roots(), key);
      if hit.Some? then Stored(r, key, hit.value).(returned := r.returned + [Answer(key, hit.value, false)])
      else r.(calls := r.calls[id := Running(key)])
    case End(id, value) =>
      var key := r.calls[id].key;
      var kept := if p.Keeps(key, value) then Stored(r, key, value) else r;
      kept.(calls := r.calls[id := Kept(key, value)])
    case Return(id) =>
      r.(calls := r.calls - {id}, returned := r.returned + [Answer(r.calls[id].key, r.calls[id].value, true)])
    case Fail(id) => r.(calls := r.calls - {id})
  }

  function NewRun(dir: Dir, prior: seq<Dir>): Run {
    Run(dir, prior, map[], [], [])
  }

  /** A run so far; a crash may come after any prefix of its steps. */
  ghost predicate Legal(p: Policy, r: Run, steps: seq<Step>)
    decreases steps
  {
    steps != [] ==> Enabled(r, steps[0]) && Legal(p, After(p, r, steps[0]), steps[1..])
  }

  ghost function Runs(p: Policy, r: Run, steps: seq<Step>): Run
    requires Legal(p, r, steps)
    decreases steps
  {
    if steps == [] then r else Runs(p, After(p, r, steps[0]), steps[1..])
  }

  /** Resuming under a new run id reads the old run's directory; in place, the run goes on with its own. */
  function Resumed(crashed: Run): Run {
    NewRun(map[], [crashed.dir])
  }

  function ResumedInPlace(crashed: Run): Run {
    NewRun(crashed.dir, [crashed.dir])
  }
}
