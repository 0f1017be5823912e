/** The slots that limit how many problems are researched at once, until the research deadline. */
module ProblemSlots {

  type Id = nat

  /** Waiting for a permit, running its body, past its body with the timer cancelled, or gone. */
  datatype Phase = Waiting | Body | Leaving | Gone

  /** How often the slot took and gave back a permit is counted for what is proved about it. */
  datatype Slot = Slot(phase: Phase, held: bool, timer: bool, taken: nat, returned: nat)

  /** `deadline`: there is a cutoff to heed; `past`: it has been reached. */
  datatype World = World(max: nat, free: nat, deadline: bool, past: bool, slots: map<Id, Slot>)

  datatype Event =
    | Cutoff            // the deadline is reached
    | Enter(id: Id)
    | Grant(id: Id)     // the semaphore hands a waiting slot a permit
    | TimeOut(id: Id)   // the wait for a permit is cut short at the deadline
    | Abort(id: Id)     // the wait is cancelled
    | Fire(id: Id)      // the slot's own timer goes off at the deadline
    | Finish(id: Id)    // the body ends, well or not: the timer is cancelled
    | Leave(id: Id)

  predicate At(w: World, id: Id, p: Phase) { id in w.slots && w.slots[id].phase == p }

  predicate Enabled(w: World, e: Event) {
    match e
    case Cutoff => w.deadline && !w.past
    case Enter(id) => id !in w.slots
    case Grant(id) => At(w, id, Waiting) && w.free > 0
    case TimeOut(id) => At(w, id, Waiting) && w.deadline && w.past
    case Abort(id) => At(w, id, Waiting)
    case Fire(id) => At(w, id, Body) && w.slots[id].timer && w.past
    case Finish(id) => At(w, id, Body)
    case Leave(id) => At(w, id, Leaving)
  }

  /** Giving the permit back, if there is one to give. */
  function Returned(s: Slot): Slot {
    if s.held then s.(held := false, returned := s.returned + 1) else s
  }

  function After(w: World, e: Event): World
    requires Enabled(w, e)
  {
    match e
    case Cutoff => w.(past := true)
    case Enter(id) =>
      w.(slots := w.slots[id := Slot(if w.deadline && w.past then Body else Waiting, false, false, 0, 0)])
    case Grant(id) =>
      var s := w.slots[id];
      w.(free := w.free - 1,
          slots := w.slots[id := s.(phase := Body, held := true, timer := w.deadline, taken := s.taken + 1)])
    case TimeOut(id) => w.(slots := w.slots[id := w.slots[id].(phase := Body)])
    case Abort(id) => w.(slots := w.slots[id := w.slots[id].(phase := Gone)])
    case Fire(id) =>
      var s := w.slots[id];
      w.(free := w.free + (if s.held then 1 else 0), slots := w.slots[id := Returned(s).(timer := false)])
    case Finish(id) => w.(slots := w.slots[id := w.slots[id].(phase := Leaving, timer := false)])
    case Leave(id) =>
      var s := w.slots[id];
      w.(free := w.free + (if s.held then 1 else 0), slots := w.slots[id := Returned(s).(phase := Gone)])
  }

  ghost predicate Legal(w: World, events: seq<Event>)
    decreases events
  {
    events != [] ==> Enabled(w, events[0]) && Legal(After(w, events[0]), events[1..])
  }

  ghost function Runs(w: World, events: seq<Event>): World
    requires Legal(w, events)
    decreases events
  {
    if events == [] then w else Runs(After(w, events[0]), events[1..])
  }

  function Start(max: nat, deadline: bool): World { World(max, max, deadline, false, map[]) }

  // ---- The objects ----

  class Semaphore {
    var free: nat

    constructor (permits: nat)
      ensures free == permits
    {
      free := permits;
    }

    method Release()
      modifies this
      ensures free == old(free) + 1
    {
      free := free + 1;
    }
  }

  /** One use of the slot: the permit it holds, and the timer that gives it back at the cutoff. */
  class ProblemSlot {
    const semaphore: Semaphore
    var held: bool
    var timer: bool

    constructor (semaphore: Semaphore)
      ensures this.semaphore == semaphore && !held && !timer
    {
      this.semaphore := semaphore;
      held, timer := false, false;
    }

    /** Both the timer and the exit call this; only the first finds a permit. */
    method Release()
      modifies this`held, semaphore
      ensures !held && semaphore.free == old(semaphore.free) + if old(held) then 1 else 0
    {
      if held {
        held := false;
        semaphore.Release();
      }
    }

    /** The wait for a permit ends: granted, or, with a deadline, timed out. */
    method Acquired(granted: bool, deadline: bool)
      requires !held && !timer && (granted ==> semaphore.free > 0)
      modifies this, semaphore
      ensures held == granted && timer == (granted && deadline)
      ensures semaphore.free == old(semaphore.free) - if granted then 1 else 0
    {
      if granted {
        semaphore.free := semaphore.free - 1;
        held := true;
        timer := deadline;
      }
    }

    /** The timer goes off. */
    method ReleaseAtCutoff()
      requires timer
      modifies this, semaphore
      ensures !held && !timer && semaphore.free == old(semaphore.free) + if old(held) then 1 else 0
    {
      Release();
      timer := false;
    }

    method Exit()
      modifies this, semaphore
      ensures !held && !timer && semaphore.free == old(semaphore.free) + if old(held) then 1 else 0
    {
      timer := false;
      Release();
    }
  }
}
