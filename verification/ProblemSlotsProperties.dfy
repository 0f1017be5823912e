/** Permits are neither lost nor made, bodies stay within the limit, and the deadline frees everything. */
module ProblemSlotsProperties {
  import Sets
  import opened ProblemSlots

  ghost function Holders(w: World): set<Id> { set id | id in w.slots && w.slots[id].held }

  ghost function Bodies(w: World): set<Id> { set id | id in w.slots && w.slots[id].phase == Body }

  predicate SlotSound(w: World, s: Slot) {
    && s.returned <= s.taken <= 1
    && (s.held <==> s.taken == 1 && s.returned == 0)
    && (s.held ==> s.phase == Body || s.phase == Leaving)
    && (s.phase == Waiting ==> s.taken == 0)
    && (s.timer ==> s.phase == Body && s.held && w.deadline)
    && (s.phase == Body && w.deadline && s.held ==> s.timer)
    && (s.phase == Body && !(w.deadline && w.past) ==> s.held)
  }

  ghost predicate Sound(w: World) {
    && w.free + |Holders(w)| == w.max && (w.past ==> w.deadline)
    && forall id :: id in w.slots ==> SlotSound(w, w.slots[id])
  }

  lemma SlotsStep(w: World, e: Event)
    requires Enabled(w, e) && forall id :: id in w.slots ==> SlotSound(w, w.slots[id])
    ensures var t := After(w, e); forall id :: id in t.slots ==> SlotSound(t, t.slots[id])
  {
  }

  lemma HoldersStay(w: World, e: Event)
    requires Enabled(w, e) && !e.Grant? && !e.Fire? && !e.Leave?
    ensures Holders(After(w, e)) == Holders(w) && After(w, e).free == w.free
  {
  }

  lemma GrantHolds(w: World, id: Id)
    requires Enabled(w, Grant(id)) && SlotSound(w, w.slots[id])
    ensures |Holders(After(w, Grant(id)))| == |Holders(w)| + 1
  {
    assert Holders(After(w, Grant(id))) == Holders(w) + {id};
  }

  lemma PermitsStep(w: World, e: Event)
    requires Enabled(w, e) && Sound(w)
    ensures After(w, e).free + |Holders(After(w, e))| == w.max
  {
    match e {
      case Grant(id) => GrantHolds(w, id);
      case Fire(id) => GivesBack(w, After(w, e), id);
      case Leave(id) => GivesBack(w, After(w, e), id);
      case _ => HoldersStay(w, e);
    }
  }

  lemma SoundStep(w: World, e: Event)
    requires Sound(w) && Enabled(w, e)
    ensures Sound(After(w, e)) && After(w, e).max == w.max && After(w, e).deadline == w.deadline
  {
    SlotsStep(w, e);
    PermitsStep(w, e);
  }

  lemma GivesBack(w: World, t: World, id: Id)
    requires id in w.slots && t.slots.Keys == w.slots.Keys && !t.slots[id].held
    requires forall other :: other in w.slots && other != id ==> t.slots[other] == w.slots[other]
    ensures |Holders(t)| == |Holders(w)| - if w.slots[id].held then 1 else 0
  {
    assert Holders(t) == Holders(w) - {id};
  }

  lemma {:induction false} SoundRun(w: World, events: seq<Event>)
    requires Sound(w) && Legal(w, events)
    ensures Sound(Runs(w, events)) && Runs(w, events).max == w.max && Runs(w, events).deadline == w.deadline
    decreases events
  {
    if events != [] {
      SoundStep(w, events[0]);
      SoundRun(After(w, events[0]), events[1..]);
    }
  }

  /** In every reachable state the free permits and the held slots add up to the limit, and each slot has
      given its permit back at most once, whichever of timer and exit came first. */
  lemma PermitsConserved(max: nat, deadline: bool, events: seq<Event>)
    requires Legal(Start(max, deadline), events)
    ensures var w := Runs(Start(max, deadline), events);
            && w.free + |Holders(w)| == max
            && forall id :: id in w.slots ==> w.slots[id].returned <= w.slots[id].taken <= 1
  {
    assert Holders(Start(max, deadline)) == {};
    SoundRun(Start(max, deadline), events);
  }

  /** Until the deadline, and always when there is none, at most the limit's number of bodies run. */
  lemma BodiesWithinLimit(max: nat, deadline: bool, events: seq<Event>)
    requires Legal(Start(max, deadline), events)
    ensures var w := Runs(Start(max, deadline), events);
            !w.past ==> |Bodies(w)| <= max
  {
    assert Holders(Start(max, deadline)) == {};
    SoundRun(Start(max, deadline), events);
    var w := Runs(Start(max, deadline), events);
    if !w.past {
      assert Bodies(w) <= Holders(w);
      Sets.SubsetSize(Bodies(w), Holders(w));
    }
  }

  /** The timers due at the deadline have gone off, and finished slots have left. */
  ghost predicate Settled(w: World) {
    forall id :: id in w.slots ==> !Enabled(w, TimeOut(id)) && !Enabled(w, Fire(id)) && !Enabled(w, Leave(id))
  }

  /** After the deadline no slot starts to wait; once the timers have gone off none waits any more, all
      permits are free, and bodies still run. */
  lemma DeadlineFreesAll(max: nat, events: seq<Event>, id: Id)
    requires Legal(Start(max, true), events)
    ensures var w := Runs(Start(max, true), events);
            && (w.past && Enabled(w, Enter(id)) ==> At(After(w, Enter(id)), id, Body))
            && (w.past && At(w, id, Waiting) ==> Enabled(w, TimeOut(id)) && At(After(w, TimeOut(id)), id, Body))
            && (w.past && Settled(w) ==> w.free == max && forall other :: other in w.slots ==>
                  w.slots[other].phase != Waiting)
  {
    assert Holders(Start(max, true)) == {};
    SoundRun(Start(max, true), events);
    var w := Runs(Start(max, true), events);
    if w.past && Settled(w) {
      forall other | other in w.slots ensures !w.slots[other].held {
        assert !Enabled(w, Fire(other)) && !Enabled(w, Leave(other));
      }
      assert Holders(w) == {};
      forall other | other in w.slots ensures w.slots[other].phase != Waiting {
        assert !Enabled(w, TimeOut(other));
      }
    }
  }

  // ---- What the state says about the events so far ----

  /** The slot was entered after the deadline. */
  ghost predicate Late(events: seq<Event>, id: Id) {
    exists i, j :: 0 <= i < j < |events| && events[i] == Cutoff && events[j] == Enter(id)
  }

  /** The slot's wait is over. */
  ghost predicate Begun(events: seq<Event>, id: Id) {
    Grant(id) in events || TimeOut(id) in events || Late(events, id)
  }

  ghost predicate SlotTells(s: Slot, deadline: bool, events: seq<Event>, id: Id) {
    && s.phase == (if Abort(id) in events || Leave(id) in events then Gone
                   else if Finish(id) in events then Leaving
                   else if Begun(events, id) then Body
                   else Waiting)
    && (s.held <==> Grant(id) in events && Fire(id) !in events && Leave(id) !in events)
    && (s.timer <==> deadline && Grant(id) in events && Fire(id) !in events && Finish(id) !in events)
    && s.taken == (if Grant(id) in events then 1 else 0)
    && s.returned == (if Grant(id) in events && (Fire(id) in events || Leave(id) in events) then 1 else 0)
    // in this order
    && !(Abort(id) in events && Begun(events, id))
    && (Finish(id) in events ==> Begun(events, id)) && (Leave(id) in events ==> Finish(id) in events)
    && (Fire(id) in events ==> Grant(id) in events)
  }

  ghost predicate Unmet(events: seq<Event>, id: Id) {
    && Grant(id) !in events && TimeOut(id) !in events && Abort(id) !in events && Fire(id) !in events
    && Finish(id) !in events && Leave(id) !in events
  }

  ghost predicate Tells(w: World, events: seq<Event>, id: Id) {
    && (w.past <==> Cutoff in events) && (id in w.slots <==> Enter(id) in events)
    && (if id in w.slots then SlotTells(w.slots[id], w.deadline, events, id) else Unmet(events, id))
  }

  lemma InSnoc<T>(xs: seq<T>, x: T, y: T)
    ensures y in xs + [x] <==> y in xs || y == x
  {
  }

  lemma LateSnoc(events: seq<Event>, e: Event, id: Id)
    ensures Late(events + [e], id) <==> Late(events, id) || (e == Enter(id) && Cutoff in events)
  {
    var all := events + [e];
    if i, j :| 0 <= i < j < |events| && events[i] == Cutoff && events[j] == Enter(id) {
      assert all[i] == Cutoff && all[j] == Enter(id);
    }
    if e == Enter(id) && Cutoff in events {
      var i :| 0 <= i < |events| && events[i] == Cutoff;
      assert all[i] == Cutoff && all[|events|] == Enter(id);
    }
    if i, j :| 0 <= i < j < |all| && all[i] == Cutoff && all[j] == Enter(id) {
      assert all[i] == events[i];
      if j < |events| { assert events[j] == Enter(id); }
    }
  }

  lemma NewTells(w: World, events: seq<Event>, id: Id)
    requires Tells(w, events, id) && Enabled(w, Enter(id)) && (Cutoff in events ==> w.deadline)
    ensures Tells(After(w, Enter(id)), events + [Enter(id)], id)
  {
    LateSnoc(events, Enter(id), id);
  }

  lemma OldTells(w: World, events: seq<Event>, e: Event, id: Id)
    requires Tells(w, events, id) && Enabled(w, e) && id in w.slots
    ensures Tells(After(w, e), events + [e], id)
  {
    LateSnoc(events, e, id);
    assert e != Enter(id);
  }

  lemma OtherTells(w: World, events: seq<Event>, e: Event, id: Id)
    requires Tells(w, events, id) && Enabled(w, e) && id !in w.slots && e != Enter(id)
    ensures Tells(After(w, e), events + [e], id)
  {
  }

  lemma {:induction false} RunsSnoc(w: World, events: seq<Event>, e: Event)
    requires Legal(w, events + [e])
    ensures Legal(w, events) && Enabled(Runs(w, events), e) && Runs(w, events + [e]) == After(Runs(w, events), e)
    decreases events
  {
    if events == [] {
      assert (events + [e])[0] == e && (events + [e])[1..] == [];
    } else {
      assert (events + [e])[0] == events[0] && (events + [e])[1..] == events[1..] + [e];
      RunsSnoc(After(w, events[0]), events[1..], e);
    }
  }

  /** In every run the phase of a slot, its permit and its timer are told by which of its events happened: it
      waits until it is granted a permit, its wait times out or it enters after the deadline; it holds its permit
      from the grant to the timer or the leaving; and its timer runs, under a deadline, from the grant until it
      goes off or the body ends. */
  lemma {:induction false} RunTells(max: nat, deadline: bool, events: seq<Event>, id: Id)
    requires Legal(Start(max, deadline), events)
    ensures Tells(Runs(Start(max, deadline), events), events, id)
    ensures Runs(Start(max, deadline), events).deadline == deadline
    decreases |events|
  {
    if events != [] {
      var init, e := events[..|events| - 1], events[|events| - 1];
      assert events == init + [e];
      RunsSnoc(Start(max, deadline), init, e);
      RunTells(max, deadline, init, id);
      assert Holders(Start(max, deadline)) == {};
      SoundRun(Start(max, deadline), init);
      var w := Runs(Start(max, deadline), init);
      if id in w.slots { OldTells(w, init, e, id); }
      else if e == Enter(id) { NewTells(w, init, id); }
      else { OtherTells(w, init, e, id); }
    }
  }

  /** Which events can happen next, told the same way. */
  lemma MayHappen(max: nat, deadline: bool, events: seq<Event>, id: Id)
    requires Legal(Start(max, deadline), events)
    ensures var w := Runs(Start(max, deadline), events);
            var waits := Enter(id) in events && !Begun(events, id) && Abort(id) !in events;
            && (Enabled(w, Cutoff) <==> deadline && Cutoff !in events)
            && (Enabled(w, Enter(id)) <==> Enter(id) !in events)
            && (Enabled(w, Grant(id)) <==> waits && |Holders(w)| < max)
            && (Enabled(w, TimeOut(id)) <==> waits && Cutoff in events)
            && (Enabled(w, Abort(id)) <==> waits)
            && (Enabled(w, Fire(id)) <==>
                  deadline && Grant(id) in events && Fire(id) !in events && Finish(id) !in events && Cutoff in events)
            && (Enabled(w, Finish(id)) <==> Begun(events, id) && Finish(id) !in events)
            && (Enabled(w, Leave(id)) <==> Finish(id) in events && Leave(id) !in events)
  {
    RunTells(max, deadline, events, id);
    assert Holders(Start(max, deadline)) == {};
    SoundRun(Start(max, deadline), events);
    if Late(events, id) {
      var i, j :| 0 <= i < j < |events| && events[i] == Cutoff && events[j] == Enter(id);
      assert events[j] in events;
    }
  }

  // ---- The objects keep step with the model ----

  /** The semaphore and the slot objects hold what the world says. */
  ghost predicate Mirrors(w: World, slots: map<Id, ProblemSlot>, semaphore: Semaphore)
    reads semaphore, slots.Values
  {
    && semaphore.free == w.free && slots.Keys == w.slots.Keys
    && (forall id :: id in slots ==>
          slots[id].semaphore == semaphore && slots[id].held == w.slots[id].held
              && slots[id].timer == w.slots[id].timer)
    && forall id, other :: id in slots && other in slots && slots[id] == slots[other] ==> id == other
  }

  /** The end of the wait is a grant, or at the deadline a time-out. */
  method AcquiredIsStep(slots: map<Id, ProblemSlot>, semaphore: Semaphore, ghost w: World, id: Id, granted: bool,
                        deadline: bool)
    requires Mirrors(w, slots, semaphore) && Sound(w) && id in slots && deadline == w.deadline
    requires Enabled(w, if granted then Grant(id) else TimeOut(id))
    modifies semaphore, slots.Values
    ensures Mirrors(After(w, if granted then Grant(id) else TimeOut(id)), slots, semaphore)
  {
    assert SlotSound(w, w.slots[id]);
    var slot := slots[id];
    slot.Acquired(granted, deadline);
  }

  /** The timer's release is the model's. */
  method TimerIsStep(slots: map<Id, ProblemSlot>, semaphore: Semaphore, ghost w: World, id: Id)
    requires Mirrors(w, slots, semaphore) && id in slots && Enabled(w, Fire(id))
    modifies semaphore, slots.Values
    ensures Mirrors(After(w, Fire(id)), slots, semaphore)
  {
    var slot := slots[id];
    slot.ReleaseAtCutoff();
  }

  /** The exit is the body's end, which cancels the timer, and then leaving. */
  method ExitIsSteps(slots: map<Id, ProblemSlot>, semaphore: Semaphore, ghost w: World, id: Id)
    requires Mirrors(w, slots, semaphore) && id in slots && Enabled(w, Finish(id))
    modifies semaphore, slots.Values
    ensures Mirrors(After(After(w, Finish(id)), Leave(id)), slots, semaphore)
  {
    var slot := slots[id];
    slot.Exit();
  }
}
