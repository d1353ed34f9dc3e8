/** The event-extension loop itself: an object whose tables are updated in
    place.  Each method is proved to leave the fields exactly as the
    corresponding function of module Reactor says, so everything proved
    about those functions holds of the object. */
module Loop {
  import opened Natives
  import opened Reactor

  class EventLoop {
    /** The native Event objects this loop has created, by identity. */
    var events: Events
    var nextEvent: EventId
    /** socket id -> persistent read watch */
    var readEvents: map<SocketId, EventId>
    /** socket id -> one-shot write watch */
    var writeEvents: map<SocketId, EventId>
    /** timer -> timeout watch, persistent when the timer is periodic */
    var timers: map<TimerId, EventId>
    /** signal number -> persistent signal watch */
    var signalEvents: map<Signal, EventId>

    function Model(): State
      reads this
    {
      State(events, nextEvent, readEvents, writeEvents, timers, signalEvents)
    }

    ghost predicate Valid()
      reads this
    {
      Reactor.Valid(Model())
    }

    /** Creates the loop with a persistent, armed watch for each signal of
        `signals` (the signal list when signal handling is enabled, and
        empty otherwise); no socket and no timer is registered. */
    constructor (signals: seq<Signal>)
      ensures Valid()
      ensures readEvents == map[] && writeEvents == map[] && timers == map[]
      ensures forall sig :: sig in signalEvents <==> sig in signals
      ensures forall sig :: sig in signalEvents ==>
        Pending(events, signalEvents[sig]) && events[signalEvents[sig]].persistent
    {
      var es: Events := map[];
      var n: EventId := 0;
      var sigs: map<Signal, EventId> := map[];
      var i := 0;
      while i < |signals|
        invariant 0 <= i <= |signals|
        invariant Reactor.Valid(State(es, n, map[], map[], map[], sigs))
        invariant forall sig :: sig in sigs <==> sig in signals[..i]
        invariant forall sig :: sig in sigs ==> Pending(es, sigs[sig]) && es[sigs[sig]].persistent
      {
        var h := n;
        es := Add(es[h := Created(true)], h, None);
        n := n + 1;
        sigs := sigs[signals[i] := h];
        i := i + 1;
      }
      assert signals[..i] == signals;
      events, nextEvent := es, n;
      readEvents, writeEvents, timers, signalEvents := map[], map[], map[], sigs;
    }

    // ----- the native Event operations --------------------------------------

    /** `new Event(...)`. */
    method NewEvent(persistent: bool) returns (h: EventId)
      modifies this`events, this`nextEvent
      ensures h == old(nextEvent) && nextEvent == h + 1
      ensures events == old(events)[h := Created(persistent)]
    {
      h := nextEvent;
      events := events[h := Created(persistent)];
      nextEvent := nextEvent + 1;
    }

    /** `$event->add($timeout)` or `$event->add()`. */
    method AddEvent(h: EventId, timeout: Option<Seconds>)
      requires Live(events, h)
      modifies this`events
      ensures events == Add(old(events), h, timeout)
    {
      events := events[h := events[h].(armed := true, timeout := timeout)];
    }

    /** `$event->del()`. */
    method DelEvent(h: EventId)
      requires Live(events, h)
      modifies this`events
      ensures events == Del(old(events), h)
    {
      events := events[h := events[h].(armed := false)];
    }

    /** `$event->free()`: only ever called on a live event. */
    method FreeEvent(h: EventId)
      requires Live(events, h)
      modifies this`events
      ensures events == Free(old(events), h)
    {
      events := events[h := events[h].(armed := false, freed := true)];
    }

    /** libevent activating a pending event. */
    method FireEvent(h: EventId)
      requires Live(events, h) && Pending(events, h)
      modifies this`events
      ensures events == Fire(old(events), h)
    {
      events := events[h := events[h].(armed := events[h].persistent)];
    }

    /** A `foreach` over a table calling free() on each event.  The table's
        events are distinct, so iterating over the set of them frees the same
        events, each once. */
    method FreeEach(hs: set<EventId>)
      requires forall h :: h in hs ==> Live(events, h)
      modifies this`events
      ensures events == FreeAll(old(events), hs)
    {
      var todo := hs;
      assert FreeAll(events, {}) == events;
      while todo != {}
        invariant todo <= hs
        invariant events == FreeAll(old(events), hs - todo)
        invariant forall h :: h in todo ==> Live(events, h)
        decreases todo
      {
        var h :| h in todo;
        FreeAllStep(old(events), hs - todo, h);
        FreeEvent(h);
        assert hs - (todo - {h}) == (hs - todo) + {h};
        todo := todo - {h};
      }
      assert hs - todo == hs;
    }

    // ----- queries ------------------------------------------------------------

    predicate IsReadableSocketPending(id: SocketId)
      reads this
    {
      Reactor.IsReadableSocketPending(Model(), id)
    }

    predicate IsWritableSocketScheduled(id: SocketId)
      reads this
    {
      Reactor.IsWritableSocketScheduled(Model(), id)
    }

    predicate ContainsSocket(id: SocketId)
      reads this
    {
      Reactor.ContainsSocket(Model(), id)
    }

    predicate IsTimerActive(t: TimerId)
      reads this
    {
      Reactor.IsTimerActive(Model(), t)
    }

    predicate IsEmpty(timerCount: nat, parentEmpty: bool)
      reads this
    {
      Reactor.IsEmpty(Model(), timerCount, parentEmpty)
    }

    // ----- read watches -------------------------------------------------------

    method AddReadableSocket(s: Socket)
      requires Valid()
      modifies this`events, this`nextEvent, this`readEvents
      ensures Model() == Reactor.AddReadableSocket(old(Model()), s)
      ensures Valid()
    {
      if s.id !in readEvents {
        var h := NewEvent(true);
        AddEvent(h, TimeoutOf(s));
        readEvents := readEvents[s.id := h];
      }
    }

    method PauseReadableSocket(id: SocketId)
      requires Valid()
      modifies this`events
      ensures Model() == Reactor.PauseReadableSocket(old(Model()), id)
      ensures Valid()
    {
      if id in readEvents {
        DelEvent(readEvents[id]);
      }
    }

    /** As written: the branch that should re-arm the watch fails, and the
        loop's fields are left as they were in every case. */
    method ResumeReadableSocket(s: Socket) returns (o: Outcome)
      ensures o == Reactor.ResumeReadableSocket(Model(), s)
    {
      if s.id in readEvents && !Pending(events, readEvents[s.id]) {
        o := Crashed(AddOnUndefinedVariable);
      } else {
        o := Completed;
      }
    }

    /** As intended: re-arm the registered watch itself. */
    method ResumeIntended(s: Socket)
      requires Valid()
      modifies this`events
      ensures Model() == Reactor.ResumeIntended(old(Model()), s)
      ensures Valid()
    {
      if s.id in readEvents && !Pending(events, readEvents[s.id]) {
        AddEvent(readEvents[s.id], TimeoutOf(s));
      }
    }

    // ----- write watches ------------------------------------------------------

    method ScheduleWritableSocket(s: Socket)
      requires Valid()
      modifies this`events, this`nextEvent, this`writeEvents
      ensures Model() == Reactor.ScheduleWritableSocket(old(Model()), s)
      ensures Valid()
    {
      if s.id !in writeEvents {
        var h := NewEvent(false);
        writeEvents := writeEvents[s.id := h];
      }
      AddEvent(writeEvents[s.id], None);
    }

    method UnscheduleWritableSocket(id: SocketId)
      requires Valid()
      modifies this`events
      ensures Model() == Reactor.UnscheduleWritableSocket(old(Model()), id)
      ensures Valid()
    {
      if id in writeEvents {
        DelEvent(writeEvents[id]);
      }
    }

    // ----- sockets ------------------------------------------------------------

    method RemoveSocket(id: SocketId)
      requires Valid()
      modifies this`events, this`readEvents, this`writeEvents
      ensures Model() == Reactor.RemoveSocket(old(Model()), id)
      ensures Valid()
    {
      if id in readEvents {
        FreeEvent(readEvents[id]);
        readEvents := readEvents - {id};
      }
      if id in writeEvents {
        FreeEvent(writeEvents[id]);
        writeEvents := writeEvents - {id};
      }
    }

    // ----- timers -------------------------------------------------------------

    method AddTimer(t: Timer)
      requires Valid()
      modifies this`events, this`nextEvent, this`timers
      ensures Model() == Reactor.AddTimer(old(Model()), t)
      ensures Valid()
    {
      if t.id !in timers {
        var h := NewEvent(t.periodic);
        timers := timers[t.id := h];
        AddEvent(h, Some(t.interval));
      }
    }

    method CancelTimer(t: TimerId)
      requires Valid()
      modifies this`events, this`timers
      ensures Model() == Reactor.CancelTimer(old(Model()), t)
      ensures Valid()
    {
      if t in timers {
        FreeEvent(timers[t]);
        timers := timers - {t};
      }
    }

    // ----- clear --------------------------------------------------------------

    method Clear()
      requires Valid()
      modifies this`events, this`readEvents, this`writeEvents, this`timers
      ensures Model() == Reactor.Clear(old(Model()))
      ensures Valid()
    {
      ghost var st := Model();
      WatchesLive(st);
      FreeAllUnion(events, readEvents.Values, writeEvents.Values);
      FreeAllUnion(events, readEvents.Values + writeEvents.Values, timers.Values);
      FreeEach(readEvents.Values);
      FreeEach(writeEvents.Values);
      readEvents := map[];
      writeEvents := map[];
      FreeEach(timers.Values);
      timers := map[];
    }

    // ----- the callbacks, as libevent runs them ---------------------------------

    /** A pending read watch fires and the read callback runs. */
    method FireRead(id: SocketId, what: bv8) returns (c: Call)
      requires Valid() && IsReadableSocketPending(id)
      modifies this`events
      ensures Model() == Reactor.FireRead(old(Model()), id, what).state
      ensures c == Reactor.FireRead(old(Model()), id, what).call
      ensures Valid()
    {
      FireEvent(readEvents[id]);
      c := ReadCallback(what, id);
    }

    /** A scheduled write watch fires and the write callback runs. */
    method FireWrite(id: SocketId) returns (c: Call)
      requires Valid() && IsWritableSocketScheduled(id)
      modifies this`events
      ensures Model() == Reactor.FireWrite(old(Model()), id).state
      ensures c == Reactor.FireWrite(old(Model()), id).call
      ensures Valid()
    {
      FireEvent(writeEvents[id]);
      c := OnWrite(id);
    }

    /** A pending timer watch fires and the timer callback runs: a watch that
        is no longer pending is freed and unregistered before the timer is
        called. */
    method FireTimer(t: TimerId) returns (c: Call)
      requires Valid() && t in timers && Pending(events, timers[t])
      modifies this`events, this`timers
      ensures Model() == Reactor.FireTimer(old(Model()), t).state
      ensures c == Reactor.FireTimer(old(Model()), t).call
      ensures Valid()
    {
      var h := timers[t];
      FireEvent(h);
      if !Pending(events, h) {
        FreeEvent(h);
        timers := timers - {t};
      }
      c := CallTimer(t);
    }
  }
}
