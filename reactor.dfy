/** The registration bookkeeping of the event-extension reactor, as values:
    the three tables (read watches, write watches, timers), the signal
    table, and the native events they refer to.  There is one function per
    method of the loop; the class in module Loop is proved to update its
    fields exactly as these functions say. */
module Reactor {
  import opened Natives

  /** `$socket->getId()`. */
  type SocketId = int

  /** Identity of a timer object (the key of the timer storage). */
  type TimerId = nat

  type Signal = int

  /** What the loop asks of a socket: its id and `getTimeout()`. */
  datatype Socket = Socket(id: SocketId, timeout: Seconds)

  /** What the loop asks of a timer: its identity, `isPeriodic()` and
      `getInterval()`. */
  datatype Timer = Timer(id: TimerId, periodic: bool, interval: Seconds)

  /** The loop's tables, and every native event it has created. */
  datatype State = State(
    events: Events,
    nextEvent: EventId,
    readEvents: map<SocketId, EventId>,
    writeEvents: map<SocketId, EventId>,
    timers: map<TimerId, EventId>,
    signalEvents: map<Signal, EventId>)

  /** The callback a dispatched watch hands control to. */
  datatype Call =
    | OnRead(socket: SocketId)
    | OnTimeout(socket: SocketId)
    | OnWrite(socket: SocketId)
    | CallTimer(timer: TimerId)

  /** A watch firing: the loop's state once its callback has done its own
      bookkeeping, and the call it then makes. */
  datatype Fired = Fired(state: State, call: Call)

  /** The failure of resumeReadableSocket: add() is called on `$event`,
      a variable that was never assigned. */
  datatype Fault = AddOnUndefinedVariable
  datatype Outcome = Completed | Crashed(fault: Fault)

  // ----- invariant -----------------------------------------------------------

  /** Every event a table refers to is live. */
  predicate TableLive<K>(es: Events, m: map<K, EventId>) {
    forall k :: k in m ==> Live(es, m[k])
  }

  /** No two entries of a table share an event. */
  predicate Injective<K>(m: map<K, EventId>) {
    forall a, b :: a in m && b in m && a != b ==> m[a] != m[b]
  }

  /** No event is in both tables. */
  predicate Disjoint<K, L>(m: map<K, EventId>, n: map<L, EventId>) {
    forall a, b :: a in m && b in n ==> m[a] != n[b]
  }

  /** The invariant of the loop: every event held by a table is live and is
      held by that one entry only (so freeing an entry frees nothing else,
      and no handle is ever freed twice); read watches are persistent and
      write watches one-shot and without a timeout; identities are minted in
      order. */
  ghost predicate Valid(st: State) {
    (forall h :: h in st.events ==> h < st.nextEvent)
    && TableLive(st.events, st.readEvents) && TableLive(st.events, st.writeEvents)
    && TableLive(st.events, st.timers) && TableLive(st.events, st.signalEvents)
    && Injective(st.readEvents) && Injective(st.writeEvents)
    && Injective(st.timers) && Injective(st.signalEvents)
    && Disjoint(st.readEvents, st.writeEvents) && Disjoint(st.readEvents, st.timers)
    && Disjoint(st.readEvents, st.signalEvents) && Disjoint(st.writeEvents, st.timers)
    && Disjoint(st.writeEvents, st.signalEvents) && Disjoint(st.timers, st.signalEvents)
    && (forall id :: id in st.readEvents ==> st.events[st.readEvents[id]].persistent)
    && (forall id :: id in st.writeEvents ==> !st.events[st.writeEvents[id]].persistent)
    && (forall id :: id in st.writeEvents ==> st.events[st.writeEvents[id]].timeout == None)
  }

  /** What every operation keeps: no event disappears, none is un-freed, and
      identities are never reused. */
  ghost predicate Grows(st: State, r: State) {
    st.events.Keys <= r.events.Keys && st.nextEvent <= r.nextEvent
    && (forall h :: h in st.events && st.events[h].freed ==> r.events[h].freed)
  }

  /** Only the events in `touched` differ between the two states. */
  ghost predicate OthersUnchanged(st: State, r: State, touched: set<EventId>) {
    forall h :: h in st.events && h !in touched ==> h in r.events && r.events[h] == st.events[h]
  }

  predicate SameTables(st: State, r: State) {
    r.readEvents == st.readEvents && r.writeEvents == st.writeEvents
    && r.timers == st.timers && r.signalEvents == st.signalEvents
  }

  /** No native event is created. */
  predicate SameArena(st: State, r: State) {
    r.events.Keys == st.events.Keys && r.nextEvent == st.nextEvent
  }

  /** At most one native event is created, and it is `h`. */
  predicate OneNewEvent(st: State, r: State, h: EventId) {
    r.events.Keys <= st.events.Keys + {h} && r.nextEvent <= st.nextEvent + 1
  }

  // ----- queries -------------------------------------------------------------

  /** isReadableSocketPending(): the socket is registered and its read watch
      is armed; a paused watch is registered but not pending. */
  predicate IsReadableSocketPending(st: State, id: SocketId): (b: bool)
    ensures b ==> id in st.readEvents
    ensures id in st.readEvents && !Pending(st.events, st.readEvents[id]) ==> !b
  {
    id in st.readEvents && Pending(st.events, st.readEvents[id])
  }

  /** isWritableSocketScheduled(): the socket has a write watch and it is
      armed; a watch that has fired is registered but not scheduled. */
  predicate IsWritableSocketScheduled(st: State, id: SocketId): (b: bool)
    ensures b ==> id in st.writeEvents
    ensures id in st.writeEvents && !Pending(st.events, st.writeEvents[id]) ==> !b
  {
    id in st.writeEvents && Pending(st.events, st.writeEvents[id])
  }

  /** containsSocket(): registered in either table, armed or not; a socket
      that is pending or scheduled is contained. */
  predicate ContainsSocket(st: State, id: SocketId): (b: bool)
    ensures IsReadableSocketPending(st, id) || IsWritableSocketScheduled(st, id) ==> b
  {
    id in st.readEvents || id in st.writeEvents
  }

  /** isTimerActive(): the timer is registered, whether or not its watch is
      pending at this moment; in a valid loop an active timer never holds a
      freed watch. */
  predicate IsTimerActive(st: State, t: TimerId): (b: bool)
    ensures Valid(st) && b ==> t in st.timers && Live(st.events, st.timers[t])
  {
    t in st.timers
  }

  /** isEmpty(): `timerCount` is what the timer storage's count() reports and
      `parentEmpty` what the parent class's isEmpty() reports; the rules of
      both are outside this model.  The loop is empty exactly when no socket
      is contained, paused or not, and both of those report nothing. */
  predicate IsEmpty(st: State, timerCount: nat, parentEmpty: bool): (b: bool)
    ensures b <==> (forall id :: !ContainsSocket(st, id)) && timerCount == 0 && parentEmpty
  {
    NoSocket(st);
    |st.readEvents| == 0 && |st.writeEvents| == 0 && timerCount == 0 && parentEmpty
  }

  /** The socket tables have no entry exactly when no socket is contained. */
  lemma NoSocket(st: State)
    ensures |st.readEvents| == 0 && |st.writeEvents| == 0 <==> forall id :: !ContainsSocket(st, id)
  {
    if forall id :: !ContainsSocket(st, id) {
      forall id ensures id !in st.readEvents && id !in st.writeEvents {
        assert !ContainsSocket(st, id);
      }
      assert st.readEvents == map[];
      assert st.writeEvents == map[];
    }
  }

  /** PHP truthiness of `getTimeout()`: a zero timeout means none, any other
      value is passed to add() unchanged. */
  function TimeoutOf(s: Socket): Option<Seconds> {
    if s.timeout != 0.0 then Some(s.timeout) else None
  }

  // ----- read watches ----------------------------------------------------------

  /** addReadableSocket: a first call creates a persistent read watch, arms it
      (with the socket's timeout when it has one) and registers it; any
      later call for the same id changes nothing. */
  function AddReadableSocket(st: State, s: Socket): (r: State)
    requires Valid(st)
    ensures Valid(r) && Grows(st, r) && OthersUnchanged(st, r, {})
    ensures s.id in st.readEvents ==> r == st
    ensures r.readEvents.Keys == st.readEvents.Keys + {s.id}
    ensures forall id :: id in st.readEvents ==> r.readEvents[id] == st.readEvents[id]
    ensures s.id !in st.readEvents ==>
      r.readEvents[s.id] !in st.events && IsReadableSocketPending(r, s.id)
      && r.events[r.readEvents[s.id]].persistent
      && r.events[r.readEvents[s.id]].timeout == TimeoutOf(s)
    ensures OneNewEvent(st, r, r.readEvents[s.id])
    ensures r.writeEvents == st.writeEvents && r.timers == st.timers
    ensures r.signalEvents == st.signalEvents
  {
    if s.id in st.readEvents then st
    else
      var h := st.nextEvent;
      var es := Add(st.events[h := Created(true)], h, TimeoutOf(s));
      st.(events := es, nextEvent := h + 1, readEvents := st.readEvents[s.id := h])
  }

  /** pauseReadableSocket: disarm the read watch but keep it registered. */
  function PauseReadableSocket(st: State, id: SocketId): (r: State)
    requires Valid(st)
    ensures Valid(r) && Grows(st, r) && SameTables(st, r) && SameArena(st, r)
    ensures !IsReadableSocketPending(r, id)
    ensures ContainsSocket(r, id) <==> ContainsSocket(st, id)
    ensures id !in st.readEvents ==> r == st
    ensures id in st.readEvents ==>
      var h := st.readEvents[id];
      OthersUnchanged(st, r, {h}) && Live(r.events, h)
      && r.events[h].timeout == st.events[h].timeout
  {
    if id in st.readEvents then st.(events := Del(st.events, st.readEvents[id]))
    else st
  }

  /** resumeReadableSocket as written: when the watch is registered and not
      pending, the body calls add() on an unassigned variable and the call
      fails; in every other case it does nothing.  It never changes the
      loop's state. */
  function ResumeReadableSocket(st: State, s: Socket): (o: Outcome)
    ensures o.Crashed? <==> s.id in st.readEvents && !IsReadableSocketPending(st, s.id)
  {
    if s.id in st.readEvents && !Pending(st.events, st.readEvents[s.id]) then
      Crashed(AddOnUndefinedVariable)
    else
      Completed
  }

  /** resumeReadableSocket as intended: re-arm the registered read watch
      itself, with the socket's timeout. */
  function ResumeIntended(st: State, s: Socket): (r: State)
    requires Valid(st)
    ensures Valid(r) && Grows(st, r) && SameTables(st, r) && SameArena(st, r)
    ensures s.id in st.readEvents ==> IsReadableSocketPending(r, s.id)
    ensures s.id !in st.readEvents || IsReadableSocketPending(st, s.id) ==> r == st
    ensures s.id in st.readEvents && !IsReadableSocketPending(st, s.id) ==>
      var h := st.readEvents[s.id];
      OthersUnchanged(st, r, {h}) && r.events[h].timeout == TimeoutOf(s)
  {
    if s.id in st.readEvents && !Pending(st.events, st.readEvents[s.id]) then
      st.(events := Add(st.events, st.readEvents[s.id], TimeoutOf(s)))
    else
      st
  }

  // ----- write watches ---------------------------------------------------------

  /** scheduleWritableSocket: create the one-shot write watch on first use,
      then arm it; an id never gets a second write watch. */
  function ScheduleWritableSocket(st: State, s: Socket): (r: State)
    requires Valid(st)
    ensures Valid(r) && Grows(st, r)
    ensures IsWritableSocketScheduled(r, s.id)
    ensures !r.events[r.writeEvents[s.id]].persistent
    ensures r.events[r.writeEvents[s.id]].timeout == None
    ensures OneNewEvent(st, r, r.writeEvents[s.id])
    ensures r.writeEvents.Keys == st.writeEvents.Keys + {s.id}
    ensures forall id :: id in st.writeEvents ==> r.writeEvents[id] == st.writeEvents[id]
    ensures s.id !in st.writeEvents ==> r.writeEvents[s.id] !in st.events
    ensures OthersUnchanged(st, r, if s.id in st.writeEvents then {st.writeEvents[s.id]} else {})
    ensures r.readEvents == st.readEvents && r.timers == st.timers
    ensures r.signalEvents == st.signalEvents
  {
    if s.id in st.writeEvents then
      st.(events := Add(st.events, st.writeEvents[s.id], None))
    else
      var h := st.nextEvent;
      var es := Add(st.events[h := Created(false)], h, None);
      st.(events := es, nextEvent := h + 1, writeEvents := st.writeEvents[s.id := h])
  }

  /** unscheduleWritableSocket: disarm the write watch, keep it registered. */
  function UnscheduleWritableSocket(st: State, id: SocketId): (r: State)
    requires Valid(st)
    ensures Valid(r) && Grows(st, r) && SameTables(st, r) && SameArena(st, r)
    ensures !IsWritableSocketScheduled(r, id)
    ensures ContainsSocket(r, id) <==> ContainsSocket(st, id)
    ensures id !in st.writeEvents ==> r == st
    ensures id in st.writeEvents ==> OthersUnchanged(st, r, {st.writeEvents[id]})
  {
    if id in st.writeEvents then st.(events := Del(st.events, st.writeEvents[id]))
    else st
  }

  // ----- sockets ---------------------------------------------------------------

  /** The events registered for a socket id, in either table. */
  function SocketEvents(st: State, id: SocketId): set<EventId> {
    (if id in st.readEvents then {st.readEvents[id]} else {})
    + (if id in st.writeEvents then {st.writeEvents[id]} else {})
  }

  /** removeSocket: free and unregister the read watch and the write watch of
      the id; every other entry stays as it was. */
  function RemoveSocket(st: State, id: SocketId): (r: State)
    requires Valid(st)
    ensures Valid(r) && Grows(st, r) && SameArena(st, r)
    ensures !ContainsSocket(r, id)
    ensures forall h :: h in SocketEvents(st, id) ==> !Live(r.events, h)
    ensures OthersUnchanged(st, r, SocketEvents(st, id))
    ensures r.readEvents == st.readEvents - {id} && r.writeEvents == st.writeEvents - {id}
    ensures r.timers == st.timers && r.signalEvents == st.signalEvents
    ensures !ContainsSocket(st, id) ==> r == st
  {
    UnsetWrite(UnsetRead(st, id), id)
  }

  /** The read half of removeSocket: free and unset the read watch. */
  function UnsetRead(st: State, id: SocketId): (r: State)
    requires Valid(st)
    ensures Valid(r) && Grows(st, r) && SameArena(st, r)
    ensures r.readEvents == st.readEvents - {id}
    ensures r.writeEvents == st.writeEvents && r.timers == st.timers
    ensures r.signalEvents == st.signalEvents
    ensures id in st.readEvents ==>
      !Live(r.events, st.readEvents[id]) && OthersUnchanged(st, r, {st.readEvents[id]})
    ensures id !in st.readEvents ==> r == st
  {
    if id in st.readEvents then
      st.(events := Free(st.events, st.readEvents[id]), readEvents := st.readEvents - {id})
    else st
  }

  /** The write half of removeSocket: free and unset the write watch. */
  function UnsetWrite(st: State, id: SocketId): (r: State)
    requires Valid(st)
    ensures Valid(r) && Grows(st, r) && SameArena(st, r)
    ensures r.writeEvents == st.writeEvents - {id}
    ensures r.readEvents == st.readEvents && r.timers == st.timers
    ensures r.signalEvents == st.signalEvents
    ensures id in st.writeEvents ==>
      !Live(r.events, st.writeEvents[id]) && OthersUnchanged(st, r, {st.writeEvents[id]})
    ensures id !in st.writeEvents ==> r == st
  {
    if id in st.writeEvents then
      st.(events := Free(st.events, st.writeEvents[id]), writeEvents := st.writeEvents - {id})
    else st
  }

  // ----- timers ----------------------------------------------------------------

  /** addTimer: a first call creates a timeout watch that is persistent
      exactly when the timer is periodic, registers it and arms it with the
      timer's interval; a later call changes nothing. */
  function AddTimer(st: State, t: Timer): (r: State)
    requires Valid(st)
    ensures Valid(r) && Grows(st, r) && OthersUnchanged(st, r, {})
    ensures IsTimerActive(r, t.id) && OneNewEvent(st, r, r.timers[t.id])
    ensures t.id in st.timers ==> r == st
    ensures r.timers.Keys == st.timers.Keys + {t.id}
    ensures forall k :: k in st.timers ==> r.timers[k] == st.timers[k]
    ensures t.id !in st.timers ==>
      var h := r.timers[t.id];
      h !in st.events && Pending(r.events, h)
      && (r.events[h].persistent <==> t.periodic) && r.events[h].timeout == Some(t.interval)
    ensures r.readEvents == st.readEvents && r.writeEvents == st.writeEvents
    ensures r.signalEvents == st.signalEvents
  {
    if t.id in st.timers then st
    else
      var h := st.nextEvent;
      var st1 := st.(events := st.events[h := Created(t.periodic)], nextEvent := h + 1,
                     timers := st.timers[t.id := h]);
      st1.(events := Add(st1.events, h, Some(t.interval)))
  }

  /** cancelTimer: free and unregister the timer's watch, if it has one. */
  function CancelTimer(st: State, t: TimerId): (r: State)
    requires Valid(st)
    ensures Valid(r) && Grows(st, r) && SameArena(st, r)
    ensures !IsTimerActive(r, t)
    ensures t !in st.timers ==> r == st
    ensures t in st.timers ==>
      !Live(r.events, st.timers[t]) && OthersUnchanged(st, r, {st.timers[t]})
    ensures r.timers == st.timers - {t}
    ensures r.readEvents == st.readEvents && r.writeEvents == st.writeEvents
    ensures r.signalEvents == st.signalEvents
  {
    if t in st.timers then
      st.(events := Free(st.events, st.timers[t]), timers := st.timers - {t})
    else st
  }

  // ----- clear -----------------------------------------------------------------

  /** All events held by the read, write and timer tables. */
  function Watches(st: State): set<EventId> {
    st.readEvents.Values + st.writeEvents.Values + st.timers.Values
  }

  /** clear: free every read, write and timer watch and empty those tables;
      the signal watches stay registered and armed as they were. */
  function Clear(st: State): (r: State)
    requires Valid(st)
    ensures Valid(r) && Grows(st, r) && SameArena(st, r)
    ensures r.readEvents == map[] && r.writeEvents == map[] && r.timers == map[]
    ensures r.signalEvents == st.signalEvents
    ensures forall h :: h in Watches(st) ==> !Live(r.events, h)
    ensures OthersUnchanged(st, r, Watches(st))
  {
    WatchesLive(st);
    st.(events := FreeAll(st.events, Watches(st)),
        readEvents := map[], writeEvents := map[], timers := map[])
  }

  /** Every watch of a valid state is live. */
  lemma WatchesLive(st: State)
    requires Valid(st)
    ensures forall h :: h in Watches(st) ==> Live(st.events, h)
    ensures st.signalEvents.Values !! Watches(st)
  {
  }

  // ----- the callbacks the watches run when libevent fires them ---------------

  /** The read callback: a timeout goes to onTimeout(), readiness to
      onRead(), chosen by the TIMEOUT bit of what libevent reports. */
  function ReadCallback(what: bv8, id: SocketId): (c: Call)
    ensures c == OnTimeout(id) || c == OnRead(id)
    ensures c.OnTimeout? <==> what & TIMEOUT != 0
  {
    if what & TIMEOUT != 0 then OnTimeout(id) else OnRead(id)
  }

  /** A pending read watch fires: being persistent it stays pending and
      registered, and the read callback picks the socket's handler. */
  function FireRead(st: State, id: SocketId, what: bv8): (r: Fired)
    requires Valid(st) && IsReadableSocketPending(st, id)
    ensures r.state == st
    ensures r.call == ReadCallback(what, id)
  {
    Fired(st.(events := Fire(st.events, st.readEvents[id])), ReadCallback(what, id))
  }

  /** A scheduled write watch fires: being one-shot it is no longer
      scheduled, yet it stays registered; the write callback calls onWrite(). */
  function FireWrite(st: State, id: SocketId): (r: Fired)
    requires Valid(st) && IsWritableSocketScheduled(st, id)
    ensures Valid(r.state) && Grows(st, r.state) && SameTables(st, r.state)
    ensures SameArena(st, r.state)
    ensures !IsWritableSocketScheduled(r.state, id) && ContainsSocket(r.state, id)
    ensures Live(r.state.events, st.writeEvents[id])
    ensures OthersUnchanged(st, r.state, {st.writeEvents[id]})
    ensures r.call == OnWrite(id)
  {
    Fired(st.(events := Fire(st.events, st.writeEvents[id])), OnWrite(id))
  }

  /** A pending timer watch fires.  libevent disarms a one-shot watch; the
      timer callback then sees it is no longer pending and frees and
      unregisters it BEFORE calling the timer.  A periodic watch stays
      pending and registered. */
  function FireTimer(st: State, t: TimerId): (r: Fired)
    requires Valid(st) && t in st.timers && Pending(st.events, st.timers[t])
    ensures Valid(r.state) && Grows(st, r.state) && SameArena(st, r.state)
    ensures r.call == CallTimer(t)
    ensures st.events[st.timers[t]].persistent ==> r.state == st
    ensures !st.events[st.timers[t]].persistent ==>
      !IsTimerActive(r.state, t) && !Live(r.state.events, st.timers[t])
      && r.state.timers == st.timers - {t}
    ensures OthersUnchanged(st, r.state, {st.timers[t]})
    ensures r.state.readEvents == st.readEvents && r.state.writeEvents == st.writeEvents
    ensures r.state.signalEvents == st.signalEvents
  {
    var h := st.timers[t];
    var st1 := st.(events := Fire(st.events, h));
    var st2 :=
      if !Pending(st1.events, h) then
        st1.(events := Free(st1.events, h), timers := st1.timers - {t})
      else st1;
    Fired(st2, CallTimer(t))
  }
}
