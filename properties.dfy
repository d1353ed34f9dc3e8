/** Properties that relate several operations of the reactor: registered
    versus armed, pause and resume, one-shot and persistent watches, clear,
    and the loop's invariant over any sequence of operations. */
module Properties {
  import opened Natives
  import opened Reactor

  // ----- read watches ----------------------------------------------------------

  /** A paused read watch is registered but not armed, and it still keeps
      the loop from being empty; this holds for a repeated add too. */
  lemma PausedWatchIsRegisteredNotPending(st: State, s: Socket, timerCount: nat, parentEmpty: bool)
    requires Valid(st)
    ensures var p := PauseReadableSocket(AddReadableSocket(st, s), s.id);
      ContainsSocket(p, s.id) && !IsReadableSocketPending(p, s.id)
      && !IsEmpty(p, timerCount, parentEmpty)
  {
  }

  /** Pausing a freshly added watch and resuming it as intended gives back
      exactly the state the add produced: the same watch, armed again, with
      the same timeout. */
  lemma ResumeIntendedUndoesPause(st: State, s: Socket)
    requires Valid(st) && s.id !in st.readEvents
    ensures ResumeIntended(PauseReadableSocket(AddReadableSocket(st, s), s.id), s)
            == AddReadableSocket(st, s)
  {
  }

  /** The defect: resuming a paused watch, as written, fails instead of
      re-arming it, and the watch stays disarmed. */
  lemma ResumeAsWrittenFailsOnPausedWatch(st: State, s: Socket)
    requires Valid(st) && s.id !in st.readEvents
    ensures var p := PauseReadableSocket(AddReadableSocket(st, s), s.id);
      ResumeReadableSocket(p, s) == Crashed(AddOnUndefinedVariable)
      && !IsReadableSocketPending(p, s.id)
      && IsReadableSocketPending(ResumeIntended(p, s), s.id)
  {
  }

  /** Resuming an armed or an unknown watch does nothing, as written and as
      intended alike. */
  lemma ResumeAgreesWhenNotPaused(st: State, s: Socket)
    requires Valid(st)
    requires s.id !in st.readEvents || IsReadableSocketPending(st, s.id)
    ensures ResumeReadableSocket(st, s) == Completed
    ensures ResumeIntended(st, s) == st
  {
  }

  // ----- write watches ---------------------------------------------------------

  /** Scheduling twice is scheduling once. */
  lemma ScheduleIdempotent(st: State, s: Socket)
    requires Valid(st)
    ensures ScheduleWritableSocket(ScheduleWritableSocket(st, s), s)
            == ScheduleWritableSocket(st, s)
  {
  }

  /** A write watch is one-shot: once it fires it is no longer scheduled,
      yet its entry stays and keeps the loop non-empty; scheduling again
      re-arms that same watch instead of creating a second one. */
  lemma WriteWatchIsOneShot(st: State, s: Socket, timerCount: nat, parentEmpty: bool)
    requires Valid(st)
    ensures var a := ScheduleWritableSocket(st, s);
      var f := FireWrite(a, s.id);
      var b := ScheduleWritableSocket(f.state, s);
      !IsWritableSocketScheduled(f.state, s.id) && ContainsSocket(f.state, s.id)
      && !IsEmpty(f.state, timerCount, parentEmpty)
      && IsWritableSocketScheduled(b, s.id) && b.writeEvents == a.writeEvents
      && b.nextEvent == a.nextEvent
  {
  }

  // ----- sockets ---------------------------------------------------------------

  /** Removing a socket twice is removing it once. */
  lemma RemoveSocketIdempotent(st: State, id: SocketId)
    requires Valid(st)
    ensures RemoveSocket(RemoveSocket(st, id), id) == RemoveSocket(st, id)
  {
  }

  /** While any socket is registered, in either table, armed or not, the loop
      is not empty. */
  lemma RegisteredSocketKeepsLoopAlive(st: State, id: SocketId, timerCount: nat, parentEmpty: bool)
    requires ContainsSocket(st, id)
    ensures !IsEmpty(st, timerCount, parentEmpty)
  {
  }

  // ----- timers ----------------------------------------------------------------

  /** A one-shot timer is gone before its callback runs: if the timer adds
      itself again from the callback, a fresh watch is created rather than
      the freed one being reused. */
  lemma OneShotTimerIsGoneBeforeItsCall(st: State, t: Timer)
    requires Valid(st) && t.id !in st.timers && !t.periodic
    ensures var a := AddTimer(st, t);
      var f := FireTimer(a, t.id);
      var again := AddTimer(f.state, t);
      f.call == CallTimer(t.id) && !IsTimerActive(f.state, t.id)
      && !Live(f.state.events, a.timers[t.id])
      && again.timers[t.id] != a.timers[t.id] && Live(again.events, again.timers[t.id])
  {
  }

  /** A periodic timer survives its firing: still registered, still armed. */
  lemma PeriodicTimerSurvivesFiring(st: State, t: Timer)
    requires Valid(st) && t.id !in st.timers && t.periodic
    ensures var a := AddTimer(st, t);
      var f := FireTimer(a, t.id);
      f.state == a && IsTimerActive(f.state, t.id) && Pending(f.state.events, a.timers[t.id])
  {
  }

  /** Cancelling a timer just added frees its watch and restores the timer
      table; cancelling again changes nothing. */
  lemma CancelUndoesAddTimer(st: State, t: Timer)
    requires Valid(st) && t.id !in st.timers
    ensures var c := CancelTimer(AddTimer(st, t), t.id);
      c.timers == st.timers && !IsTimerActive(c, t.id)
      && !Live(c.events, AddTimer(st, t).timers[t.id])
      && CancelTimer(c, t.id) == c
  {
  }

  // ----- clear -----------------------------------------------------------------

  /** After clear the loop is empty exactly when the timer storage and the
      parent report nothing left; clearing twice is clearing once. */
  lemma ClearEmptiesTheTables(st: State, timerCount: nat, parentEmpty: bool)
    requires Valid(st)
    ensures IsEmpty(Clear(st), timerCount, parentEmpty) <==> timerCount == 0 && parentEmpty
    ensures Clear(Clear(st)) == Clear(st)
  {
  }

  // ----- any sequence of operations ---------------------------------------------

  /** One call into the loop, or one watch being fired by libevent. */
  datatype Op =
    | AddRead(s: Socket)
    | PauseRead(id: SocketId)
    | ResumeRead(s: Socket)
    | ScheduleWrite(s: Socket)
    | UnscheduleWrite(id: SocketId)
    | Remove(id: SocketId)
    | StartTimer(t: Timer)
    | Cancel(timer: TimerId)
    | ClearAll
    | ReadFires(id: SocketId, what: bv8)
    | WriteFires(id: SocketId)
    | TimerFires(timer: TimerId)

  /** The state after one operation.  libevent fires only watches that are
      pending, so firing anything else leaves the state as it is. */
  function Apply(st: State, op: Op): (r: State)
    requires Valid(st)
    ensures Valid(r) && Grows(st, r)
  {
    match op
    case AddRead(s) => AddReadableSocket(st, s)
    case PauseRead(id) => PauseReadableSocket(st, id)
    case ResumeRead(s) => ResumeIntended(st, s)
    case ScheduleWrite(s) => ScheduleWritableSocket(st, s)
    case UnscheduleWrite(id) => UnscheduleWritableSocket(st, id)
    case Remove(id) => RemoveSocket(st, id)
    case StartTimer(t) => AddTimer(st, t)
    case Cancel(t) => CancelTimer(st, t)
    case ClearAll => Clear(st)
    case ReadFires(id, what) =>
      if IsReadableSocketPending(st, id) then FireRead(st, id, what).state else st
    case WriteFires(id) =>
      if IsWritableSocketScheduled(st, id) then FireWrite(st, id).state else st
    case TimerFires(t) =>
      if t in st.timers && Pending(st.events, st.timers[t]) then FireTimer(st, t).state else st
  }

  /** The state after a sequence of operations.  Every free() along the way
      is on a live event, so no event is ever freed twice; every table keeps
      referring to live events only; and no freed event comes back. */
  function Run(st: State, ops: seq<Op>): (r: State)
    requires Valid(st)
    ensures Valid(r) && Grows(st, r)
    decreases |ops|
  {
    if ops == [] then st else Run(Apply(st, ops[0]), ops[1..])
  }

  /** Once an event is freed, no later operation puts it back in a table. */
  lemma FreedEventNeverReturns(st: State, ops: seq<Op>, h: EventId)
    requires Valid(st) && h in st.events && st.events[h].freed
    ensures var r := Run(st, ops);
      h in r.events && r.events[h].freed
      && h !in r.readEvents.Values && h !in r.writeEvents.Values
      && h !in r.timers.Values && h !in r.signalEvents.Values
  {
  }

  /** No operation other than removeSocket and clear unregisters a socket. */
  lemma ApplyKeepsSocket(st: State, op: Op, id: SocketId)
    requires Valid(st) && ContainsSocket(st, id)
    requires op != Remove(id) && op != ClearAll
    ensures ContainsSocket(Apply(st, op), id)
  {
  }

  /** A registered socket stays registered, paused, fired or not, until it
      is removed or the loop is cleared. */
  lemma {:induction false} SocketStaysUntilRemoved(st: State, ops: seq<Op>, id: SocketId)
    requires Valid(st) && ContainsSocket(st, id)
    requires forall i :: 0 <= i < |ops| ==> ops[i] != Remove(id) && ops[i] != ClearAll
    ensures ContainsSocket(Run(st, ops), id)
    decreases |ops|
  {
    if ops != [] {
      ApplyKeepsSocket(st, ops[0], id);
      SocketStaysUntilRemoved(Apply(st, ops[0]), ops[1..], id);
    }
  }

  /** The timer is registered with a persistent watch. */
  ghost predicate PeriodicActive(st: State, t: TimerId) {
    t in st.timers && st.timers[t] in st.events && st.events[st.timers[t]].persistent
  }

  /** No operation other than cancelTimer and clear unregisters a periodic
      timer or replaces its watch. */
  lemma ApplyKeepsPeriodicTimer(st: State, op: Op, t: TimerId)
    requires Valid(st) && PeriodicActive(st, t)
    requires op != Cancel(t) && op != ClearAll
    ensures PeriodicActive(Apply(st, op), t) && Apply(st, op).timers[t] == st.timers[t]
  {
  }

  /** A periodic timer stays active, on the same watch, however often it
      fires, until it is cancelled or the loop is cleared. */
  lemma {:induction false} PeriodicTimerStaysUntilCancelled(st: State, ops: seq<Op>, t: TimerId)
    requires Valid(st) && PeriodicActive(st, t)
    requires forall i :: 0 <= i < |ops| ==> ops[i] != Cancel(t) && ops[i] != ClearAll
    ensures IsTimerActive(Run(st, ops), t) && Run(st, ops).timers[t] == st.timers[t]
    decreases |ops|
  {
    if ops != [] {
      ApplyKeepsPeriodicTimer(st, ops[0], t);
      PeriodicTimerStaysUntilCancelled(Apply(st, ops[0]), ops[1..], t);
    }
  }
}
