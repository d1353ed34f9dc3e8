# Registration bookkeeping of Icicle's event-extension loop

This project models `EventLoop`, the reactor of Icicle that runs on the PECL
event extension (libevent). The model covers the loop's bookkeeping:

- `readEvents`: socket id → persistent read watch, optionally with a timeout;
- `writeEvents`: socket id → one-shot write watch;
- `timers`: timer → timeout watch, persistent only for a periodic timer;
- `signalEvents`: signal number → persistent signal watch.

It also covers the queries over these tables and the read, write and timer
callbacks that libevent runs when a watch fires.

The model has four modules:

- `Natives` (natives.dfy) models a native `Event` object as a record. The
  record has four fields: `armed` (what `pending()` reports), `persistent`
  (the `PERSIST` flag), `timeout` and `freed`. It follows libevent's rules:
  - `add()` arms the event;
  - `del()` disarms it;
  - `free()` disarms and releases it;
  - a non-persistent event stops being pending once it fires.

  The events live in an arena owned by the loop. An identity minted at
  creation stands for "the same Event object".
- `Reactor` (reactor.dfy) holds the loop's state as a value. It has one
  function per method of the loop, each with a contract. It also has the
  loop's invariant `Valid`:
  - every event held by a table is live;
  - each event is held by one entry only;
  - read watches are persistent; write watches are one-shot and carry no timeout.

  `Natives.Free` requires a live event. So every `free()` in the model is
  the first one on its event: no handle is freed twice.
- `Properties` (properties.dfy) holds lemmas that relate several operations.
  It also has `Run`, which applies any sequence of calls and firings and
  keeps `Valid`.
- `Loop` (event_loop.dfy) is the class `EventLoop`. Its fields are the
  tables and the event arena, and its methods update them in place. Each
  method is proved to leave the fields exactly as the matching `Reactor`
  function says.

## Model

| member | source | states |
|---|---|---|
| `Natives.Add` | src/Loop/EventLoop.php:179-183 | add() arms the event and records the timeout given, or none; the event's flags and every other event are unchanged |
| `Natives.Del` | src/Loop/EventLoop.php:197 | del() disarms the event but keeps it allocated, with its timeout and flags |
| `Natives.Free` | src/Loop/EventLoop.php:281 | free() is only applied to a live event, leaves it non-pending and released, and touches no other event |
| `Natives.Fire` | src/Loop/EventLoop.php:105 | a firing event stays pending exactly when it is persistent and keeps its flags and its timeout either way; a persistent event is left as it was |
| `Natives.FreeAll` | src/Loop/EventLoop.php:352-358 | freeing each event of a set leaves every one of them released and non-pending and every other event unchanged |
| `Natives.FreeAllUnion` | src/Loop/EventLoop.php:352-365 | freeing the read, then the write, then the timer events in turn is freeing all of them at once; the later sets are still live when their turn comes |
| `Reactor.IsReadableSocketPending` | src/Loop/EventLoop.php:220-225 | the definition is the source's `isset` plus `pending()` test; the ensures add that only a registered socket is pending, and that a registered socket whose read watch is paused is not |
| `Reactor.IsWritableSocketScheduled` | src/Loop/EventLoop.php:244-249 | the definition is the source's `isset` plus `pending()` test; the ensures add that only a socket with a write watch is scheduled, and that one whose watch has fired or been unscheduled is not |
| `Reactor.ContainsSocket` | src/Loop/EventLoop.php:266-271 | the definition is the source's `isset` test on either table; the ensures add that a socket that is pending or scheduled is contained |
| `Reactor.IsTimerActive` | src/Loop/EventLoop.php:324-327 | the definition is the source's `isset` test, whatever the watch's pending state; the ensures add that in a valid loop an active timer never holds a freed watch |
| `Reactor.IsEmpty` | src/Loop/EventLoop.php:150-153 | the loop is empty exactly when no socket is contained, paused or not, the timer storage counts nothing and the parent reports empty |
| `Reactor.AddReadableSocket` | src/Loop/EventLoop.php:172-187 | a second call for a registered id changes nothing; a first call registers a fresh, persistent, pending watch whose timeout is the socket's timeout when non-zero and none otherwise; the invariant holds afterwards; at most that one native event is created |
| `Reactor.PauseReadableSocket` | src/Loop/EventLoop.php:192-199 | afterwards the read watch is not pending while the socket stays registered; the watch keeps its timeout; no native event is created; an unregistered id changes nothing |
| `Reactor.ResumeReadableSocket` | src/Loop/EventLoop.php:204-215 | as written: fails exactly when the id is registered and its watch is not pending; does nothing otherwise |
| `Reactor.ResumeIntended` | src/Loop/EventLoop.php:204-215 | as intended: re-arms the registered watch itself with the socket's timeout; does nothing when the id is unregistered or already pending; no native event is created |
| `Reactor.ScheduleWritableSocket` | src/Loop/EventLoop.php:230-239 | afterwards the write watch is scheduled; an id keeps its existing watch and gets a new, one-shot one only on first use, the only native event created; the armed watch carries no timeout; other tables unchanged |
| `Reactor.UnscheduleWritableSocket` | src/Loop/EventLoop.php:254-261 | afterwards the write watch is not scheduled but stays registered, one-shot and without a timeout; no native event is created; an unregistered id changes nothing |
| `Reactor.RemoveSocket` | src/Loop/EventLoop.php:276-289 | frees the id's read and write watches and deletes both entries; the socket is no longer contained; every other entry and event is unchanged and none is created; an unknown id changes nothing |
| `Reactor.UnsetRead` | src/Loop/EventLoop.php:280-283 | the read half of removeSocket: the id's read watch is freed and its entry unset, no other event is touched or created; an unregistered id changes nothing |
| `Reactor.UnsetWrite` | src/Loop/EventLoop.php:285-288 | the write half of removeSocket: the id's write watch is freed and its entry unset, no other event is touched or created; an id without one changes nothing |
| `Reactor.AddTimer` | src/Loop/EventLoop.php:294-308 | afterwards the timer is active; a first call registers a fresh pending watch with the timer's interval, persistent exactly when the timer is periodic, the only native event created; a second call changes nothing |
| `Reactor.CancelTimer` | src/Loop/EventLoop.php:313-319 | afterwards the timer is inactive and its watch freed, with no other event touched or created; an absent timer changes nothing |
| `Reactor.Clear` | src/Loop/EventLoop.php:348-368 | frees every read, write and timer watch and empties those tables; signal watches stay registered and untouched; no native event is created |
| `Reactor.ReadCallback` | src/Loop/EventLoop.php:92-98 | the read callback calls exactly one of onTimeout and onRead, onTimeout exactly when the TIMEOUT bit is set |
| `Reactor.FireRead` | src/Loop/EventLoop.php:92-98 | a pending read watch that fires leaves the loop's state as it was (the watch is persistent) and hands control to the read callback's choice |
| `Reactor.FireWrite` | src/Loop/EventLoop.php:100-102 | a scheduled write watch that fires is no longer scheduled, stays registered and live, one-shot and without a timeout, no native event is created, and onWrite is called |
| `Reactor.FireTimer` | src/Loop/EventLoop.php:104-111 | a firing one-shot timer is freed and removed before the timer is called; a periodic one stays registered and pending with the state unchanged; no native event is created |
| `Properties.PausedWatchIsRegisteredNotPending` | src/Loop/EventLoop.php:192-225 | after add and pause the socket is contained but not pending, and the loop is not empty |
| `Properties.ResumeIntendedUndoesPause` | src/Loop/EventLoop.php:204-215 | add, pause, then the intended resume gives exactly the state after the add: same watch, armed, same timeout |
| `Properties.ResumeAsWrittenFailsOnPausedWatch` | src/Loop/EventLoop.php:208-213 | after add and pause, resume as written fails and the watch stays disarmed, where the intended resume re-arms it |
| `Properties.ResumeAgreesWhenNotPaused` | src/Loop/EventLoop.php:208 | for an unknown or pending watch both resumes do nothing |
| `Properties.ScheduleIdempotent` | src/Loop/EventLoop.php:230-239 | scheduling a write watch twice is scheduling it once |
| `Properties.WriteWatchIsOneShot` | src/Loop/EventLoop.php:230-249 | once a write watch fires it is not scheduled but its entry stays and keeps the loop non-empty; rescheduling re-arms the same watch without creating another |
| `Properties.RemoveSocketIdempotent` | src/Loop/EventLoop.php:276-289 | removing a socket twice is removing it once |
| `Properties.RegisteredSocketKeepsLoopAlive` | src/Loop/EventLoop.php:150-153 | a socket registered in either table, armed or not, makes isEmpty false |
| `Properties.OneShotTimerIsGoneBeforeItsCall` | src/Loop/EventLoop.php:104-111 | after a one-shot timer fires it is inactive and its watch freed, so a timer re-adding itself from its call gets a fresh live watch |
| `Properties.PeriodicTimerSurvivesFiring` | src/Loop/EventLoop.php:104-111 | a periodic timer that fires stays active with its watch pending, and the state is unchanged |
| `Properties.CancelUndoesAddTimer` | src/Loop/EventLoop.php:294-319 | cancelling a timer just added restores the timer table and frees its watch; cancelling again changes nothing |
| `Properties.ClearEmptiesTheTables` | src/Loop/EventLoop.php:348-368 | after clear, isEmpty holds exactly when the timer count and the parent report nothing; clearing twice is clearing once |
| `Properties.Apply` | src/Loop/EventLoop.php:172-327 | every public operation and every firing keeps the invariant, and never un-frees or drops an event; resume is the intended one (`Reactor.ResumeIntended`), since the as-written resume changes no state |
| `Properties.Run` | src/Loop/EventLoop.php:172-368 | over any sequence of operations the invariant holds and freed events stay freed, so no handle is ever freed twice; a resume in the sequence is the intended one, the as-written resume changing no state |
| `Properties.FreedEventNeverReturns` | src/Loop/EventLoop.php:276-368 | a freed event stays freed and is never again held by any table |
| `Properties.ApplyKeepsSocket` | src/Loop/EventLoop.php:192-289 | no operation other than removeSocket and clear unregisters a socket |
| `Properties.SocketStaysUntilRemoved` | src/Loop/EventLoop.php:266-289 | a registered socket stays contained across any sequence of operations, paused, fired or not, until it is removed or the loop is cleared |
| `Properties.ApplyKeepsPeriodicTimer` | src/Loop/EventLoop.php:294-319 | no operation other than cancelTimer and clear unregisters a periodic timer or replaces its persistent watch |
| `Properties.PeriodicTimerStaysUntilCancelled` | src/Loop/EventLoop.php:104-111 | a periodic timer stays active on the same watch across any sequence of operations and firings until it is cancelled or the loop is cleared |
| `Loop.EventLoop.constructor` | src/Loop/EventLoop.php:82-90 | one persistent, armed watch per listed signal; no socket or timer registered |
| `Loop.EventLoop.FreeEach` | src/Loop/EventLoop.php:352-358 | the foreach loop frees each event of the table once, ending with the events as the set-wide free says |
| `Loop.EventLoop.AddReadableSocket` | src/Loop/EventLoop.php:172-187 | updates the fields as `Reactor.AddReadableSocket` |
| `Loop.EventLoop.PauseReadableSocket` | src/Loop/EventLoop.php:192-199 | updates the fields as `Reactor.PauseReadableSocket` |
| `Loop.EventLoop.ResumeReadableSocket` | src/Loop/EventLoop.php:204-215 | changes no field and reports the outcome of `Reactor.ResumeReadableSocket` |
| `Loop.EventLoop.ResumeIntended` | src/Loop/EventLoop.php:204-215 | updates the fields as `Reactor.ResumeIntended` |
| `Loop.EventLoop.ScheduleWritableSocket` | src/Loop/EventLoop.php:230-239 | updates the fields as `Reactor.ScheduleWritableSocket` |
| `Loop.EventLoop.UnscheduleWritableSocket` | src/Loop/EventLoop.php:254-261 | updates the fields as `Reactor.UnscheduleWritableSocket` |
| `Loop.EventLoop.RemoveSocket` | src/Loop/EventLoop.php:276-289 | updates the fields as `Reactor.RemoveSocket` |
| `Loop.EventLoop.AddTimer` | src/Loop/EventLoop.php:294-308 | updates the fields as `Reactor.AddTimer` |
| `Loop.EventLoop.CancelTimer` | src/Loop/EventLoop.php:313-319 | updates the fields as `Reactor.CancelTimer` |
| `Loop.EventLoop.Clear` | src/Loop/EventLoop.php:348-368 | the three free loops and table resets leave the fields as `Reactor.Clear` |
| `Loop.EventLoop.FireRead` | src/Loop/EventLoop.php:92-98 | fields and call as `Reactor.FireRead` |
| `Loop.EventLoop.FireWrite` | src/Loop/EventLoop.php:100-102 | fields and call as `Reactor.FireWrite` |
| `Loop.EventLoop.FireTimer` | src/Loop/EventLoop.php:104-111 | fields and call as `Reactor.FireTimer` |

## Left out

- `dispatch` and `reInit` (src/Loop/EventLoop.php:142-167) hand control to libevent's own loop. Firing one watch is modelled by `FireRead`, `FireWrite` and `FireTimer`; which watches fire, and when, is libevent's choice.
- `enabled()` and the `UnsupportedException` thrown by the constructor (src/Loop/EventLoop.php:63-75) are an environment check.
- The signal list and the signal-handling flag come from the parent class `AbstractLoop`, which is not part of this model. The constructor takes the resulting list as a parameter. The signal callback is not modelled.
- `parent::isEmpty()`, `parent::clear()` and the timer storage's `count()` come from `AbstractLoop` and `UnreferencableObjectStorage`, neither of which is part of this model. `IsEmpty` takes the count and the parent's answer as inputs.
- `referenceTimer` and `unreferenceTimer` (src/Loop/EventLoop.php:332-343) only forward to `UnreferencableObjectStorage`. Their rules are outside this model.
- `__destruct` calls `stop()` from the parent class when the loop is running. It frees the same events as `clear` plus the signal watches, and the loop is not used afterwards.
- The socket and timer callbacks (`onRead`, `onTimeout`, `onWrite`, `call`) are outside code. A firing returns the call to make as a `Call` value. Anything that code does to the loop afterwards is a later operation in `Properties.Run`.
- Timeouts and intervals are PHP floats. They are carried into `add()` as opaque `real` values, and a zero timeout counts as none (PHP truthiness).
- `Natives.Add` replaces the event's timeout on every call. libevent's `add()` with no timeout keeps the timeout of an event that is already pending. In the model, `add()` with no timeout reaches a pending event only for write watches, which never carry a timeout. A resumed read watch is not pending when it is added again.
- `Reactor.FireRead`, `Reactor.FireWrite`, `Reactor.FireTimer`: these require the watch to be registered and pending, because libevent fires only pending, live events.
- The promise engine (`Promise`, `Deferred`, the settle combinator) is not part of this model. src/Promise/Deferred.php only forwards to `Promise`, and `Promise` is not part of this model.
- Three behaviours of the code differ from what a caller might expect; the model follows the code:
  - `isEmpty` tests whether the read and write tables are empty, not whether their watches are armed.
  - A second `addReadableSocket` does not re-arm the watch.
  - `resumeReadableSocket` fails instead of re-arming.

## Findings

| source | as written | input that shows it | evidently intended | confidence | as-written member | corrected member |
|---|---|---|---|---|---|---|
| src/Loop/EventLoop.php:208-213 | when the read watch is registered and not pending, `add()` is called on `$event`, a variable never assigned in `resumeReadableSocket`, so the call fails and the watch stays paused | `addReadableSocket($s)`, then `pauseReadableSocket($s)`, then `resumeReadableSocket($s)` | re-arm `$this->readEvents[$id]` with the socket's timeout | not executed; high | `Properties.ResumeAsWrittenFailsOnPausedWatch` | `Properties.ResumeIntendedUndoesPause` |
