/** The native side of the reactor: the `Event` objects of the PECL event
    extension, with libevent's semantics for add(), del(), free() and for an
    event firing.  The loop owns every Event it creates; here they live in an
    arena indexed by an identity minted at creation, so that "the same Event
    object" is "the same EventId". */
module Natives {

  datatype Option<T> = None | Some(value: T)

  /** A duration in seconds: a PHP float in the source, carried into add()
      unchanged and never computed with. */
  type Seconds = real

  /** Identity of one native Event object. */
  type EventId = nat

  /** The event extension's TIMEOUT flag bit (libevent's EV_TIMEOUT), set in
      the `what` a callback receives when the event fired by timing out. */
  const TIMEOUT: bv8 := 0x01

  /** One native Event object.
      armed:      what pending() reports;
      persistent: created with the PERSIST flag;
      timeout:    the timeout given to the last add(), if any;
      freed:      free() has been called on it. */
  datatype Event = Event(persistent: bool, armed: bool, timeout: Option<Seconds>, freed: bool)

  type Events = map<EventId, Event>

  /** An event that exists and has not been freed. */
  predicate Live(es: Events, h: EventId) {
    h in es && !es[h].freed
  }

  /** pending(): the event is armed. */
  predicate Pending(es: Events, h: EventId) {
    h in es && es[h].armed
  }

  /** `new Event(..., flags, ...)`: a fresh event, not yet added. */
  function Created(persistent: bool): Event {
    Event(persistent, false, None, false)
  }

  /** add() or add($timeout): arm the event, with that timeout or none. */
  function Add(es: Events, h: EventId, timeout: Option<Seconds>): (r: Events)
    requires Live(es, h)
    ensures r.Keys == es.Keys && Live(r, h) && Pending(r, h)
    ensures r[h].timeout == timeout && r[h].persistent == es[h].persistent
    ensures forall g :: g in es && g != h ==> r[g] == es[g]
  {
    es[h := es[h].(armed := true, timeout := timeout)]
  }

  /** del(): disarm the event; it stays allocated and keeps its flags. */
  function Del(es: Events, h: EventId): (r: Events)
    requires Live(es, h)
    ensures r.Keys == es.Keys && Live(r, h) && !Pending(r, h)
    ensures r[h].timeout == es[h].timeout && r[h].persistent == es[h].persistent
    ensures forall g :: g in es && g != h ==> r[g] == es[g]
  {
    es[h := es[h].(armed := false)]
  }

  /** free(): make the event non-pending and release it.  Requiring a live
      event is what makes every free() in the model the first one. */
  function Free(es: Events, h: EventId): (r: Events)
    requires Live(es, h)
    ensures r.Keys == es.Keys && !Live(r, h) && !Pending(r, h)
    ensures r[h].persistent == es[h].persistent && r[h].timeout == es[h].timeout
    ensures forall g :: g in es && g != h ==> r[g] == es[g]
  {
    es[h := es[h].(armed := false, freed := true)]
  }

  /** libevent activating a pending event: a non-persistent event stops being
      pending once it fires, a persistent one stays pending. */
  function Fire(es: Events, h: EventId): (r: Events)
    requires Live(es, h) && Pending(es, h)
    ensures r.Keys == es.Keys && Live(r, h)
    ensures Pending(r, h) <==> es[h].persistent
    ensures r[h].persistent == es[h].persistent && r[h].timeout == es[h].timeout
    ensures es[h].persistent ==> r == es
    ensures forall g :: g in es && g != h ==> r[g] == es[g]
  {
    es[h := es[h].(armed := es[h].persistent)]
  }

  /** Free every event of `hs`, each exactly once (a `foreach` over a table
      calling free() on each entry). */
  function FreeAll(es: Events, hs: set<EventId>): (r: Events)
    requires forall h :: h in hs ==> Live(es, h)
    ensures r.Keys == es.Keys
    ensures forall h :: h in hs ==> !Live(r, h) && !Pending(r, h)
    ensures forall g :: g in es && g !in hs ==> r[g] == es[g]
  {
    map g | g in es :: if g in hs then es[g].(armed := false, freed := true) else es[g]
  }

  /** Freeing one more event extends FreeAll by that event. */
  lemma FreeAllStep(es: Events, done: set<EventId>, h: EventId)
    requires forall g :: g in done ==> Live(es, g)
    requires Live(es, h) && h !in done
    ensures Free(FreeAll(es, done), h) == FreeAll(es, done + {h})
  {
  }

  /** Freeing two disjoint sets one after the other frees their union. */
  lemma FreeAllUnion(es: Events, a: set<EventId>, b: set<EventId>)
    requires forall h :: h in a ==> Live(es, h)
    requires forall h :: h in b ==> Live(es, h)
    requires a !! b
    ensures forall h :: h in b ==> Live(FreeAll(es, a), h)
    ensures FreeAll(FreeAll(es, a), b) == FreeAll(es, a + b)
  {
  }
}
