/** What the event loop does when it looks at the clock: firing every expired event. */
module Timeouts {
  import opened HeapOrder
  import opened EventHeap

  class Session {
    const recvEvent: Event
    const sendEvent: Event
    var running: int

    constructor (recvEvent: Event, sendEvent: Event)
      ensures this.recvEvent == recvEvent && this.sendEvent == sendEvent && running == 0
    {
      this.recvEvent, this.sendEvent := recvEvent, sendEvent;
      running := 0;
    }
  }

  /** The object an event is embedded in. */
  datatype Owner = Timer | Of(session: Session)

  predicate Expired(now: Key, deadline: Key) {
    (now.sec == deadline.sec && now.usec >= deadline.usec) || now.sec > deadline.sec
  }

  /** A deadline has expired exactly if it is not after now. */
  lemma ExpiredExactly(now: Key, deadline: Key)
    ensures Expired(now, deadline) <==> !Greater(deadline, now)
    ensures IsTime(now) && IsTime(deadline) ==> (Expired(now, deadline) <==> Micros(deadline) <= Micros(now))
  {
  }

  ghost predicate Owned(owners: map<Event, Owner>, sessions: set<Session>) {
    && (forall e :: e in owners && owners[e].Of? ==>
          owners[e].session in sessions && (e == owners[e].session.recvEvent || e == owners[e].session.sendEvent))
    && (forall s :: s in sessions ==>
          && s.recvEvent in owners && owners[s.recvEvent] == Of(s)
          && s.sendEvent in owners && owners[s.sendEvent] == Of(s))
  }

  ghost predicate Clocked(heap: EventHeap, owners: map<Event, Owner>, sessions: set<Session>)
    reads heap, heap.entries, heap.events, owners.Keys
  {
    && heap.Valid() && Owned(owners, sessions)
    && (forall e :: e in heap.events ==> e in owners)
    && (forall s :: s in sessions ==> heap.Holds(s.recvEvent) && heap.Holds(s.sendEvent))
  }

  method EraseEvent(heap: EventHeap, item: Event, owners: map<Event, Owner>, ghost sessions: set<Session>)
    requires Clocked(heap, owners, sessions) && heap.Holds(item)
    modifies heap`count, heap`events, heap.entries, heap.events`heapIndex
    ensures Clocked(heap, owners, sessions) && |heap.events| <= |old(heap.events)|
    ensures forall e :: e in heap.events <==> e in old(heap.events) && e != item
    ensures forall i :: 0 <= i < |heap.events| ==> heap.events[i] in old(heap.events)
  {
    ghost var before := heap.events;
    var r := heap.Erase(item);
    Removed(before, heap.events, item);
  }

  /** The idle session times out: it is marked busy for good and both its events leave the heap. */
  method DoTimeout(heap: EventHeap, session: Session, owners: map<Event, Owner>, ghost sessions: set<Session>)
    requires Clocked(heap, owners, sessions) && session in sessions
    modifies heap`count, heap`events, heap.entries, heap.events`heapIndex, session`running
    ensures Clocked(heap, owners, sessions) && session.running == 1 && |heap.events| <= |old(heap.events)|
    ensures forall e :: e in heap.events <==>
              e in old(heap.events) && e != session.recvEvent && e != session.sendEvent
  {
    session.running := 1;
    EraseEvent(heap, session.recvEvent, owners, sessions);
    EraseEvent(heap, session.sendEvent, owners, sessions);
  }

  /** Where the clock has got to: of all the events those in `left` are still in the heap, those in `fired` have
      fired, and the others have left it with a session that timed out. */
  ghost predicate Fired(all: seq<Event>, left: seq<Event>, fired: seq<Event>, timedOut: set<Session>,
                        idle: set<Session>, owners: map<Event, Owner>, now: Key)
    reads all
  {
    && (forall e :: e in all ==> e in owners)
    && (forall e :: e in left ==> e in all)
    && (forall e :: e in fired ==> e in all && e !in left && Expired(now, e.deadline))
    && (forall i, j :: 0 <= i < j < |fired| ==> fired[i] != fired[j] && !Greater(fired[i].deadline, fired[j].deadline))
    && (forall f, e :: f in fired && e in left ==> !Greater(f.deadline, e.deadline))
    && (forall e :: e in all && e !in left ==> e in fired || (owners[e].Of? && owners[e].session in timedOut))
    && (forall e :: e in fired && owners[e].Of? && owners[e].session in idle ==> owners[e].session in timedOut)
    && (forall s :: s in timedOut ==>
          && s in idle && s.recvEvent !in left && s.sendEvent !in left
          && ((s.recvEvent in fired) != (s.sendEvent in fired) || (s.recvEvent == s.sendEvent && s.recvEvent in fired)))
  }

  /** e is the first of all and has expired; without it those in `rest` are left. */
  ghost predicate First(e: Event, left: seq<Event>, rest: seq<Event>, now: Key)
    reads left
  {
    && e in left && e !in rest && Expired(now, e.deadline) && |rest| < |left|
    && (forall x :: x in left ==> !Greater(e.deadline, x.deadline))
    && (forall x :: x in rest ==> x in left) && (forall x :: x in left && x != e ==> x in rest)
  }

  /** The first event fires, without a session timing out. */
  lemma FireOne(all: seq<Event>, left: seq<Event>, left': seq<Event>, e: Event, fired: seq<Event>,
      timedOut: set<Session>,
                sessions: set<Session>, idle: set<Session>, owners: map<Event, Owner>, now: Key)
    requires Fired(all, left, fired, timedOut, idle, owners, now) && First(e, left, left', now)
    requires Owned(owners, sessions) && idle <= sessions
    requires owners[e].Of? ==> owners[e].session !in idle
    ensures Fired(all, left', fired + [e], timedOut, idle, owners, now)
  {
  }

  /** The same with its idle session timing out. */
  lemma FireSession(all: seq<Event>, left: seq<Event>, rest: seq<Event>, left': seq<Event>, e: Event, fired: seq<Event>,
                    timedOut: set<Session>, s: Session, sessions: set<Session>, idle: set<Session>,
                    owners: map<Event, Owner>, now: Key)
    requires Fired(all, left, fired, timedOut, idle, owners, now) && First(e, left, rest, now)
    requires Owned(owners, sessions) && idle <= sessions && owners[e] == Of(s) && s in idle
    requires forall x :: x in left' <==> x in rest && x != s.recvEvent && x != s.sendEvent
    ensures Fired(all, left', fired + [e], timedOut + {s}, idle, owners, now)
  {
  }

  /** Only expired events fire, each once and in the order of their deadlines. What is left is what is neither
      expired nor of a session that timed out; those are the idle sessions with an expired event; and an
      expired event fires unless the other one of its session did. */
  ghost predicate AllFired(all: seq<Event>, left: seq<Event>, fired: seq<Event>, timedOut: set<Session>,
                           idle: set<Session>, owners: map<Event, Owner>, now: Key)
    requires forall e :: e in all ==> e in owners
    reads all
  {
    && (forall e :: e in fired ==> e in all && Expired(now, e.deadline))
    && (forall i, j :: 0 <= i < j < |fired| ==> fired[i] != fired[j] && !Greater(fired[i].deadline, fired[j].deadline))
    && (forall e :: e in left ==> e in all)
    && (forall e :: e in all ==>
          (e in left <==> !Expired(now, e.deadline) && !(owners[e].Of? && owners[e].session in timedOut)))
    && timedOut <= idle
    && (forall s :: s in idle ==>
          (s in timedOut <==> exists e :: e in all && Expired(now, e.deadline) && owners[e] == Of(s)))
    && (forall e :: e in all && Expired(now, e.deadline) && e !in fired ==>
          owners[e].Of? && owners[e].session in timedOut)
  }

  lemma FiredAll(all: seq<Event>, left: seq<Event>, fired: seq<Event>, timedOut: set<Session>,
                 sessions: set<Session>, idle: set<Session>, owners: map<Event, Owner>, now: Key)
    requires Fired(all, left, fired, timedOut, idle, owners, now)
    requires forall e :: e in left ==> !Expired(now, e.deadline)
    requires Owned(owners, sessions) && idle <= sessions
    ensures AllFired(all, left, fired, timedOut, idle, owners, now)
  {
  }

  /** The same by the clock: what fires is due, earliest first, and what is left is not due yet unless its
      session has timed out. */
  lemma FiredInTime(all: seq<Event>, left: seq<Event>, fired: seq<Event>, timedOut: set<Session>,
                    idle: set<Session>, owners: map<Event, Owner>, now: Key)
    requires forall e :: e in all ==> e in owners && IsTime(e.deadline)
    requires IsTime(now) && AllFired(all, left, fired, timedOut, idle, owners, now)
    ensures forall e :: e in fired ==> Micros(e.deadline) <= Micros(now)
    ensures forall i, j :: 0 <= i < j < |fired| ==> Micros(fired[i].deadline) <= Micros(fired[j].deadline)
    ensures forall e :: e in left ==> Micros(now) < Micros(e.deadline)
    ensures forall e :: e in all && Micros(e.deadline) <= Micros(now) && e !in fired ==>
              owners[e].Of? && owners[e].session in timedOut
    ensures forall s :: s in idle ==>
              (s in timedOut <==> exists e :: e in all && Micros(e.deadline) <= Micros(now) && owners[e] == Of(s))
  {
    forall e | e in all ensures Expired(now, e.deadline) <==> Micros(e.deadline) <= Micros(now) {
      ExpiredExactly(now, e.deadline);
    }
    forall i, j | 0 <= i < j < |fired| ensures Micros(fired[i].deadline) <= Micros(fired[j].deadline) {
      GreaterIsLater(fired[i].deadline, fired[j].deadline);
    }
  }

  method TakeFirst(heap: EventHeap, owners: map<Event, Owner>, ghost sessions: set<Session>,
      now: Key) returns (e: Event)
    requires Clocked(heap, owners, sessions)
    requires exists x :: x in heap.events && Expired(now, x.deadline)
    modifies heap`count, heap`events, heap.entries, heap.events`heapIndex
    ensures Clocked(heap, owners, sessions) && First(e, old(heap.events), heap.events, now)
    ensures forall i :: 0 <= i < |heap.events| ==> heap.events[i] in old(heap.events)
  {
    ghost var before := heap.events;
    e := heap.Pop();
    Removed(before, heap.events, e);
  }

  /** Fires the event just taken out, which belongs to an idle session: that times out. */
  method FireIdle(heap: EventHeap, owners: map<Event, Owner>, ghost sessions: set<Session>, ghost idle: set<Session>,
                  now: Key, e: Event, session: Session, ghost all: seq<Event>, ghost left: seq<Event>,
                  ghost fired: seq<Event>, ghost timedOut: set<Session>)
    requires Clocked(heap, owners, sessions)
    requires Fired(all, left, fired, timedOut, idle, owners, now) && First(e, left, heap.events, now)
    requires idle <= sessions && session in idle && owners[e] == Of(session)
    modifies heap`count, heap`events, heap.entries, heap.events`heapIndex, session`running
    ensures Clocked(heap, owners, sessions) && |heap.events| < |left| && session.running == 1
    ensures Fired(all, heap.events, fired + [e], timedOut + {session}, idle, owners, now)
  {
    ghost var rest := heap.events;
    DoTimeout(heap, session, owners, sessions);
    FireSession(all, left, rest, heap.events, e, fired, timedOut, session, sessions, idle, owners, now);
  }

  /** Fires the event just taken out: an idle session it belongs to times out. */
  method Fire(heap: EventHeap, owners: map<Event, Owner>, ghost sessions: set<Session>, ghost idle: set<Session>,
              now: Key, e: Event, ghost all: seq<Event>, ghost left: seq<Event>, ghost fired: seq<Event>,
              ghost timedOut: set<Session>)
    returns (ghost timedOut': set<Session>)
    requires Clocked(heap, owners, sessions)
    requires Fired(all, left, fired, timedOut, idle, owners, now) && First(e, left, heap.events, now)
    requires idle <= sessions && forall s :: s in sessions ==> (s.running == 0 <==> s in idle && s !in timedOut)
    modifies heap`count, heap`events, heap.entries, heap.events`heapIndex, sessions`running
    ensures Clocked(heap, owners, sessions) && |heap.events| < |left|
    ensures Fired(all, heap.events, fired + [e], timedOut', idle, owners, now)
    ensures timedOut <= timedOut'
    ensures forall s :: s in sessions ==> s.running == if s in timedOut' && s !in timedOut then 1 else old(s.running)
  {
    timedOut' := timedOut;
    match owners[e] {
      case Timer =>
        FireOne(all, left, heap.events, e, fired, timedOut, sessions, idle, owners, now);
      case Of(session) =>
        if session.running == 0 {
          timedOut' := timedOut + {session};
          FireIdle(heap, owners, sessions, idle, now, e, session, all, left, fired, timedOut);
        } else {
          FireOne(all, left, heap.events, e, fired, timedOut, sessions, idle, owners, now);
        }
    }
  }

  /** Takes out the first event, which has expired, and fires it. */
  method FireFirst(heap: EventHeap, owners: map<Event, Owner>, ghost sessions: set<Session>, ghost idle: set<Session>,
                   now: Key, ghost all: seq<Event>, ghost fired: seq<Event>, ghost timedOut: set<Session>)
    returns (e: Event, ghost timedOut': set<Session>)
    requires Clocked(heap, owners, sessions) && Fired(all, heap.events, fired, timedOut, idle, owners, now)
    requires exists x :: x in heap.events && Expired(now, x.deadline)
    requires idle <= sessions && forall s :: s in sessions ==> (s.running == 0 <==> s in idle && s !in timedOut)
    modifies heap`count, heap`events, heap.entries, heap.events`heapIndex, sessions`running
    ensures Clocked(heap, owners, sessions) && |heap.events| < |old(heap.events)|
    ensures Fired(all, heap.events, fired + [e], timedOut', idle, owners, now)
    ensures timedOut <= timedOut'
    ensures forall s :: s in sessions ==> s.running == if s in timedOut' && s !in timedOut then 1 else old(s.running)
  {
    ghost var left := heap.events;
    e := TakeFirst(heap, owners, sessions, now);
    timedOut' := Fire(heap, owners, sessions, idle, now, e, all, left, fired, timedOut);
  }

  /** The loop over the expired events. */
  method FireExpired(heap: EventHeap, owners: map<Event, Owner>, ghost sessions: set<Session>, ghost idle: set<Session>,
                     now: Key)
    returns (fired: seq<Event>, ghost timedOut: set<Session>)
    requires Clocked(heap, owners, sessions) && idle <= sessions
    requires forall s :: s in sessions ==> (s in idle <==> s.running == 0)
    modifies heap`count, heap`events, heap.entries, heap.events`heapIndex, sessions`running
    ensures Clocked(heap, owners, sessions)
    ensures Fired(old(heap.events), heap.events, fired, timedOut, idle, owners, now)
    ensures forall e :: e in heap.events ==> !Expired(now, e.deadline)
    ensures forall s :: s in sessions ==> s.running == if s in timedOut then 1 else old(s.running)
  {
    fired, timedOut := [], {};
    ghost var all := heap.events;
    while heap.Top() != null
      invariant Clocked(heap, owners, sessions)
      invariant Fired(all, heap.events, fired, timedOut, idle, owners, now)
      invariant forall s :: s in sessions ==> s.running == if s in timedOut then 1 else old(s.running)
      decreases |heap.events|
    {
      if !Expired(now, heap.Top().deadline) {
        break;
      }
      var e;
      e, timedOut := FireFirst(heap, owners, sessions, idle, now, all, fired, timedOut);
      fired := fired + [e];
    }
  }

  /** Fires every expired event in order; an idle session with an expired event times out, which takes its
      other event with it. */
  method OnTimeout(heap: EventHeap, owners: map<Event, Owner>, ghost sessions: set<Session>, ghost idle: set<Session>,
                   now: Key)
    returns (fired: seq<Event>, ghost timedOut: set<Session>)
    requires Clocked(heap, owners, sessions) && idle <= sessions
    requires forall s :: s in sessions ==> (s in idle <==> s.running == 0)
    modifies heap`count, heap`events, heap.entries, heap.events`heapIndex, sessions`running
    ensures Clocked(heap, owners, sessions)
    ensures AllFired(old(heap.events), heap.events, fired, timedOut, idle, owners, now)
    ensures forall s :: s in sessions ==> s.running == if s in timedOut then 1 else old(s.running)
  {
    fired, timedOut := FireExpired(heap, owners, sessions, idle, now);
    FiredAll(old(heap.events), heap.events, fired, timedOut, sessions, idle, owners, now);
  }
}
