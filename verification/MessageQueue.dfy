/** The queue that wakes its consumer by writing a byte to a socket pair, and only when its length
    becomes 1.  Any number of producers push under the lock; the consumer receives up to 64 bytes
    without the lock, then empties the queue, dropping the lock around every callback.
    SP_IocpMsgQueue follows the same protocol with a posted completion as its token. */
module MessageQueue {

  datatype Holder = Nobody | Producer(id: nat) | Consumer

  datatype ProducerPc =
    | Locked(item: int)  // holds the lock; about to push
    | Pushed(wake: bool) // has pushed; about to send a token if the length was 1
    | Leaving(ok: bool)  // about to unlock

  datatype ConsumerPc =
    | Polling            // in the event library, until a token can be read
    | Received           // has read tokens; about to lock
    | Testing            // holds the lock; about to test for emptiness
    | Popped(item: int)  // holds the lock with an item in hand; about to unlock
    | Calling(item: int) // about to call back, without the lock
    | Relocking          // has called back; about to lock again
    | Done               // has found the queue empty; about to unlock

  /** `pushed` and `delivered` record everything pushed and every callback made. */
  datatype Queue = Queue(
    limit: nat,          // max_entries; 0 is unbounded
    items: seq<int>, tokens: nat, lock: Holder,
    producers: map<nat, ProducerPc>, consumer: ConsumerPc,
    pushed: seq<int>, delivered: seq<int>)

  function Init(limit: nat): Queue {
    Queue(limit, [], 0, Nobody, map[], Polling, [], [])
  }

  const RECV_SIZE := 64

  datatype Action =
    | Push(p: nat, item: int)   // a producer enters msgqueue_push
    | StepProducer(p: nat)
    | StepConsumer(taken: nat)  // taken: the number of tokens recv returns

  predicate Enabled(q: Queue, a: Action) {
    match a
    case Push(p, _) => p !in q.producers && q.lock == Nobody
    case StepProducer(p) => p in q.producers
    case StepConsumer(taken) =>
      match q.consumer
      case Polling => 0 < taken <= q.tokens && taken <= RECV_SIZE
      case Received => q.lock == Nobody
      case Relocking => q.lock == Nobody
      case _ => true
  }

  /** circqueue_push_tail, as far as its users see it. */
  predicate Full(q: Queue) { q.limit != 0 && |q.items| == q.limit }

  function ProducerStep(q: Queue, p: nat): Queue
    requires p in q.producers
  {
    match q.producers[p]
    case Locked(item) =>
      if Full(q) then q.(producers := q.producers[p := Leaving(false)])
      else q.(items := q.items + [item], pushed := q.pushed + [item],
              producers := q.producers[p := Pushed(|q.items| + 1 == 1)])
    case Pushed(wake) =>
      q.(tokens := if wake then q.tokens + 1 else q.tokens, producers := q.producers[p := Leaving(true)])
    case Leaving(_) => q.(lock := Nobody, producers := q.producers - {p})
  }

  function ConsumerStep(q: Queue, taken: nat): Queue
    requires q.consumer.Polling? ==> taken <= q.tokens
  {
    match q.consumer
    case Polling => q.(tokens := q.tokens - taken, consumer := Received)
    case Received => q.(lock := Consumer, consumer := Testing)
    case Testing =>
      if q.items == [] then q.(consumer := Done)
      else q.(items := q.items[1..], consumer := Popped(q.items[0]))
    case Popped(item) => q.(lock := Nobody, consumer := Calling(item))
    case Calling(item) => q.(delivered := q.delivered + [item], consumer := Relocking)
    case Relocking => q.(lock := Consumer, consumer := Testing)
    case Done => q.(lock := Nobody, consumer := Polling)
  }

  function Step(q: Queue, a: Action): Queue
    requires Enabled(q, a)
  {
    match a
    case Push(p, item) => q.(lock := Producer(p), producers := q.producers[p := Locked(item)])
    case StepProducer(p) => ProducerStep(q, p)
    case StepConsumer(taken) => ConsumerStep(q, taken)
  }

  ghost predicate IsRun(qs: seq<Queue>, actions: seq<Action>, limit: nat) {
    && |qs| == |actions| + 1 && qs[0] == Init(limit)
    && forall i {:trigger actions[i]} :: 0 <= i < |actions| ==>
        Enabled(qs[i], actions[i]) && qs[i + 1] == Step(qs[i], actions[i])
  }

  // ----- the invariant -----

  /** The item the consumer has taken and not yet called back with. */
  function InHand(c: ConsumerPc): seq<int> {
    match c
    case Popped(item) => [item]
    case Calling(item) => [item]
    case _ => []
  }

  predicate HoldsLock(c: ConsumerPc) { c.Testing? || c.Popped? || c.Done? }

  /** The consumer will test the queue for emptiness before it polls again. */
  predicate WillTest(c: ConsumerPc) { !c.Polling? && !c.Done? }

  predicate WakeComing(q: Queue) {
    q.lock.Producer? && q.lock.id in q.producers && q.producers[q.lock.id] == Pushed(true)
  }

  ghost predicate Inv(q: Queue) {
    && (forall p :: p in q.producers ==> q.lock == Producer(p))
    && (q.lock.Producer? ==> q.lock.id in q.producers)
    && (q.lock == Consumer <==> HoldsLock(q.consumer))
    && q.pushed == q.delivered + InHand(q.consumer) + q.items
    && (q.items != [] ==> q.tokens > 0 || WakeComing(q) || WillTest(q.consumer))
    && (q.limit != 0 ==> |q.items| <= q.limit)
  }

  lemma ConsumerKeeps(q: Queue, n: nat)
    requires Inv(q) && Enabled(q, StepConsumer(n))
    ensures Inv(Step(q, StepConsumer(n))) && Step(q, StepConsumer(n)).limit == q.limit
  {
    if q.consumer.Testing? && q.items != [] {
      assert q.items == [q.items[0]] + q.items[1..];
    }
  }

  lemma ProducerKeeps(q: Queue, a: Action)
    requires Inv(q) && Enabled(q, a) && !a.StepConsumer?
    ensures Inv(Step(q, a)) && Step(q, a).limit == q.limit
  {
  }

  lemma StepKeeps(q: Queue, a: Action)
    requires Inv(q) && Enabled(q, a)
    ensures Inv(Step(q, a)) && Step(q, a).limit == q.limit
  {
    match a
    case StepConsumer(n) => ConsumerKeeps(q, n);
    case _ => ProducerKeeps(q, a);
  }

  lemma {:induction false} RunKeeps(qs: seq<Queue>, actions: seq<Action>, limit: nat, k: nat)
    requires IsRun(qs, actions, limit) && k < |qs|
    ensures Inv(qs[k]) && qs[k].limit == limit
  {
    if k > 0 {
      RunKeeps(qs, actions, limit, k - 1);
      StepKeeps(qs[k - 1], actions[k - 1]);
    }
  }

  // ----- consequences -----

  /** Payloads reach the callback once each, in the order they were pushed. */
  lemma DeliveredInOrder(qs: seq<Queue>, actions: seq<Action>, limit: nat, k: nat)
    requires IsRun(qs, actions, limit) && k < |qs|
    ensures qs[k].delivered <= qs[k].pushed
    ensures limit != 0 ==> |qs[k].pushed| - |qs[k].delivered| <= limit + 1
  {
    RunKeeps(qs, actions, limit, k);
  }

  /** While anything is queued, a token is waiting, or a producer is about to send one, or the
      consumer has not yet made its last test. */
  lemma NoWakeupIsLost(qs: seq<Queue>, actions: seq<Action>, limit: nat, k: nat)
    requires IsRun(qs, actions, limit) && k < |qs| && qs[k].items != []
    ensures qs[k].tokens > 0 || WakeComing(qs[k]) || WillTest(qs[k].consumer)
  {
    RunKeeps(qs, actions, limit, k);
  }

  /** When the consumer can only poll in vain and no producer is inside push, everything pushed has
      been delivered; until then some step other than a new push is possible. */
  lemma QuietMeansDelivered(qs: seq<Queue>, actions: seq<Action>, limit: nat, k: nat)
    requires IsRun(qs, actions, limit) && k < |qs|
    requires forall a: Action :: Enabled(qs[k], a) ==> a.Push?
    ensures qs[k].delivered == qs[k].pushed && qs[k].producers == map[]
  {
    RunKeeps(qs, actions, limit, k);
    var q := qs[k];
    assert !Enabled(q, StepConsumer(1));
    forall p ensures p !in q.producers {
      assert !Enabled(q, StepProducer(p));
    }
    assert q.producers.Keys == {};
    assert q.lock == Nobody;
    assert q.consumer == Polling && q.tokens == 0;
  }

  // ----- what becomes of a push -----

  /** The producer that holds the lock has not pushed yet. */
  function Entering(q: Queue): seq<int> {
    if q.lock.Producer? && q.lock.id in q.producers && q.producers[q.lock.id].Locked?
    then [q.producers[q.lock.id].item] else []
  }

  /** The push comes when the queue holds as many as it may. */
  predicate TurnedAway(q: Queue, a: Action) {
    && a.StepProducer? && a.p in q.producers && q.producers[a.p].Locked?
    && q.limit > 0 && |q.items| >= q.limit
  }

  /** A push is turned away exactly if the queue is full, and its caller is told. Otherwise its item is the last
      one queued, and a token is sent exactly if it is the only one. */
  lemma PushDecides(q: Queue, p: nat)
    requires Inv(q) && p in q.producers
    ensures var q' := Step(q, StepProducer(p));
            match q.producers[p]
            case Locked(item) =>
              && p in q'.producers && q'.tokens == q.tokens
              && (if TurnedAway(q, StepProducer(p))
                  then q'.producers[p] == Leaving(false) && q'.items == q.items && q'.pushed == q.pushed
                  else q'.producers[p] == Pushed(q.items == []) && q'.items == q.items + [item]
                       && q'.pushed == q.pushed + [item])
            case Pushed(wake) =>
              && p in q'.producers && q'.producers[p] == Leaving(true)
              && q'.tokens == q.tokens + (if wake then 1 else 0) && q'.items == q.items && q'.pushed == q.pushed
            case Leaving(_) => p !in q'.producers && q'.lock == Nobody && q'.items == q.items && q'.pushed == q.pushed
  {
  }

  /** The items that producers have come with, in the order in which they took the lock, without those that were
      turned away. */
  ghost function Kept(qs: seq<Queue>, actions: seq<Action>, j: nat): seq<int>
    requires j <= |actions| < |qs|
  {
    if j == 0 then []
    else
      var before := Kept(qs, actions, j - 1);
      match actions[j - 1]
      case Push(_, item) => before + [item]
      case _ => if TurnedAway(qs[j - 1], actions[j - 1]) && before != [] then before[..|before| - 1] else before
  }

  lemma StepEnters(q: Queue, a: Action)
    requires Inv(q) && Enabled(q, a)
    ensures var q' := Step(q, a);
            q'.pushed + Entering(q') ==
            if a.Push? then q.pushed + Entering(q) + [a.item]
            else if TurnedAway(q, a) then q.pushed
            else q.pushed + Entering(q)
    ensures TurnedAway(q, a) ==> |Entering(q)| == 1
  {
    assert q.pushed + [] == q.pushed;
    if a.StepProducer? {
      PushDecides(q, a.p);
    }
  }

  /** In every run everything that producers have come with has been pushed in that order, except what came when
      the queue was full, and except what the producer inside is about to push. */
  lemma {:induction false} NothingElseIsTurnedAway(qs: seq<Queue>, actions: seq<Action>, limit: nat, j: nat)
    requires IsRun(qs, actions, limit) && j <= |actions|
    ensures Kept(qs, actions, j) == qs[j].pushed + Entering(qs[j])
  {
    if j > 0 {
      var q, a := qs[j - 1], actions[j - 1];
      NothingElseIsTurnedAway(qs, actions, limit, j - 1);
      RunKeeps(qs, actions, limit, j - 1);
      StepEnters(q, a);
      if TurnedAway(q, a) {
        assert (q.pushed + Entering(q))[..|q.pushed|] == q.pushed;
      }
    }
  }
}
