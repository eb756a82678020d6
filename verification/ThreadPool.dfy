/** The thread pool: any number of callers of dispatch, worker threads that save themselves in the
    idle list, one main lock and one lock per thread.

    A caller holds the main lock while it waits for a thread's lock; a thread holds its own lock
    while it waits for the main lock.  Every lock operation is a step of its own, so that all
    interleavings of the two are covered.  Condition variables have no spurious wake-ups.
    A job is numbered by the order of its acceptance.
 */
module ThreadPool {
  import opened Basics

  datatype Who = Caller(id: nat) | Worker(id: nat)

  /** Where a call of dispatch is. */
  datatype CallPc =
    | WantMain            // about to lock the main lock
    | Check               // holds it; at the head of the loop
    | Waiting             // in cond_wait on mIdleCond
    | Woken               // signalled; must lock the main lock again
    | Created             // has created a thread; about to count it
    | WantThread(t: nat)  // has taken thread t off the list and given it the job
    | HoldThread(t: nat)  // holds t's lock; about to signal
    | Signalled(t: nat)   // about to unlock t's lock
    | Unlock              // about to unlock the main lock and return

  /** Where a worker thread is. */
  datatype ThreadPc =
    | Running             // about to call the job
    | WantOwn             // about to lock its own lock
    | WantPool            // holds it; saveThread: about to lock the main lock
    | Saving              // holds both; about to enter itself in the list
    | Saved               // holds both; about to unlock the main lock
    | BeforeWait          // holds its own; about to call cond_wait
    | Sleeping
    | Roused              // signalled; must lock its own lock again
    | Awake               // holds it; about to unlock it and go round
    | Discarded           // saveThread has failed

  datatype Thread = Thread(pc: ThreadPc, job: Option<nat>, mutex: Option<Who>)

  datatype Pool = Pool(
    max: nat,
    main: Option<Who>,
    list: seq<nat>,          // mThreadList[0..mIndex]
    total: nat,              // mTotal
    threads: seq<Thread>,    // every thread ever created
    calls: map<nat, CallPc>, // the calls of dispatch in progress
    accepted: nat,           // jobs accepted so far
    ran: seq<nat>)           // jobs called so far

  function Init(max: nat): Pool {
    Pool(max, None, [], 0, [], map[], 0, [])
  }

  // ----- the steps -----

  datatype Action =
    | Call(c: nat)
    | StepCall(c: nat, createOk: bool)
    | StepThread(t: nat, wake: Option<nat>) // wake: the caller that mIdleCond's signal reaches

  predicate CallEnabled(p: Pool, c: nat) {
    && c in p.calls
    && match p.calls[c]
       case WantMain => p.main == None
       case Woken => p.main == None
       case Waiting => false
       case WantThread(t) => t < |p.threads| && p.threads[t].mutex == None
       case HoldThread(t) => t < |p.threads|
       case Signalled(t) => t < |p.threads|
       case Check => p.list != [] ==> p.list[|p.list| - 1] < |p.threads|
       case _ => true
  }

  /** A signal reaches a waiting caller if there is one. */
  predicate WakeOk(p: Pool, wake: Option<nat>) {
    match wake
    case Some(c) => c in p.calls && p.calls[c] == Waiting
    case None => forall c :: c in p.calls ==> p.calls[c] != Waiting
  }

  predicate ThreadEnabled(p: Pool, t: nat, wake: Option<nat>) {
    && t < |p.threads|
    && match p.threads[t].pc
       case Running => p.threads[t].job.Some?
       case WantOwn => p.threads[t].mutex == None
       case WantPool => p.main == None
       case Saving => WakeOk(p, wake)
       case Sleeping => false
       case Roused => p.threads[t].mutex == None
       case Discarded => false
       case _ => true
  }

  predicate Enabled(p: Pool, a: Action) {
    match a
    case Call(c) => c !in p.calls
    case StepCall(c, _) => CallEnabled(p, c)
    case StepThread(t, wake) => ThreadEnabled(p, t, wake)
  }

  function AtCall(p: Pool, c: nat, pc: CallPc): Pool {
    p.(calls := p.calls[c := pc])
  }

  function AtThread(p: Pool, t: nat, th: Thread): Pool
    requires t < |p.threads|
  {
    p.(threads := p.threads[t := th])
  }

  /** dispatch between two lock operations. */
  function CallStep(p: Pool, c: nat, createOk: bool): Pool
    requires CallEnabled(p, c)
  {
    match p.calls[c]
    case WantMain => AtCall(p.(main := Some(Caller(c))), c, Check)
    case Woken => AtCall(p.(main := Some(Caller(c))), c, Check)
    case Check =>
      if p.list == [] && p.total >= p.max then AtCall(p.(main := None), c, Waiting)
      else if p.list == [] then
        if createOk then
          AtCall(p.(threads := p.threads + [Thread(Running, Some(p.accepted), None)], accepted := p.accepted + 1),
                 c, Created)
        else AtCall(p, c, Unlock)
      else
        var t := p.list[|p.list| - 1];
        AtCall(AtThread(p, t, p.threads[t].(job := Some(p.accepted)))
               .(list := p.list[..|p.list| - 1], accepted := p.accepted + 1), c, WantThread(t))
    case Created => AtCall(p.(total := p.total + 1), c, Unlock)
    case WantThread(t) => AtCall(AtThread(p, t, p.threads[t].(mutex := Some(Caller(c)))), c, HoldThread(t))
    case HoldThread(t) =>
      // the signal is lost unless the thread is already in cond_wait
      var th := p.threads[t];
      AtCall(if th.pc == Sleeping then AtThread(p, t, th.(pc := Roused)) else p, c, Signalled(t))
    case Signalled(t) => AtCall(AtThread(p, t, p.threads[t].(mutex := None)), c, Unlock)
    case Unlock => p.(main := None, calls := p.calls - {c})
  }

  /** wrapperFunc and saveThread between two lock operations. */
  function ThreadStep(p: Pool, t: nat, wake: Option<nat>): Pool
    requires ThreadEnabled(p, t, wake)
  {
    var th := p.threads[t];
    match th.pc
    case Running => AtThread(p, t, th.(pc := WantOwn, job := None)).(ran := p.ran + [th.job.value])
    case WantOwn => AtThread(p, t, th.(pc := WantPool, mutex := Some(Worker(t))))
    case WantPool => AtThread(p, t, th.(pc := Saving)).(main := Some(Worker(t)))
    case Saving =>
      if |p.list| < p.max then
        var p1 := AtThread(p, t, th.(pc := Saved)).(list := p.list + [t]);
        if wake.Some? then AtCall(p1, wake.value, Woken) else p1
      else
        AtThread(p, t, th.(pc := Discarded, mutex := None)).(main := None)
    case Saved => AtThread(p, t, th.(pc := BeforeWait)).(main := None)
    case BeforeWait => AtThread(p, t, th.(pc := Sleeping, mutex := None))
    case Roused => AtThread(p, t, th.(pc := Awake, mutex := Some(Worker(t))))
    case Awake => AtThread(p, t, th.(pc := Running, mutex := None))
  }

  function Step(p: Pool, a: Action): Pool
    requires Enabled(p, a)
  {
    match a
    case Call(c) => AtCall(p, c, WantMain)
    case StepCall(c, createOk) => CallStep(p, c, createOk)
    case StepThread(t, wake) => ThreadStep(p, t, wake)
  }

  ghost predicate IsRun(pools: seq<Pool>, actions: seq<Action>, max: nat) {
    && |pools| == |actions| + 1 && pools[0] == Init(max)
    && forall i {:trigger actions[i]} :: 0 <= i < |actions| ==>
        Enabled(pools[i], actions[i]) && pools[i + 1] == Step(pools[i], actions[i])
  }

  // ----- the invariant -----

  predicate HoldsMain(pc: CallPc) {
    !(pc.WantMain? || pc.Waiting? || pc.Woken?)
  }

  predicate Owns(pc: ThreadPc) {
    pc.WantPool? || pc.Saving? || pc.Saved? || pc.BeforeWait? || pc.Awake?
  }

  predicate Parked(pc: ThreadPc) {
    pc.Saved? || pc.BeforeWait? || pc.Sleeping?
  }

  /** Where the call that holds the main lock is; Waiting if no call holds it. */
  function Current(p: Pool): CallPc {
    match p.main
    case Some(Caller(c)) => if c in p.calls then p.calls[c] else Waiting
    case _ => Waiting
  }

  predicate HasMutex(pc: CallPc, t: nat) {
    pc == HoldThread(t) || pc == Signalled(t)
  }

  /** Some call has given parked thread t its job and has yet to wake it. */
  predicate Targets(pc: CallPc, t: nat) {
    pc == WantThread(t) || pc == HoldThread(t)
  }

  /** Who holds the main lock, and who holds each thread's lock. */
  ghost predicate LocksFit(p: Pool) {
    && (forall c :: c in p.calls ==> (HoldsMain(p.calls[c]) <==> p.main == Some(Caller(c))))
    && (p.main.Some? && p.main.value.Caller? ==> p.main.value.id in p.calls)
    && (p.main.Some? && p.main.value.Worker? ==> p.main.value.id < |p.threads|)
    && (forall t :: 0 <= t < |p.threads| ==> ThreadLocksFit(p.threads[t], t, p.main, Current(p)))
  }

  predicate ThreadLocksFit(th: Thread, t: nat, main: Option<Who>, current: CallPc) {
    && (th.pc.Saving? || th.pc.Saved? <==> main == Some(Worker(t)))
    && !(Owns(th.pc) && HasMutex(current, t))
    && th.mutex == if Owns(th.pc) then Some(Worker(t)) else if HasMutex(current, t) then main else None
  }

  /** The idle list holds each parked thread once, except one that is being woken. */
  ghost predicate ListFits(p: Pool) {
    && (forall i, j :: 0 <= i < j < |p.list| ==> p.list[i] != p.list[j])
    && (forall i :: 0 <= i < |p.list| ==> p.list[i] < |p.threads|)
    && (forall t :: 0 <= t < |p.threads| ==> ThreadFits(p.threads[t], t in p.list, t, Current(p)))
    && TargetExists(p)
  }

  predicate TargetExists(p: Pool) {
    match Current(p)
    case WantThread(t) => t < |p.threads|
    case HoldThread(t) => t < |p.threads|
    case Signalled(t) => t < |p.threads|
    case _ => true
  }

  predicate ThreadFits(th: Thread, listed: bool, t: nat, current: CallPc) {
    && (Parked(th.pc) <==> listed || Targets(current, t))
    && (listed ==> th.job == None)
    && (Targets(current, t) ==> th.job.Some?)
    && (current == HoldThread(t) ==> th.pc == Sleeping)
    && (th.pc.Running? || th.pc.Roused? || th.pc.Awake? ==> th.job.Some?)
    && (th.pc.WantOwn? || th.pc.WantPool? || th.pc.Saving? ==> th.job == None)
    && !th.pc.Discarded?
  }

  /** mTotal counts the threads, and never exceeds the maximum. */
  ghost predicate TotalFits(p: Pool) {
    && |p.threads| == p.total + (if Current(p) == Created then 1 else 0)
    && |p.threads| <= p.max
  }

  /** Every accepted job is either still to be called, by exactly one thread, or has been called once. */
  ghost predicate JobsFit(p: Pool) {
    && (forall t :: 0 <= t < |p.threads| && p.threads[t].job.Some? ==>
          p.threads[t].job.value < p.accepted && p.threads[t].job.value !in p.ran)
    && (forall t, u :: 0 <= t < u < |p.threads| && p.threads[t].job.Some? ==> p.threads[t].job != p.threads[u].job)
    && (forall i :: 0 <= i < |p.ran| ==> p.ran[i] < p.accepted)
    && (forall i, j :: 0 <= i < j < |p.ran| ==> p.ran[i] != p.ran[j])
    && (forall job :: 0 <= job < p.accepted ==> job in p.ran || Held(p, job))
  }

  ghost predicate Held(p: Pool, job: nat) {
    exists t :: 0 <= t < |p.threads| && p.threads[t].job == Some(job)
  }

  function WokenSet(p: Pool): set<nat> {
    set c | c in p.calls && p.calls[c] == Woken
  }

  ghost predicate SomeWaiting(p: Pool) {
    exists c :: c in p.calls && p.calls[c] == Waiting
  }

  /** While a caller waits, every idle thread has a caller on its way to fetch it. */
  ghost predicate NoWakeLost(p: Pool) {
    SomeWaiting(p) ==>
      && p.total >= p.max
      && |WokenSet(p)| + (if Current(p) == Check then 1 else 0) >= |p.list|
  }

  ghost predicate Inv(p: Pool) {
    && LocksFit(p) && ListFits(p) && TotalFits(p) && JobsFit(p) && NoWakeLost(p) && p.max > 0
  }

  // ----- consequences -----

  /** The numbers below n. */
  function Below(n: nat): (r: set<nat>)
    ensures |r| == n && forall i: nat :: i in r <==> i < n
  {
    if n == 0 then {} else Below(n - 1) + {n - 1}
  }

  function Listed(list: seq<nat>): (r: set<nat>)
    ensures forall x :: x in r <==> x in list
  {
    if list == [] then {} else Listed(list[1..]) + {list[0]}
  }

  lemma {:induction false} ListedCount(list: seq<nat>)
    requires forall i, j :: 0 <= i < j < |list| ==> list[i] != list[j]
    ensures |Listed(list)| == |list|
    decreases |list|
  {
    if list != [] {
      var tail := list[1..];
      ListedCount(tail);
      assert list[0] !in tail;
    }
  }

  lemma SubsetCount(a: set<nat>, b: set<nat>)
    requires a <= b
    ensures |a| <= |b|
  {
    assert b == a + (b - a);
  }

  lemma ListShorterThanThreads(p: Pool, t: nat)
    requires ListFits(p) && t < |p.threads| && t !in p.list
    ensures |p.list| < |p.threads|
  {
    assert forall x :: x in p.list ==> x in Below(|p.threads|) - {t};
    ListedCount(p.list);
    SubsetCount(Listed(p.list), Below(|p.threads|) - {t});
  }

  /** saveThread always finds room. */
  lemma SaveHasRoom(p: Pool, t: nat)
    requires Inv(p) && t < |p.threads| && p.threads[t].pc == Saving
    ensures |p.list| < p.max
  {
    assert t !in p.list;
    ListShorterThanThreads(p, t);
  }

  // ----- every step keeps the invariant -----

  lemma CallLocks(p: Pool, c: nat, createOk: bool)
    requires Inv(p) && CallEnabled(p, c)
    ensures LocksFit(CallStep(p, c, createOk))
  {
    var p' := CallStep(p, c, createOk);
    forall d | d in p'.calls ensures HoldsMain(p'.calls[d]) <==> p'.main == Some(Caller(d)) {
      assert d in p.calls;
    }
    forall t | 0 <= t < |p'.threads| ensures ThreadLocksFit(p'.threads[t], t, p'.main, Current(p')) {
      CallThreadLocks(p, c, createOk, t);
    }
  }

  predicate TakesMain(pc: CallPc) { pc.WantMain? || pc.Woken? || pc.Check? }

  lemma MainThreadLocks(p: Pool, c: nat, createOk: bool, t: nat)
    requires LocksFit(p) && ListFits(p) && CallEnabled(p, c) && TakesMain(p.calls[c])
    requires t < |CallStep(p, c, createOk).threads|
    ensures var p' := CallStep(p, c, createOk); ThreadLocksFit(p'.threads[t], t, p'.main, Current(p'))
  {
    if t < |p.threads| {
      assert ThreadLocksFit(p.threads[t], t, p.main, Current(p));
    }
  }

  lemma CallThreadLocks(p: Pool, c: nat, createOk: bool, t: nat)
    requires LocksFit(p) && ListFits(p) && CallEnabled(p, c)
    requires t < |CallStep(p, c, createOk).threads|
    ensures var p' := CallStep(p, c, createOk); ThreadLocksFit(p'.threads[t], t, p'.main, Current(p'))
  {
    if TakesMain(p.calls[c]) {
      MainThreadLocks(p, c, createOk, t);
    } else {
      assert ThreadLocksFit(p.threads[t], t, p.main, Current(p));
      match p.calls[c]
      case WantThread(u) => assert ThreadLocksFit(p.threads[u], u, p.main, Current(p));
      case _ =>
    }
  }

  lemma CallList(p: Pool, c: nat, createOk: bool)
    requires Inv(p) && CallEnabled(p, c)
    ensures ListFits(CallStep(p, c, createOk))
  {
    var p' := CallStep(p, c, createOk);
    if p.calls[c] == Check && p.list != [] {
      CallPops(p, c, createOk);
    } else {
      assert p'.list == p.list;
      forall t | 0 <= t < |p'.threads| ensures ThreadFits(p'.threads[t], t in p'.list, t, Current(p')) {
        CallThreadFits(p, c, createOk, t);
      }
    }
  }

  lemma CallPops(p: Pool, c: nat, createOk: bool)
    requires Inv(p) && CallEnabled(p, c) && p.calls[c] == Check && p.list != []
    ensures ListFits(CallStep(p, c, createOk))
  {
    var p' := CallStep(p, c, createOk);
    var n := |p.list| - 1;
    var u := p.list[n];
    assert p.list == p'.list + [u];
    assert Current(p) == Check && Current(p') == WantThread(u);
    assert u !in p'.list;
    forall t | 0 <= t < |p'.threads| ensures ThreadFits(p'.threads[t], t in p'.list, t, Current(p')) {
      assert ThreadFits(p.threads[t], t in p.list, t, Current(p));
      assert t in p.list <==> t in p'.list || t == u;
    }
  }

  lemma CallThreadFits(p: Pool, c: nat, createOk: bool, t: nat)
    requires Inv(p) && CallEnabled(p, c) && !(p.calls[c] == Check && p.list != [])
    requires t < |CallStep(p, c, createOk).threads|
    ensures var p' := CallStep(p, c, createOk); ThreadFits(p'.threads[t], t in p.list, t, Current(p'))
  {
    if t < |p.threads| {
      assert ThreadFits(p.threads[t], t in p.list, t, Current(p));
      assert ThreadLocksFit(p.threads[t], t, p.main, Current(p));
    } else {
      assert t !in p.list;
    }
  }

  lemma CallTotal(p: Pool, c: nat, createOk: bool)
    requires Inv(p) && CallEnabled(p, c)
    ensures TotalFits(CallStep(p, c, createOk))
  {
  }

  /** The jobs are the same, held by the same threads. */
  lemma SameJobs(p: Pool, p': Pool)
    requires JobsFit(p) && p'.accepted == p.accepted && p'.ran == p.ran && |p'.threads| == |p.threads|
    requires forall t :: 0 <= t < |p.threads| ==> p'.threads[t].job == p.threads[t].job
    ensures JobsFit(p')
  {
  }

  /** Thread u, which had none, gets the new job. */
  lemma NewJob(p: Pool, p': Pool, u: nat)
    requires JobsFit(p) && p'.accepted == p.accepted + 1 && p'.ran == p.ran && |p.threads| <= |p'.threads|
        && u < |p'.threads|
    requires |p'.threads| <= |p.threads| + 1
        && (u < |p.threads| ==> p.threads[u].job == None && |p'.threads| == |p.threads|)
    requires u >= |p.threads| ==> u == |p.threads|
    requires forall t :: 0 <= t < |p'.threads| ==>
               p'.threads[t].job == if t == u then Some(p.accepted) else p.threads[t].job
    ensures JobsFit(p')
  {
    forall job | 0 <= job < p'.accepted ensures job in p'.ran || Held(p', job) {
      if job == p.accepted {
        assert p'.threads[u].job == Some(job);
      } else if job !in p.ran {
        var t :| 0 <= t < |p.threads| && p.threads[t].job == Some(job);
        assert p'.threads[t].job == Some(job);
      }
    }
  }

  lemma CallJobs(p: Pool, c: nat, createOk: bool)
    requires Inv(p) && CallEnabled(p, c)
    ensures JobsFit(CallStep(p, c, createOk))
  {
    var p' := CallStep(p, c, createOk);
    if p.calls[c] == Check && p.list != [] {
      var u := p.list[|p.list| - 1];
      assert ThreadFits(p.threads[u], u in p.list, u, Current(p));
      NewJob(p, p', u);
    } else if p.calls[c] == Check && p.total < p.max && createOk {
      NewJob(p, p', |p.threads|);
    } else {
      SameJobs(p, p');
    }
  }

  lemma WaitersStay(p: Pool, c: nat, createOk: bool)
    requires Inv(p) && CallEnabled(p, c) && SomeWaiting(CallStep(p, c, createOk))
    ensures SomeWaiting(p) || (p.calls[c] == Check && p.list == [] && p.total >= p.max)
  {
  }

  lemma CallWoken(p: Pool, c: nat, createOk: bool)
    requires Inv(p) && CallEnabled(p, c)
    ensures WokenSet(CallStep(p, c, createOk)) == WokenSet(p) - {c}
    ensures p.calls[c] != Woken ==> WokenSet(p) - {c} == WokenSet(p)
    ensures p.calls[c] == Woken ==> |WokenSet(p)| == |WokenSet(p) - {c}| + 1
  {
    assert p.calls[c] == Woken ==> c in WokenSet(p);
  }

  lemma CallWake(p: Pool, c: nat, createOk: bool)
    requires Inv(p) && CallEnabled(p, c)
    ensures NoWakeLost(CallStep(p, c, createOk))
  {
    var p' := CallStep(p, c, createOk);
    if SomeWaiting(p') {
      WaitersStay(p, c, createOk);
      CallWoken(p, c, createOk);
    }
  }

  lemma ThreadCurrent(p: Pool, t: nat, wake: Option<nat>)
    requires LocksFit(p) && ThreadEnabled(p, t, wake)
    ensures Current(ThreadStep(p, t, wake)) == Current(p)
  {
    assert ThreadLocksFit(p.threads[t], t, p.main, Current(p));
  }

  lemma ThreadLocks(p: Pool, t: nat, wake: Option<nat>)
    requires LocksFit(p) && ThreadEnabled(p, t, wake)
    ensures LocksFit(ThreadStep(p, t, wake))
  {
    var p' := ThreadStep(p, t, wake);
    ThreadCurrent(p, t, wake);
    forall u | 0 <= u < |p'.threads| ensures ThreadLocksFit(p'.threads[u], u, p'.main, Current(p')) {
      assert ThreadLocksFit(p.threads[u], u, p.main, Current(p));
      assert ThreadLocksFit(p.threads[t], t, p.main, Current(p));
    }
  }

  lemma SavedIsListed(p: Pool, t: nat, wake: Option<nat>)
    requires Inv(p) && ThreadEnabled(p, t, wake)
    ensures ThreadStep(p, t, wake).list == if p.threads[t].pc == Saving then p.list + [t] else p.list
    ensures p.threads[t].pc == Saving ==> t !in p.list && Current(p) == Waiting
  {
    assert ThreadFits(p.threads[t], t in p.list, t, Current(p));
    assert ThreadLocksFit(p.threads[t], t, p.main, Current(p));
    if p.threads[t].pc == Saving {
      SaveHasRoom(p, t);
    }
  }

  lemma ThreadList(p: Pool, t: nat, wake: Option<nat>)
    requires Inv(p) && ThreadEnabled(p, t, wake)
    ensures ListFits(ThreadStep(p, t, wake))
  {
    var p' := ThreadStep(p, t, wake);
    ThreadCurrent(p, t, wake);
    SavedIsListed(p, t, wake);
    assert ThreadLocksFit(p.threads[t], t, p.main, Current(p));
    forall u | 0 <= u < |p'.threads| ensures ThreadFits(p'.threads[u], u in p'.list, u, Current(p')) {
      assert ThreadFits(p.threads[u], u in p.list, u, Current(p));
    }
  }

  lemma ThreadTotal(p: Pool, t: nat, wake: Option<nat>)
    requires Inv(p) && ThreadEnabled(p, t, wake)
    ensures TotalFits(ThreadStep(p, t, wake))
  {
  }

  /** Thread t calls its job. */
  lemma RunJob(p: Pool, t: nat)
    requires Inv(p) && t < |p.threads| && p.threads[t].pc == Running && p.threads[t].job.Some?
    ensures JobsFit(ThreadStep(p, t, None))
  {
    var p' := ThreadStep(p, t, None);
    var done := p.threads[t].job.value;
    assert p'.ran == p.ran + [done];
    assert p'.ran[|p.ran|] == done;
    forall job | 0 <= job < p.accepted ensures job in p'.ran || Held(p', job) {
      if job !in p.ran && job != done {
        var u :| 0 <= u < |p.threads| && p.threads[u].job == Some(job);
        assert p'.threads[u].job == Some(job);
      }
    }
  }

  lemma ThreadJobs(p: Pool, t: nat, wake: Option<nat>)
    requires Inv(p) && ThreadEnabled(p, t, wake)
    ensures JobsFit(ThreadStep(p, t, wake))
  {
    if p.threads[t].pc == Running {
      RunJob(p, t);
    } else {
      SameJobs(p, ThreadStep(p, t, wake));
    }
  }

  /** The calls a thread's step finds waiting, and wakes. */
  lemma ThreadCalls(p: Pool, t: nat, wake: Option<nat>)
    requires LocksFit(p) && ThreadEnabled(p, t, wake)
    ensures SomeWaiting(ThreadStep(p, t, wake)) ==> SomeWaiting(p)
    ensures SomeWaiting(ThreadStep(p, t, wake)) && p.threads[t].pc == Saving && |p.list| < p.max ==>
              wake.Some? && wake.value !in WokenSet(p)
              && WokenSet(ThreadStep(p, t, wake)) == WokenSet(p) + {wake.value}
    ensures p.threads[t].pc != Saving ==> WokenSet(ThreadStep(p, t, wake)) == WokenSet(p)
  {
    var p' := ThreadStep(p, t, wake);
    if SomeWaiting(p') {
      var w :| w in p'.calls && p'.calls[w] == Waiting;
      assert p.calls[w] == Waiting;
    }
  }

  lemma ThreadWake(p: Pool, t: nat, wake: Option<nat>)
    requires Inv(p) && ThreadEnabled(p, t, wake)
    ensures NoWakeLost(ThreadStep(p, t, wake))
  {
    ThreadCalls(p, t, wake);
    ThreadCurrent(p, t, wake);
    SavedIsListed(p, t, wake);
    if p.threads[t].pc == Saving {
      SaveHasRoom(p, t);
    }
  }

  lemma NewCallKeeps(p: Pool, c: nat)
    requires Inv(p) && c !in p.calls
    ensures Inv(AtCall(p, c, WantMain))
  {
    var p' := AtCall(p, c, WantMain);
    assert Current(p') == Current(p);
    SameJobs(p, p');
    assert WokenSet(p') == WokenSet(p);
    if SomeWaiting(p') {
      var w :| w in p'.calls && p'.calls[w] == Waiting;
      assert p.calls[w] == Waiting;
    }
  }

  lemma StepKeeps(p: Pool, a: Action)
    requires Inv(p) && Enabled(p, a)
    ensures Inv(Step(p, a)) && Step(p, a).max == p.max
  {
    match a
    case Call(c) => NewCallKeeps(p, c);
    case StepCall(c, createOk) =>
      CallLocks(p, c, createOk); CallList(p, c, createOk); CallTotal(p, c, createOk);
      CallJobs(p, c, createOk); CallWake(p, c, createOk);
    case StepThread(t, wake) =>
      ThreadLocks(p, t, wake); ThreadList(p, t, wake); ThreadTotal(p, t, wake);
      ThreadJobs(p, t, wake); ThreadWake(p, t, wake);
  }

  lemma {:induction false} RunKeeps(pools: seq<Pool>, actions: seq<Action>, max: nat, k: nat)
    requires IsRun(pools, actions, max) && 0 < max && k < |pools|
    ensures Inv(pools[k]) && pools[k].max == max
  {
    if k > 0 {
      RunKeeps(pools, actions, max, k - 1);
      StepKeeps(pools[k - 1], actions[k - 1]);
    }
  }

  // ----- what this means for the pool's users -----

  lemma NoneDiscarded(p: Pool, t: nat)
    requires Inv(p) && t < |p.threads|
    ensures p.threads[t].pc != Discarded
  {
  }

  lemma SignalledSleeps(p: Pool, c: nat, t: nat)
    requires Inv(p) && c in p.calls && p.calls[c] == HoldThread(t)
    ensures t < |p.threads| && p.threads[t].pc == Sleeping
  {
  }

  lemma ListIsShort(p: Pool)
    requires Inv(p)
    ensures |p.list| <= |p.threads|
  {
    assert forall x :: x in p.list ==> x in Below(|p.threads|);
    ListedCount(p.list);
    SubsetCount(Listed(p.list), Below(|p.threads|));
  }

  /** saveThread never fails, a signal to a thread is never lost, and the pool never exceeds its size. */
  lemma PoolIsSound(pools: seq<Pool>, actions: seq<Action>, max: nat, k: nat)
    requires IsRun(pools, actions, max) && 0 < max && k < |pools|
    ensures var p := pools[k];
            && |p.list| <= |p.threads| <= max && p.total <= |p.threads|
            && (forall t :: 0 <= t < |p.threads| && p.threads[t].pc == Saving ==> |p.list| < max)
            && (forall t :: 0 <= t < |p.threads| ==> p.threads[t].pc != Discarded)
            && (forall c, t: nat :: c in p.calls && p.calls[c] == HoldThread(t) ==>
                  t < |p.threads| && p.threads[t].pc == Sleeping)
  {
    RunKeeps(pools, actions, max, k);
    var p := pools[k];
    ListIsShort(p);
    forall t | 0 <= t < |p.threads| ensures p.threads[t].pc != Discarded
        && (p.threads[t].pc == Saving ==> |p.list| < max) {
      NoneDiscarded(p, t);
      if p.threads[t].pc == Saving {
        SaveHasRoom(p, t);
      }
    }
    forall c, t: nat | c in p.calls && p.calls[c] == HoldThread(t)
      ensures t < |p.threads| && p.threads[t].pc == Sleeping
    {
      SignalledSleeps(p, c, t);
    }
  }

  /** Every accepted job is called at most once, and is pending in exactly one thread until it is called. */
  lemma EveryJobRunsOnce(pools: seq<Pool>, actions: seq<Action>, max: nat, k: nat, job: nat)
    requires IsRun(pools, actions, max) && 0 < max && k < |pools| && job < pools[k].accepted
    ensures var p := pools[k];
            && multiset(p.ran)[job] <= 1
            && (job in p.ran <==> !Held(p, job))
            && (forall t, u :: 0 <= t < u < |p.threads| ==> !(p.threads[t].job == p.threads[u].job == Some(job)))
  {
    RunKeeps(pools, actions, max, k);
    CountOnce(pools[k].ran, job);
  }

  lemma {:induction false} CountOnce(list: seq<nat>, x: nat)
    requires forall i, j :: 0 <= i < j < |list| ==> list[i] != list[j]
    ensures multiset(list)[x] <= 1
  {
    if list != [] {
      assert list == [list[0]] + list[1..];
      CountOnce(list[1..], x);
      if list[0] == x {
        assert x !in list[1..];
      }
    }
  }

  /** At rest: every call has returned or waits for an idle thread, and every thread sleeps. */
  ghost predicate AtRest(p: Pool) {
    && (forall c :: c in p.calls ==> p.calls[c] == Waiting)
    && (forall t :: 0 <= t < |p.threads| ==> p.threads[t].pc == Sleeping)
  }

  /** The lock orders main-then-thread and thread-then-main never meet: as long as some call or some
      thread has anything left to do, some step other than a new call is possible. */
  lemma NoDeadlock(pools: seq<Pool>, actions: seq<Action>, max: nat, k: nat)
    requires IsRun(pools, actions, max) && 0 < max && k < |pools| && !AtRest(pools[k])
    ensures exists a: Action :: !a.Call? && Enabled(pools[k], a)
  {
    RunKeeps(pools, actions, max, k);
    SomeStep(pools[k]);
  }

  lemma SomeStep(p: Pool)
    requires Inv(p) && !AtRest(p)
    ensures exists a: Action :: !a.Call? && Enabled(p, a)
  {
    match p.main
    case Some(Caller(c)) =>
      assert Current(p) == p.calls[c];
      if p.calls[c].WantThread? {
        var t := p.calls[c].t;
        assert ThreadLocksFit(p.threads[t], t, p.main, Current(p));
        assert ThreadFits(p.threads[t], t in p.list, t, Current(p));
        if p.threads[t].mutex == None {
          assert Enabled(p, StepCall(c, true));
        } else {
          // the thread needs no other lock: it is about to call cond_wait
          assert p.threads[t].pc == BeforeWait;
          assert Enabled(p, StepThread(t, None));
        }
      } else {
        assert Enabled(p, StepCall(c, true));
      }
    case Some(Worker(t)) =>
      assert ThreadLocksFit(p.threads[t], t, p.main, Current(p));
      var wake := if c: nat :| c in p.calls && p.calls[c] == Waiting then Some(c) else None;
      assert Enabled(p, StepThread(t, wake));
    case None =>
      if c :| c in p.calls && p.calls[c] != Waiting {
        assert Enabled(p, StepCall(c, true));
      } else {
        var t :| 0 <= t < |p.threads| && p.threads[t].pc != Sleeping;
        assert ThreadLocksFit(p.threads[t], t, p.main, Current(p));
        assert ThreadFits(p.threads[t], t in p.list, t, Current(p));
        assert Enabled(p, StepThread(t, None));
      }
  }

  /** No wake-up is lost: when nothing is left to do, no call is still waiting and every accepted
      job has been called. */
  lemma RestMeansDone(pools: seq<Pool>, actions: seq<Action>, max: nat, k: nat)
    requires IsRun(pools, actions, max) && 0 < max && k < |pools| && AtRest(pools[k])
    ensures pools[k].calls == map[]
    ensures forall job :: 0 <= job < pools[k].accepted ==> job in pools[k].ran
  {
    RunKeeps(pools, actions, max, k);
    var p := pools[k];
    assert Current(p) == Waiting;
    forall t | 0 <= t < |p.threads| ensures t in p.list && p.threads[t].job == None {
      assert ThreadFits(p.threads[t], t in p.list, t, Current(p));
    }
    assert WokenSet(p) == {};
    assert |p.threads| > 0 ==> 0 in p.list;
    assert !SomeWaiting(p);
    RestingCalls(p);
  }

  lemma RestingCalls(p: Pool)
    requires AtRest(p)
    ensures p.calls != map[] ==> SomeWaiting(p)
  {
  }
}
