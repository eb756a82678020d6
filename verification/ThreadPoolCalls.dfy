/** What becomes of a call of dispatch: when it waits, who gets its job, and that over every run each
    call has its one job accepted unless a thread for it could not be created. */
module ThreadPoolCalls {
  import opened Basics
  import opened ThreadPool

  // ----- where the call looks at the pool -----

  /** No thread is idle and no more may be created. */
  predicate Exhausted(p: Pool) {
    |p.list| == 0 && p.max <= p.total
  }

  /** A thread is needed and may be created, but cannot. */
  predicate CreationFails(p: Pool, c: nat, createOk: bool) {
    c in p.calls && p.calls[c] == Check && |p.list| == 0 && p.total < p.max && !createOk
  }

  /** The next job, number p.accepted, is now thread t's and no other's. */
  ghost predicate GivenTo(p: Pool, p': Pool, t: nat) {
    && p'.accepted == p.accepted + 1 && t < |p'.threads|
    && p'.threads[t].job == Some(p.accepted)
    && forall u :: 0 <= u < |p'.threads| && u != t ==> u < |p.threads| && p'.threads[u] == p.threads[u]
  }

  /** The call waits exactly if the pool is exhausted.  Otherwise its job goes to the thread that became
      idle last, or to a new one exactly if none is idle; only if that cannot be created is the job
      refused and the pool left as it was. */
  lemma CheckDecides(p: Pool, c: nat, createOk: bool)
    requires CallEnabled(p, c) && p.calls[c] == Check
    ensures var p' := Step(p, StepCall(c, createOk));
            && c in p'.calls && p'.calls.Keys == p.calls.Keys
            && (p'.calls[c] == Waiting <==> Exhausted(p))
            && (p'.accepted == p.accepted <==> Exhausted(p) || CreationFails(p, c, createOk))
            && (Exhausted(p) ==> p'.main == None && p'.threads == p.threads && p'.list == p.list && p'.ran == p.ran)
            && (CreationFails(p, c, createOk) ==> p'.calls[c] == Unlock && p' == p.(calls := p'.calls))
            && (|p.list| > 0 ==>
                  var t := p.list[|p.list| - 1];
                  && GivenTo(p, p', t) && p'.calls[c] == WantThread(t)
                  && p'.list == p.list[..|p.list| - 1] && |p'.threads| == |p.threads|)
            && (|p.list| == 0 && p.total < p.max && createOk ==>
                  && GivenTo(p, p', |p.threads|) && p'.calls[c] == Created
                  && p'.list == [] && |p'.threads| == |p.threads| + 1
                  && p'.threads[|p.threads|].pc == Running)
  {
  }

  /** A call that has counted its new thread, or woken the one it gave its job to, returns. */
  lemma WakesAndReturns(p: Pool, c: nat, createOk: bool)
    requires Inv(p) && CallEnabled(p, c)
    ensures var p' := Step(p, StepCall(c, createOk));
            && (p.calls[c] == Created ==> p'.calls[c] == Unlock && p'.total == p.total + 1)
            && (p.calls[c].HoldThread? ==>
                  var t := p.calls[c].t;
                  && p'.calls[c] == Signalled(t)
                  && p'.threads[t] == p.threads[t].(pc := Roused) && p'.threads[t].job.Some?)
            && (p.calls[c].Signalled? ==> p'.calls[c] == Unlock && p'.threads[p.calls[c].t].mutex == None)
            && (p.calls[c] == Unlock ==> c !in p'.calls && p'.main == None)
  {
    if p.calls[c].HoldThread? {
      SignalledSleeps(p, c, p.calls[c].t);
      assert ThreadFits(p.threads[p.calls[c].t], p.calls[c].t in p.list, p.calls[c].t, Current(p));
    }
  }

  /** A thread calls its job and no other; then it goes to the end of the idle list, never failing, and
      wakes one of the calls that wait, if any does. */
  lemma CallsAndSaves(p: Pool, t: nat, wake: Option<nat>)
    requires Inv(p) && ThreadEnabled(p, t, wake)
    ensures var p' := Step(p, StepThread(t, wake));
            var pc := p.threads[t].pc;
            && p'.ran == p.ran + (if pc == Running then [p.threads[t].job.value] else [])
            && p'.list == p.list + (if pc == Saving then [t] else [])
            && (pc == Saving && SomeWaiting(p) ==>
                  && wake.Some? && p.calls[wake.value] == Waiting
                  && p'.calls == p.calls[wake.value := Woken])
            && (pc != Saving || !SomeWaiting(p) ==> p'.calls == p.calls)
  {
    if p.threads[t].pc == Saving {
      SaveHasRoom(p, t);
    }
    assert p.ran + [] == p.ran && p.list + [] == p.list;
  }

  // ----- every run -----

  predicate IsUndecided(pc: CallPc) {
    pc.WantMain? || pc.Check? || pc.Waiting? || pc.Woken?
  }

  /** The calls that have not come past their wait yet. */
  function Undecided(p: Pool): set<nat> {
    set c | c in p.calls && IsUndecided(p.calls[c])
  }

  ghost function CallsUpTo(actions: seq<Action>, j: nat): nat
    requires j <= |actions|
  {
    if j == 0 then 0 else CallsUpTo(actions, j - 1) + if actions[j - 1].Call? then 1 else 0
  }

  ghost predicate Refused(p: Pool, a: Action) {
    a.StepCall? && CreationFails(p, a.c, a.createOk)
  }

  ghost function RefusedUpTo(pools: seq<Pool>, actions: seq<Action>, j: nat): nat
    requires j <= |actions| < |pools|
  {
    if j == 0 then 0 else RefusedUpTo(pools, actions, j - 1) + if Refused(pools[j - 1], actions[j - 1]) then 1 else 0
  }

  lemma MoveOne(p: Pool, p': Pool, c: nat)
    requires c in p.calls && p'.calls.Keys == p.calls.Keys
    requires forall d :: d in p.calls && d != c ==> p'.calls[d] == p.calls[d]
    ensures Undecided(p') == if IsUndecided(p'.calls[c]) then Undecided(p) + {c} else Undecided(p) - {c}
  {
  }

  lemma NewCallUndecided(p: Pool, c: nat)
    requires c !in p.calls
    ensures var p' := AtCall(p, c, WantMain);
            |Undecided(p')| == |Undecided(p)| + 1 && p'.accepted == p.accepted
  {
    assert Undecided(AtCall(p, c, WantMain)) == Undecided(p) + {c};
  }

  lemma CheckStepDecides(p: Pool, c: nat, createOk: bool)
    requires CallEnabled(p, c) && p.calls[c] == Check
    ensures var p' := Step(p, StepCall(c, createOk));
            |Undecided(p')| + p'.accepted + (if CreationFails(p, c, createOk) then 1 else 0)
            == |Undecided(p)| + p.accepted
  {
    CheckDecides(p, c, createOk);
    MoveOne(p, Step(p, StepCall(c, createOk)), c);
    assert c in Undecided(p);
  }

  /** The other steps of a call. */
  lemma CallStepDecides(p: Pool, c: nat, createOk: bool)
    requires CallEnabled(p, c) && p.calls[c] != Check
    ensures var p' := Step(p, StepCall(c, createOk));
            Undecided(p') == Undecided(p) && p'.accepted == p.accepted
  {
    var p' := Step(p, StepCall(c, createOk));
    if p.calls[c] == Unlock {
      assert p'.calls == p.calls - {c};
    } else {
      MoveOne(p, p', c);
    }
  }

  lemma ThreadStepDecides(p: Pool, t: nat, wake: Option<nat>)
    requires ThreadEnabled(p, t, wake)
    ensures var p' := Step(p, StepThread(t, wake));
            Undecided(p') == Undecided(p) && p'.accepted == p.accepted
  {
    var p' := Step(p, StepThread(t, wake));
    if p'.calls != p.calls {
      MoveOne(p, p', wake.value);
    }
  }

  /** One step: a call is undecided from when it is made until its job is accepted or refused. */
  lemma StepDecides(p: Pool, a: Action)
    requires Enabled(p, a)
    ensures var p' := Step(p, a);
            |Undecided(p')| + p'.accepted + (if Refused(p, a) then 1 else 0)
            == |Undecided(p)| + p.accepted + if a.Call? then 1 else 0
  {
    match a
    case Call(c) => NewCallUndecided(p, c);
    case StepCall(c, createOk) =>
      if p.calls[c] == Check {
        CheckStepDecides(p, c, createOk);
      } else {
        CallStepDecides(p, c, createOk);
      }
    case StepThread(t, wake) => ThreadStepDecides(p, t, wake);
  }

  /** In every run each call is still undecided, or has had exactly one job accepted, or its thread could
      not be created. */
  lemma {:induction false} EveryCallIsDecidedOnce(pools: seq<Pool>, actions: seq<Action>, max: nat, j: nat)
    requires IsRun(pools, actions, max) && j <= |actions|
    ensures CallsUpTo(actions, j)
            == |Undecided(pools[j])| + pools[j].accepted + RefusedUpTo(pools, actions, j)
  {
    if j > 0 {
      EveryCallIsDecidedOnce(pools, actions, max, j - 1);
      StepDecides(pools[j - 1], actions[j - 1]);
    } else {
      assert Undecided(pools[0]) == {};
    }
  }

  /** At rest all jobs of all calls ever made have been called, except those that were refused. */
  lemma RestMeansAllCalled(pools: seq<Pool>, actions: seq<Action>, max: nat, j: nat)
    requires IsRun(pools, actions, max) && 0 < max && j <= |actions| && AtRest(pools[j])
    ensures CallsUpTo(actions, j) == |pools[j].ran| + RefusedUpTo(pools, actions, j)
  {
    EveryCallIsDecidedOnce(pools, actions, max, j);
    RestMeansDone(pools, actions, max, j);
    RunKeeps(pools, actions, max, j);
    assert Undecided(pools[j]) == {};
    AllCalled(pools[j]);
  }

  lemma AllCalled(p: Pool)
    requires JobsFit(p) && forall job :: 0 <= job < p.accepted ==> job in p.ran
    ensures |p.ran| == p.accepted
  {
    ListedCount(p.ran);
    assert Listed(p.ran) == Below(p.accepted);
  }
}
