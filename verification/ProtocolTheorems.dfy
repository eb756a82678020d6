/** What the protocol promises over every run, in its own words. */
module ProtocolTheorems {
  import opened SessionProtocol
  import opened SessionControl
  import opened SessionRuns
  import opened MessageAccounting

  // ----- nobody touches a session that is gone -----

  /** Every session pointer that a step follows leads to an object that has not been deleted:
      the callbacks' own session, the sessions found in the manager, and a task's session. */
  lemma PointersAreAlive(states: seq<State>, actions: seq<Action>, k: nat, a: Action)
    requires IsRun(states, actions) && k < |states| && Enabled(states[k], a)
    ensures a.Read? || a.Write? ==> states[k].cells[a.sid].alive && states[k].cells[a.sid].managed
    ensures a.Run? && Touches(states[k].cells[a.sid].tasks[a.i]) ==> states[k].cells[a.sid].alive
    ensures forall sid :: Managed(states[k], sid) ==> states[k].cells[sid].alive
  {
    RunControlled(states, actions, k);
  }

  /** At most one start, worker or terminal task may still touch a session. */
  lemma OneTaskAtATime(states: seq<State>, actions: seq<Action>, k: nat, sid: Sid, i: nat, j: nat)
    requires IsRun(states, actions) && k < |states| && sid in states[k].cells
    requires i < j < |states[k].cells[sid].tasks|
    ensures !(Touches(states[k].cells[sid].tasks[i]) && Touches(states[k].cells[sid].tasks[j]))
  {
    RunControlled(states, actions, k);
  }

  // ----- a response leaves tasks, calls and retired sessions alone -----

  ghost predicate RespondFrame(st: State, r: State) {
    && st.cells.Keys == r.cells.Keys
    && forall sid :: sid in st.cells ==> CellFrame(st.cells[sid], r.cells[sid])
  }

  predicate CellFrame(c: Cell, c': Cell) {
    && c'.tasks == c.tasks && c'.calls == c.calls && c'.alive == c.alive && c'.managed == c.managed
    && (!c.managed ==> c' == c)
    && (c.status != Normal ==> c'.status != Normal)
  }

  lemma {:induction false} OfferAllFrame(st: State, from: Sid, m: nat, n: nat)
    requires Indexed(st) && m < |st.messages| && n <= |st.messages[m].toList|
    ensures RespondFrame(st, OfferAll(st, from, m, n))
    decreases n
  {
    if n > 0 {
      OfferAllFrame(Offer(st, from, m, n - 1), from, m, n - 1);
    }
  }

  lemma {:induction false} DispatchAllFrame(st: State, from: Sid, drafts: seq<Draft>)
    requires Indexed(st)
    ensures RespondFrame(st, DispatchAll(st, from, drafts))
    decreases |drafts|
  {
    if |drafts| > 0 {
      var draft := drafts[0];
      var st1 := st.(messages := st.messages + [Message(draft.toList, [], [], draft.toList, [])]);
      if draft.nonEmpty {
        OfferAllFrame(st1, from, |st.messages|, |draft.toList|);
      }
      DispatchAllFrame(Dispatch(st, from, draft), from, drafts[1..]);
    }
  }

  lemma {:induction false} CloseAllFrame(st: State, sids: seq<Sid>)
    requires Indexed(st)
    ensures RespondFrame(st, CloseAll(st, sids))
    decreases |sids|
  {
    if |sids| > 0 {
      CloseAllFrame(CloseOne(st, sids[0]), sids[1..]);
    }
  }

  lemma RespondIsFrame(st: State, response: Response)
    requires Indexed(st)
    ensures RespondFrame(st, OnResponse(st, response))
  {
    var st1 := AnswerSender(st, response.from);
    var st2 := DispatchAll(st1, response.from, response.body.drafts);
    assert RespondFrame(st, st1);
    DispatchAllFrame(st1, response.from, response.body.drafts);
    CloseAllFrame(st2, response.body.toClose);
  }

  predicate IsOwn(a: Action, sid: Sid) {
    (a.Accept? || a.Read? || a.Write? || a.Run?) && a.sid == sid
  }

  lemma OthersFrame(st: State, a: Action, sid: Sid)
    requires Indexed(st) && Enabled(st, a) && sid in st.cells && !IsOwn(a, sid)
    ensures sid in Step(st, a).cells && CellFrame(st.cells[sid], Step(st, a).cells[sid])
  {
    match a
    case Read(x, got, decoded) => ReadEffect(st, x, got, decoded);
    case Write(x, put, decoded) => WriteEffect(st, x, put, decoded);
    case Respond => RespondIsFrame(st.(responses := st.responses[1..]), st.responses[0]);
    case _ =>
  }

  /** Once a session has left the manager it never returns, only its own tasks change it, and no
      further task is ever queued for it. */
  lemma RetirementIsFinal(st: State, a: Action, sid: Sid)
    requires Controlled(st) && Enabled(st, a) && sid in st.cells && !st.cells[sid].managed
    ensures sid in Step(st, a).cells
    ensures var c, c' := st.cells[sid], Step(st, a).cells[sid];
            && !c'.managed && |c'.tasks| <= |c.tasks|
            && (c' == c || (a.Run? && a.sid == sid))
  {
    if !IsOwn(a, sid) {
      OthersFrame(st, a, sid);
    } else {
      assert EventsFit(st.cells[sid]);
      RunEffect(st, sid, a.i, a.verdict);
    }
  }

  lemma {:induction false} RetiredForEver(states: seq<State>, actions: seq<Action>, k: nat, n: nat, sid: Sid)
    requires IsRun(states, actions) && k <= n < |states|
    requires sid in states[k].cells && !states[k].cells[sid].managed
    ensures sid in states[n].cells && !states[n].cells[sid].managed
    ensures |states[n].cells[sid].tasks| <= |states[k].cells[sid].tasks|
    decreases n
  {
    if k < n {
      RetiredForEver(states, actions, k, n - 1, sid);
      RunControlled(states, actions, n - 1);
      RetirementIsFinal(states[n - 1], actions[n - 1], sid);
    }
  }

  // ----- the order of the handler's calls -----

  predicate Ends(call: Call) { call.ErrorCall? || call.TimeoutCall? }

  /** The calls begin an instance of start? handle* (error | timeout)? close, and handle only ever
      follows a start or handle that returned 0. */
  ghost predicate LegalCalls(calls: seq<Call>) {
    forall i :: 0 <= i < |calls| ==> LegalAt(calls, i)
  }

  predicate LegalAt(calls: seq<Call>, i: nat)
    requires i < |calls|
  {
    match calls[i]
    case StartCall(_) => i == 0
    case HandleCall(_) => i > 0 && (calls[i - 1] == StartCall(0) || calls[i - 1] == HandleCall(0))
    case ErrorCall => i == 0 || calls[i - 1].StartCall? || calls[i - 1].HandleCall?
    case TimeoutCall => i == 0 || calls[i - 1].StartCall? || calls[i - 1].HandleCall?
    case CloseCall => i == 0 || !calls[i - 1].CloseCall?
  }

  /** What the phase says about the last call. */
  lemma PhaseOfLast(calls: seq<Call>)
    requires calls != [] && PhaseOf(calls) != Bad
    ensures var last := calls[|calls| - 1]; var p := PhaseOf(calls);
            && (p == Open <==> last == StartCall(0) || last == HandleCall(0))
            && (Before(p) <==> last.StartCall? || last.HandleCall?)
            && (p == Failed <==> Ends(last))
            && (p == Closed <==> last.CloseCall?)
            && p != Fresh
  {
  }

  lemma {:induction false} PhaseDecidesLegality(calls: seq<Call>)
    ensures PhaseOf(calls) != Bad <==> LegalCalls(calls)
  {
    if calls != [] {
      var n := |calls| - 1;
      var front := calls[..n];
      PhaseDecidesLegality(front);
      assert forall i :: 0 <= i < n ==> (LegalAt(calls, i) <==> LegalAt(front, i));
      if n > 0 && PhaseOf(front) != Bad {
        PhaseOfLast(front);
      }
      assert LegalCalls(calls) <==> LegalCalls(front) && LegalAt(calls, n);
    }
  }

  lemma HandlerCallsAreLegal(states: seq<State>, actions: seq<Action>, k: nat, sid: Sid)
    requires IsRun(states, actions) && k < |states| && sid in states[k].cells
    ensures LegalCalls(states[k].cells[sid].calls)
  {
    RunControlled(states, actions, k);
    PhaseDecidesLegality(states[k].cells[sid].calls);
  }

  // ----- nobody is forgotten -----

  /** For every session in the manager, and every object outside it that is still to be deleted,
      some step that serves it is possible: its own events, one of its tasks, or the response
      queue, which holds a response of its. */
  ghost predicate Attendable(st: State, sid: Sid)
    requires sid in st.cells
  {
    || (st.cells[sid].managed && st.cells[sid].status == Normal && Enabled(st, Read(sid, ReadAgain, false)))
    || (st.cells[sid].managed && st.cells[sid].status == Exit && Enabled(st, Write(sid, WriteAgain, false)))
    || (st.cells[sid].managed && Enabled(st, Respond) && Queued(st.responses, sid))
    || (exists i: nat, v :: Enabled(st, Run(sid, i, v)))
  }

  lemma NoSessionIsOrphaned(states: seq<State>, actions: seq<Action>, k: nat, sid: Sid)
    requires IsRun(states, actions) && k < |states| && sid in states[k].cells && states[k].cells[sid].alive
    ensures Attendable(states[k], sid)
  {
    RunControlled(states, actions, k);
    var st := states[k];
    var c := st.cells[sid];
    if |c.tasks| > 0 {
      assert Enabled(st, Run(sid, 0, Verdict(true, 0, EMPTY_REPLY)));
    }
  }

  /** Output that is waiting, and a request that the decoder has not seen, are also on their way. */
  lemma NothingIsStuck(states: seq<State>, actions: seq<Action>, k: nat, sid: Sid)
    requires IsRun(states, actions) && k < |states| && Managed(states[k], sid)
    ensures var c := states[k].cells[sid];
            c.outList != [] || (c.unread && c.status == Normal) ==>
              c.writeReg || Owed(c, Queued(states[k].responses, sid))
  {
    RunControlled(states, actions, k);
  }

  // ----- every recipient is accounted for -----

  /** The recipients of an addressed message are, at every moment, those still listed, those served
      and those failed; it waits at a session once for each time the session is still listed; and it
      has been completed once if the list is empty and not at all otherwise. */
  lemma RecipientsAreConserved(states: seq<State>, actions: seq<Action>, k: nat, m: nat)
    requires IsRun(states, actions) && k < |states| && m < |states[k].messages|
    requires states[k].messages[m].refused == []
    ensures var msg := states[k].messages[m];
            && multiset(msg.addressed) == multiset(msg.toList) + multiset(msg.success) + multiset(msg.failure)
            && (forall sid :: Copies(states[k], sid, m) == multiset(msg.toList)[sid])
            && Completions(states[k], m) == if msg.toList == [] then 1 else 0
  {
    RunAccounted(states, actions, k);
    var msg := states[k].messages[m];
    assert AccountedFor(states[k], m);
    assert msg.toList != [] ==> msg.toList[0] in multiset(msg.toList);
    assert multiset(msg.addressed) == Expected(msg) == Pending(msg) + Served(msg);
  }

  /** The message that refuses a connection has no addressee, but is completed exactly once too. */
  lemma RefusalIsSettledOnce(states: seq<State>, actions: seq<Action>, k: nat, m: nat)
    requires IsRun(states, actions) && k < |states| && m < |states[k].messages|
    requires states[k].messages[m].refused != []
    ensures var msg := states[k].messages[m];
            && |msg.refused| == 1
            && Copies(states[k], msg.refused[0], m) == 1 - Completions(states[k], m)
            && Served(msg) == if Completions(states[k], m) == 0 then multiset{} else multiset(msg.refused)
  {
    RunAccounted(states, actions, k);
    assert AccountedFor(states[k], m);
    RefusalCount(states[k].messages[m]);
  }

  lemma RefusalCount(msg: Message)
    requires Balanced(msg) && msg.refused != []
    ensures Served(msg) == multiset{} <==> Pending(msg) != multiset{}
    ensures Pending(msg) != multiset{} ==> Pending(msg) == multiset{msg.refused[0]}
    ensures Served(msg) != multiset{} ==> Served(msg) == multiset{msg.refused[0]}
    ensures multiset(msg.refused) == multiset{msg.refused[0]}
  {
    assert msg.refused == [msg.refused[0]];
    assert msg.success != [] ==> msg.success[0] in multiset(msg.success);
    assert msg.failure != [] ==> msg.failure[0] in multiset(msg.failure);
    assert Expected(msg) == multiset{msg.refused[0]};
    if msg.success == [] && msg.failure == [] {
      assert msg.refused[0] in Pending(msg);
    } else {
      assert Pending(msg) == multiset{};
    }
  }

  /** When the last session has left the manager, every message has been completed. */
  lemma AllCompletedInTheEnd(states: seq<State>, actions: seq<Action>, k: nat)
    requires IsRun(states, actions) && k < |states|
    requires forall sid :: sid in states[k].cells ==> !states[k].cells[sid].managed
    ensures forall m :: 0 <= m < |states[k].messages| ==> Completions(states[k], m) == 1
  {
    RunControlled(states, actions, k);
    RunAccounted(states, actions, k);
    forall m | 0 <= m < |states[k].messages| ensures Completions(states[k], m) == 1 {
      assert AccountedFor(states[k], m);
      var pending := Pending(states[k].messages[m]);
      forall sid ensures pending[sid] == 0 {
        assert Copies(states[k], sid, m) == pending[sid];
      }
      assert pending == multiset{};
    }
  }

  // ----- close requests -----

  ghost predicate NoStart(c: Cell) {
    forall i :: 0 <= i < |c.tasks| ==> !Starting(c.tasks[i])
  }

  /** The tasks are the same, or the session's last task has been added. */
  predicate Grows(tasks: seq<Task>, tasks': seq<Task>) {
    tasks' == tasks
    || (|tasks'| == |tasks| + 1 && tasks'[..|tasks|] == tasks && Terminal(tasks'[|tasks|]))
  }

  /** The status is the same and no task but a last one has come. */
  predicate Leaves(c: Cell, c': Cell) { c'.status == c.status && Grows(c.tasks, c'.tasks) }

  lemma NoStartLeaves(c: Cell, c': Cell)
    requires NoStart(c) && Leaves(c, c')
    ensures NoStart(c')
  {
  }

  lemma RetireLeaves(c: Cell, c0: Cell, t: Task)
    requires c0.tasks == c.tasks && c0.status == c.status && Terminal(t)
    ensures Leaves(c, Retire(c0, t))
  {
  }

  lemma OwnReadLeaves(c: Cell, got: ReadOutcome, decoded: bool)
    requires c.status != Normal
    ensures Leaves(c, ReadCell(c, got, decoded))
  {
    var c0 := c.(reading := false, readReg := false);
    RetireLeaves(c, c0.(outList := []), Error);
    RetireLeaves(c, c0.(outList := []), Timeout);
  }

  lemma AfterWriteLeaves(c: Cell, decoded: bool)
    requires c.status != Normal
    ensures Leaves(c, AfterWrite(c, decoded))
  {
    RetireLeaves(c, c, Close);
  }

  lemma SentLeaves(c: Cell, k: nat, decoded: bool)
    requires c.status != Normal && k <= |c.outList|
    ensures Leaves(c, WriteCell(c, Sent(k), decoded))
  {
    var c0 := c.(writing := false, writeReg := false);
    if c.outList == [] {
      AfterWriteLeaves(c0, decoded);
    } else {
      var c1 := c0.(outList := c.outList[k..]);
      var c2 := if c1.outList != [] then AddWrite(c1) else c1;
      assert WriteCell(c, Sent(k), decoded) == AfterWrite(c2, decoded);
      assert c2.tasks == c.tasks && c2.status == c.status;
      AfterWriteLeaves(c2, decoded);
    }
  }

  lemma AgainLeaves(c: Cell, decoded: bool)
    requires c.status != Normal
    ensures Leaves(c, WriteCell(c, WriteAgain, decoded))
  {
    var c0 := c.(writing := false, writeReg := false);
    AfterWriteLeaves(if c.outList == [] then c0 else AddWrite(c0), decoded);
  }

  lemma UnwrittenLeaves(c: Cell, put: WriteOutcome, decoded: bool)
    requires c.status != Normal && (put.WriteFailed? || put.WriteTimedOut?)
    ensures Leaves(c, WriteCell(c, put, decoded))
  {
    var c0 := c.(writing := false, writeReg := false);
    AfterWriteLeaves(c0, decoded);
    RetireLeaves(c, c0.(outList := []), if put.WriteFailed? then Error else Timeout);
  }

  lemma OwnWriteLeaves(c: Cell, put: WriteOutcome, decoded: bool)
    requires c.status != Normal && WriteEnabled(c, put)
    ensures Leaves(c, WriteCell(c, put, decoded))
  {
    match put
    case Sent(k) => SentLeaves(c, k, decoded);
    case WriteAgain => AgainLeaves(c, decoded);
    case _ => UnwrittenLeaves(c, put, decoded);
  }

  lemma OwnTaskLeaves(c: Cell, i: nat, v: Verdict)
    requires c.status != Normal && NoStart(c) && i < |c.tasks|
    ensures TaskStep(c, i, v).status != Normal && NoStart(TaskStep(c, i, v))
  {
  }

  /** A session that is to leave never becomes normal again, unless its start task is still under way. */
  lemma LeavingIsFinal(st: State, a: Action, sid: Sid)
    requires Controlled(st) && Enabled(st, a) && sid in st.cells
    requires st.cells[sid].status != Normal && NoStart(st.cells[sid])
    ensures sid in Step(st, a).cells
    ensures Step(st, a).cells[sid].status != Normal && NoStart(Step(st, a).cells[sid])
  {
    if !IsOwn(a, sid) {
      OthersFrame(st, a, sid);
    } else {
      match a
      case Read(_, got, decoded) =>
        ReadEffect(st, sid, got, decoded);
        OwnReadLeaves(st.cells[sid], got, decoded);
        NoStartLeaves(st.cells[sid], ReadCell(st.cells[sid], got, decoded));
      case Write(_, put, decoded) =>
        WriteEffect(st, sid, put, decoded);
        OwnWriteLeaves(st.cells[sid], put, decoded);
        NoStartLeaves(st.cells[sid], WriteCell(st.cells[sid], put, decoded));
      case Run(_, i, v) =>
        RunEffect(st, sid, i, v);
        OwnTaskLeaves(st.cells[sid], i, v);
    }
  }

  /** A start task writes the status its handler has decided on. */
  predicate Undoes(st: State, a: Action, sid: Sid) {
    && a.Run? && a.sid == sid && sid in st.cells && a.i < |st.cells[sid].tasks|
    && st.cells[sid].tasks[a.i].StartStatus? && st.cells[sid].tasks[a.i].status == Normal
  }

  lemma StatusAfter(c: Cell, t: Task, v: Verdict)
    ensures t.StartStatus? ==> Effect(c, t, v).status == t.status
  {
  }

  lemma TaskUndoes(c: Cell, i: nat, v: Verdict)
    requires c.status != Normal && i < |c.tasks|
    ensures TaskStep(c, i, v).status == Normal <==> c.tasks[i].StartStatus? && c.tasks[i].status == Normal
  {
    StatusAfter(c, c.tasks[i], v);
  }

  /** A session that is to leave becomes normal again by exactly that step. */
  lemma LeavingIsUndoneExactly(st: State, a: Action, sid: Sid)
    requires Controlled(st) && Enabled(st, a) && sid in st.cells && st.cells[sid].status != Normal
    ensures sid in Step(st, a).cells
    ensures Step(st, a).cells[sid].status == Normal <==> Undoes(st, a, sid)
  {
    if !IsOwn(a, sid) {
      OthersFrame(st, a, sid);
    } else {
      match a
      case Read(_, got, decoded) =>
        ReadEffect(st, sid, got, decoded);
        OwnReadLeaves(st.cells[sid], got, decoded);
      case Write(_, put, decoded) =>
        WriteEffect(st, sid, put, decoded);
        OwnWriteLeaves(st.cells[sid], put, decoded);
      case Run(_, i, v) =>
        RunEffect(st, sid, i, v);
        TaskUndoes(st.cells[sid], i, v);
    }
  }

  ghost predicate IsNormal(st: State, sid: Sid) {
    sid in st.cells && st.cells[sid].status == Normal
  }

  lemma UndoneIsNormal(st: State, a: Action, sid: Sid)
    requires Indexed(st) && Enabled(st, a) && Undoes(st, a, sid)
    ensures IsNormal(Step(st, a), sid)
  {
    RunEffect(st, sid, a.i, a.verdict);
  }

  lemma {:induction false} StaysLeaving(states: seq<State>, actions: seq<Action>, k: nat, n: nat, sid: Sid)
    requires IsRun(states, actions) && k <= n < |states| && sid in states[k].cells
    requires states[k].cells[sid].status != Normal
    requires forall j :: k <= j < n ==> !Undoes(states[j], actions[j], sid)
    ensures sid in states[n].cells && states[n].cells[sid].status != Normal
    decreases n
  {
    if k < n {
      StaysLeaving(states, actions, k, n - 1, sid);
      RunControlled(states, actions, n - 1);
      LeavingIsUndoneExactly(states[n - 1], actions[n - 1], sid);
    }
  }

  /** So in every run a session that is to leave at some moment stays so up to a later one exactly if its start task
      does not write a normal status in between. */
  lemma RequestIsLostExactly(states: seq<State>, actions: seq<Action>, k: nat, n: nat, sid: Sid)
    requires IsRun(states, actions) && k <= n < |states| && sid in states[k].cells
    requires states[k].cells[sid].status != Normal
    ensures (forall j :: k <= j <= n ==> !IsNormal(states[j], sid)) <==>
            (forall j :: k <= j < n ==> !Undoes(states[j], actions[j], sid))
  {
    if forall j :: k <= j < n ==> !Undoes(states[j], actions[j], sid) {
      forall j | k <= j <= n ensures !IsNormal(states[j], sid) {
        StaysLeaving(states, actions, k, j, sid);
      }
    } else {
      var j :| k <= j < n && Undoes(states[j], actions[j], sid);
      UndoneIsNormal(states[j], actions[j], sid);
      assert IsNormal(states[j + 1], sid);
    }
  }

  /** The exception is real: a close request that arrives while start runs is overwritten. */
  lemma CloseRequestDuringStartIsLost(sid: Sid) returns (states: seq<State>, actions: seq<Action>)
    requires FIRST_SESSION_KEY <= sid.key
    ensures IsRun(states, actions) && |actions| == 5
    ensures sid in states[3].cells && states[3].cells[sid].status == Exit
    ensures sid in states[5].cells && states[5].cells[sid].status == Normal
  {
    var v := Verdict(true, 0, EMPTY_REPLY);
    states, actions := RequestDuringStart(sid);
    LostRequest(sid, v);
    var s4 := Step(states[3], Run(sid, 0, v));
    states, actions := ExtendRun(states, actions, Run(sid, 0, v), s4);
    states, actions := ExtendRun(states, actions, Run(sid, 0, v), Step(s4, Run(sid, 0, v)));
  }

  lemma RequestDuringStart(sid: Sid) returns (states: seq<State>, actions: seq<Action>)
    requires FIRST_SESSION_KEY <= sid.key
    ensures IsRun(states, actions) && |actions| == 3
    ensures var c1 := FRESH.(running := true, tasks := [Start]);
            states[3] == OnResponse(State(map[sid := c1], [], [], []), Response(TIMER_SID, Reply([], [sid])))
  {
    var request := Response(TIMER_SID, Reply([], [sid]));
    var s1 := State(map[sid := FRESH.(running := true, tasks := [Start])], [], [], []);
    var s2 := s1.(responses := [request]);
    states, actions := [INIT], [];
    states, actions := ExtendRun(states, actions, Accept(sid, false), s1);
    states, actions := ExtendRun(states, actions, Inject(request), s2);
    assert s2.responses[1..] == [];
    states, actions := ExtendRun(states, actions, Respond, OnResponse(s1, request));
  }

  lemma ExtendRun(states: seq<State>, actions: seq<Action>, a: Action, next: State)
    returns (states': seq<State>, actions': seq<Action>)
    requires IsRun(states, actions)
    requires var last := states[|actions|]; Indexed(last) && Enabled(last, a) && next == Step(last, a)
    ensures IsRun(states', actions') && |actions'| == |actions| + 1
    ensures states'[|actions'|] == next && forall i :: 0 <= i < |states| ==> states'[i] == states[i]
  {
    states', actions' := states + [next], actions + [a];
    forall i | 0 <= i < |actions'|
      ensures Indexed(states'[i]) && Enabled(states'[i], actions'[i]) && states'[i + 1] == Step(states'[i], actions'[i])
    {
      if i < |actions| {
        assert states'[i] == states[i] && states'[i + 1] == states[i + 1] && actions'[i] == actions[i];
      }
    }
  }

  lemma LostRequest(sid: Sid, v: Verdict)
    requires FIRST_SESSION_KEY <= sid.key && v.initOk && v.ret == 0
    ensures var c1 := FRESH.(running := true, tasks := [Start]);
            var s3 := OnResponse(State(map[sid := c1], [], [], []), Response(TIMER_SID, Reply([], [sid])));
            && sid in s3.cells && s3.cells[sid].status == Exit && Enabled(s3, Run(sid, 0, v))
            && var s4 := Step(s3, Run(sid, 0, v));
            && Enabled(s4, Run(sid, 0, v))
            && var s5 := Step(s4, Run(sid, 0, v));
            && sid in s5.cells && s5.cells[sid].status == Normal
  {
    var c1 := FRESH.(running := true, tasks := [Start]);
    var s0 := State(map[sid := c1], [], [], []);
    assert DispatchAll(s0, TIMER_SID, []) == s0;
    var s3 := CloseOne(s0, sid);
    assert CloseAll(s0, [sid]) == CloseAll(s3, [sid][1..]) == s3;
    var c3 := s3.cells[sid];
    assert c3.tasks == [Start] && c3.status == Exit;
    var s4 := RunTask(s3, sid, 0, v);
    RunEffect(s3, sid, 0, v);
    assert s4.cells[sid].tasks == [StartStatus(Normal, v.reply)];
    RunEffect(s4, sid, 0, v);
  }
}
