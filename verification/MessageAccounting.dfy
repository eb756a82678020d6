/** Every recipient of every message is accounted for: in every reachable state it is still to be
    served, or it has succeeded, or it has failed; a message waits in a session's output exactly as
    often as that session is still to be served; and a message has been handed to completion
    exactly once if nobody is left to be served, and not at all before that. */
module MessageAccounting {
  import opened SessionProtocol

  /** The sessions a message was meant for. */
  function Expected(m: Message): multiset<Sid> {
    multiset(m.addressed) + multiset(m.refused)
  }

  /** The sessions it has still to be served to.  A refusal message is queued unaddressed. */
  function Pending(m: Message): multiset<Sid> {
    if m.refused != [] && m.success == [] && m.failure == [] then multiset(m.refused) else multiset(m.toList)
  }

  function Served(m: Message): multiset<Sid> {
    multiset(m.success) + multiset(m.failure)
  }

  predicate Balanced(m: Message) {
    && Expected(m) == Pending(m) + Served(m)
    && (m.refused != [] ==> |m.refused| == 1 && m.toList == [] && m.addressed == [])
  }

  /** How often message m waits in the output of session sid. */
  function Copies(st: State, sid: Sid, m: nat): nat {
    if sid in st.cells then multiset(st.cells[sid].outList)[m] else 0
  }

  function Completions(st: State, m: nat): nat {
    multiset(st.completed)[m]
  }

  ghost predicate AccountedFor(st: State, m: nat)
    requires m < |st.messages|
  {
    && Balanced(st.messages[m])
    && (forall sid :: Copies(st, sid, m) == Pending(st.messages[m])[sid])
    && Completions(st, m) == if Pending(st.messages[m]) == multiset{} then 1 else 0
  }

  ghost predicate Accounted(st: State) {
    && Indexed(st)
    && InRange(st.completed, |st.messages|)
    && forall m :: 0 <= m < |st.messages| ==> AccountedFor(st, m)
  }

  lemma {:induction false} RemoveFirstMultiset(list: seq<Sid>, x: Sid)
    ensures x in list ==> multiset(RemoveFirst(list, x)) == multiset(list) - multiset{x}
    ensures x !in list ==> RemoveFirst(list, x) == list
  {
    if list != [] {
      assert list == [list[0]] + list[1..];
      if list[0] != x {
        RemoveFirstMultiset(list[1..], x);
      }
    }
  }

  lemma {:induction false} ReverseMultiset(list: seq<Sid>)
    ensures multiset(Reverse(list)) == multiset(list)
  {
    if list != [] {
      assert list == [list[0]] + list[1..];
      ReverseMultiset(list[1..]);
    }
  }

  /** Nothing has changed for message k. */
  lemma Untouched(st: State, r: State, k: nat)
    requires k < |st.messages| && k < |r.messages| && AccountedFor(st, k)
    requires r.messages[k] == st.messages[k] && Completions(r, k) == Completions(st, k)
    requires forall x :: Copies(r, x, k) == Copies(st, x, k)
    ensures AccountedFor(r, k)
  {
  }

  // ----- one copy done with -----

  lemma MoveOne(all: multiset<Sid>, pending: multiset<Sid>, served: multiset<Sid>, x: Sid)
    requires all == pending + served && x in pending
    ensures all == (pending - multiset{x}) + (served + multiset{x})
  {
  }

  lemma SettleServed(msg: Message, sid: Sid, sent: bool)
    ensures Served(Settled(msg, sid, sent)) == Served(msg) + multiset{sid}
    ensures Settled(msg, sid, sent).success != [] || Settled(msg, sid, sent).failure != []
  {
  }

  lemma SettlePending(msg: Message, sid: Sid, sent: bool)
    requires Balanced(msg) && sid in Pending(msg)
    ensures Pending(Settled(msg, sid, sent)) == Pending(msg) - multiset{sid}
    ensures Pending(Settled(msg, sid, sent)) == multiset(Settled(msg, sid, sent).toList)
  {
    SettleServed(msg, sid, sent);
    RemoveFirstMultiset(msg.toList, sid);
    if msg.refused != [] {
      assert msg.refused == [msg.refused[0]];
    }
  }

  lemma SettleMessage(msg: Message, sid: Sid, sent: bool)
    requires Balanced(msg) && sid in Pending(msg)
    ensures var msg' := Settled(msg, sid, sent);
            && Balanced(msg') && Pending(msg') == Pending(msg) - multiset{sid}
            && (Pending(msg') == multiset{} <==> msg'.toList == [])
  {
    var msg' := Settled(msg, sid, sent);
    SettleServed(msg, sid, sent);
    SettlePending(msg, sid, sent);
    MoveOne(Expected(msg), Pending(msg), Served(msg), sid);
    assert Expected(msg') == Expected(msg);
    assert msg'.toList != [] ==> msg'.toList[0] in multiset(msg'.toList);
  }

  lemma SettleOthers(st: State, r: State, sid: Sid, rest: seq<nat>, m: nat, k: nat)
    requires sid in st.cells && k < |st.messages| && k < |r.messages| && AccountedFor(st, k) && k != m
    requires multiset(st.cells[sid].outList) == multiset(rest) + multiset{m}
    requires r.cells == st.cells[sid := st.cells[sid].(outList := rest)] && r.messages[k] == st.messages[k]
    requires r.completed == st.completed || r.completed == st.completed + [m]
    ensures AccountedFor(r, k)
  {
    Untouched(st, r, k);
  }

  lemma CopiesDrop(st: State, r: State, sid: Sid, rest: seq<nat>, m: nat)
    requires sid in st.cells && r.cells == st.cells[sid := st.cells[sid].(outList := rest)]
    requires multiset(st.cells[sid].outList) == multiset(rest) + multiset{m}
    ensures Copies(st, sid, m) >= 1
    ensures forall x :: Copies(r, x, m) == if x == sid then Copies(st, x, m) - 1 else Copies(st, x, m)
  {
  }

  lemma SettleThis(st: State, r: State, sid: Sid, m: nat, sent: bool)
    requires m < |st.messages| && m < |r.messages| && AccountedFor(st, m)
    requires Copies(st, sid, m) >= 1
    requires forall x :: Copies(r, x, m) == if x == sid then Copies(st, x, m) - 1 else Copies(st, x, m)
    requires r.messages[m] == Settled(st.messages[m], sid, sent)
    requires r.completed == if r.messages[m].toList == [] then st.completed + [m] else st.completed
    ensures AccountedFor(r, m)
  {
    assert Pending(st.messages[m])[sid] == Copies(st, sid, m);
    SettleMessage(st.messages[m], sid, sent);
    SettleCompletions(st, r, m, sid);
    SettleCopies(st, r, m, sid, Pending(st.messages[m]), Pending(r.messages[m]));
  }

  lemma SettleCopies(st: State, r: State, m: nat, sid: Sid, before: multiset<Sid>, after: multiset<Sid>)
    requires forall x :: Copies(st, x, m) == before[x]
    requires forall x :: Copies(r, x, m) == if x == sid then Copies(st, x, m) - 1 else Copies(st, x, m)
    requires sid in before && after == before - multiset{sid}
    ensures forall x :: Copies(r, x, m) == after[x]
  {
  }

  lemma SettleCompletions(st: State, r: State, m: nat, sid: Sid)
    requires m < |st.messages| && m < |r.messages|
    requires sid in Pending(st.messages[m])
    requires Completions(st, m) == if Pending(st.messages[m]) == multiset{} then 1 else 0
    requires Pending(r.messages[m]) == multiset{} <==> r.messages[m].toList == []
    requires r.completed == if r.messages[m].toList == [] then st.completed + [m] else st.completed
    ensures Completions(r, m) == if Pending(r.messages[m]) == multiset{} then 1 else 0
  {
  }

  lemma SettleIndexed(st: State, r: State, sid: Sid, rest: seq<nat>, m: nat)
    requires Indexed(st) && InRange(st.completed, |st.messages|) && sid in st.cells
    requires m < |st.messages| == |r.messages| && InRange(rest, |st.messages|)
    requires r.cells == st.cells[sid := st.cells[sid].(outList := rest)]
    requires r.completed == st.completed || r.completed == st.completed + [m]
    ensures Indexed(r) && InRange(r.completed, |r.messages|)
  {
  }

  /** A queued copy of message m leaves the output of sid and is settled there. */
  lemma SettleAccounted(st: State, sid: Sid, rest: seq<nat>, m: nat, sent: bool)
    requires Accounted(st) && sid in st.cells && m < |st.messages| && InRange(rest, |st.messages|)
    requires multiset(st.cells[sid].outList) == multiset(rest) + multiset{m}
    ensures Accounted(Settle(Update(st, sid, st.cells[sid].(outList := rest)), sid, m, sent))
  {
    var r := Settle(Update(st, sid, st.cells[sid].(outList := rest)), sid, m, sent);
    SettleIndexed(st, r, sid, rest, m);
    forall k | 0 <= k < |st.messages| ensures AccountedFor(r, k) {
      if k == m {
        CopiesDrop(st, r, sid, rest, m);
        SettleThis(st, r, sid, m, sent);
      } else {
        SettleOthers(st, r, sid, rest, m, k);
      }
    }
  }

  lemma SplitFirst(list: seq<nat>)
    requires list != []
    ensures multiset(list) == multiset(list[1..]) + multiset{list[0]}
  {
    assert list == [list[0]] + list[1..];
  }

  lemma SplitLast(list: seq<nat>)
    requires list != []
    ensures multiset(list) == multiset(list[..|list| - 1]) + multiset{list[|list| - 1]}
  {
    assert list == list[..|list| - 1] + [list[|list| - 1]];
  }

  lemma {:induction false} TransmitAccounted(st: State, sid: Sid, k: nat)
    requires Accounted(st) && sid in st.cells && k <= |st.cells[sid].outList|
    ensures Accounted(Transmit(st, sid, k))
    decreases k
  {
    if k > 0 {
      var list := st.cells[sid].outList;
      SplitFirst(list);
      SettleAccounted(st, sid, list[1..], list[0], true);
      TransmitAccounted(SettleHead(st, sid), sid, k - 1);
    }
  }

  lemma {:induction false} FailAllAccounted(st: State, sid: Sid)
    requires Accounted(st) && sid in st.cells
    ensures Accounted(FailAll(st, sid))
    decreases |st.cells[sid].outList|
  {
    var list := st.cells[sid].outList;
    if list != [] {
      SplitLast(list);
      SettleAccounted(st, sid, list[..|list| - 1], list[|list| - 1], false);
      FailAllAccounted(SettleLast(st, sid), sid);
    }
  }

  /** Changing a session without touching its output. */
  lemma UpdateAccounted(st: State, sid: Sid, c: Cell)
    requires Accounted(st)
    requires if sid in st.cells then c.outList == st.cells[sid].outList else c.outList == []
    ensures Accounted(Update(st, sid, c))
  {
    var r := Update(st, sid, c);
    forall m | 0 <= m < |st.messages| ensures AccountedFor(r, m) {
      Untouched(st, r, m);
    }
  }

  lemma DoFailAccounted(st: State, sid: Sid, task: Task)
    requires Accounted(st) && sid in st.cells
    ensures Accounted(DoFail(st, sid, task))
  {
    var st0 := Update(st, sid, st.cells[sid].(readReg := false, writeReg := false));
    UpdateAccounted(st, sid, st0.cells[sid]);
    FailAllAccounted(st0, sid);
    var st1 := FailAll(st0, sid);
    UpdateAccounted(st1, sid, DoFail(st, sid, task).cells[sid]);
  }

  // ----- a message being distributed -----

  /** Accounted for all messages but m, whose recipients from n on have been offered it. */
  ghost predicate Distributing(st: State, m: nat, n: nat) {
    && Indexed(st) && InRange(st.completed, |st.messages|)
    && (forall k :: 0 <= k < |st.messages| && k != m ==> AccountedFor(st, k))
    && m < |st.messages| && n <= |st.messages[m].toList|
    && (var msg := st.messages[m];
        && msg.refused == [] && msg.success == []
        && multiset(msg.addressed) == multiset(msg.toList) + multiset(msg.failure)
        && (forall sid :: Copies(st, sid, m) == multiset(msg.toList[n..])[sid]))
    && Completions(st, m) == 0
  }

  lemma OfferDistributing(st: State, from: Sid, m: nat, i: nat)
    requires Distributing(st, m, i + 1)
    ensures Distributing(Offer(st, from, m, i), m, i)
  {
    var r := Offer(st, from, m, i);
    var list := st.messages[m].toList;
    var sid := list[i];
    assert list[i..] == [sid] + list[i + 1..];
    assert list == list[..i] + [sid] + list[i + 1..];
    if Managed(st, sid) && (from == sid || st.cells[sid].status != Exit) {
      OfferQueued(st, from, m, i);
    } else {
      assert r.messages[m].toList == list[..i] + list[i + 1..];
      assert r.messages[m].toList[i..] == list[i + 1..];
      forall k | 0 <= k < |st.messages| && k != m ensures AccountedFor(r, k) {
        Untouched(st, r, k);
      }
      forall x ensures Copies(r, x, m) == Copies(st, x, m) {
      }
    }
  }

  lemma OfferQueued(st: State, from: Sid, m: nat, i: nat)
    requires Distributing(st, m, i + 1)
    requires var sid := st.messages[m].toList[i];
             Managed(st, sid) && (from == sid || st.cells[sid].status != Exit)
    ensures Distributing(Offer(st, from, m, i), m, i)
  {
    var r := Offer(st, from, m, i);
    var list := st.messages[m].toList;
    var sid := list[i];
    assert list[i..] == [sid] + list[i + 1..];
    forall k | 0 <= k < |st.messages| && k != m ensures AccountedFor(r, k) {
      Untouched(st, r, k);
    }
    forall x ensures Copies(r, x, m) == multiset(list[i..])[x] {
      assert Copies(st, x, m) == multiset(list[i + 1..])[x];
    }
  }

  lemma {:induction false} OfferAllDistributing(st: State, from: Sid, m: nat, n: nat)
    requires Distributing(st, m, n)
    ensures Distributing(OfferAll(st, from, m, n), m, 0)
    decreases n
  {
    if n > 0 {
      OfferDistributing(st, from, m, n - 1);
      OfferAllDistributing(Offer(st, from, m, n - 1), from, m, n - 1);
    }
  }

  lemma CompleteAccounted(st: State, m: nat)
    requires Distributing(st, m, 0)
    ensures Accounted(Complete(st, m))
  {
    var r := Complete(st, m);
    var msg := st.messages[m];
    assert msg.toList[0..] == msg.toList;
    assert |msg.toList| > 0 ==> msg.toList[0] in multiset(msg.toList);
    assert Expected(msg) == multiset(msg.addressed) && Served(msg) == multiset(msg.failure);
    forall k | 0 <= k < |st.messages| && k != m ensures AccountedFor(r, k) {
      Untouched(st, r, k);
    }
    assert AccountedFor(r, m);
  }

  /** A message that has just entered the loop: nobody has been offered it. */
  lemma NewDistributing(st: State, draft: Draft)
    requires Accounted(st)
    ensures Distributing(st.(messages := st.messages + [Message(draft.toList, [], [], draft.toList, [])]),
                         |st.messages|, |draft.toList|)
  {
    var m := |st.messages|;
    var r := st.(messages := st.messages + [Message(draft.toList, [], [], draft.toList, [])]);
    forall sid ensures Copies(st, sid, m) == 0 {
      if sid in st.cells {
        assert m !in st.cells[sid].outList;
      }
    }
    assert m !in st.completed;
    forall k | 0 <= k < m ensures AccountedFor(r, k) {
      Untouched(st, r, k);
    }
    assert draft.toList[|draft.toList|..] == [];
    forall x ensures Copies(r, x, m) == 0 {
      assert Copies(st, x, m) == 0;
    }
  }

  lemma FailEmptyDistributing(st: State, m: nat, n: nat)
    requires Distributing(st, m, n) && n == |st.messages[m].toList| && st.messages[m].failure == []
    ensures Distributing(st.(messages := st.messages[m := FailEmpty(st.messages[m])]), m, 0)
  {
    var msg := st.messages[m];
    ReverseMultiset(msg.toList);
    assert msg.toList[n..] == [];
    var r := st.(messages := st.messages[m := FailEmpty(msg)]);
    forall k | 0 <= k < |st.messages| && k != m ensures AccountedFor(r, k) {
      Untouched(st, r, k);
    }
    forall x ensures Copies(r, x, m) == 0 {
      assert Copies(st, x, m) == multiset(msg.toList[n..])[x];
    }
  }

  lemma DispatchAccounted(st: State, from: Sid, draft: Draft)
    requires Accounted(st)
    ensures Accounted(Dispatch(st, from, draft))
  {
    var m := |st.messages|;
    var st1 := st.(messages := st.messages + [Message(draft.toList, [], [], draft.toList, [])]);
    NewDistributing(st, draft);
    if draft.nonEmpty {
      OfferAllDistributing(st1, from, m, |draft.toList|);
      CompleteAccounted(OfferAll(st1, from, m, |draft.toList|), m);
    } else {
      FailEmptyDistributing(st1, m, |draft.toList|);
      CompleteAccounted(st1.(messages := st1.messages[m := FailEmpty(st1.messages[m])]), m);
    }
  }

  lemma {:induction false} DispatchAllAccounted(st: State, from: Sid, drafts: seq<Draft>)
    requires Accounted(st)
    ensures Accounted(DispatchAll(st, from, drafts))
    decreases |drafts|
  {
    if |drafts| > 0 {
      DispatchAccounted(st, from, drafts[0]);
      DispatchAllAccounted(Dispatch(st, from, drafts[0]), from, drafts[1..]);
    }
  }

  lemma {:induction false} CloseAllAccounted(st: State, sids: seq<Sid>)
    requires Accounted(st)
    ensures Accounted(CloseAll(st, sids))
    decreases |sids|
  {
    if |sids| > 0 {
      if Managed(st, sids[0]) {
        UpdateAccounted(st, sids[0], AddWrite(st.cells[sids[0]].(status := Exit)));
      }
      CloseAllAccounted(CloseOne(st, sids[0]), sids[1..]);
    }
  }

  /** Only the response queue differs. */
  lemma ResponsesIrrelevant(st: State, responses: seq<Response>)
    requires Accounted(st)
    ensures Accounted(st.(responses := responses))
  {
    var r := st.(responses := responses);
    forall m | 0 <= m < |st.messages| ensures AccountedFor(r, m) {
      Untouched(st, r, m);
    }
  }

  // ----- one step -----

  lemma AcceptAccounted(st: State, sid: Sid, busy: bool)
    requires Accounted(st) && sid !in st.cells
    ensures Accounted(OnAccept(st, sid, busy))
  {
    if !busy {
      UpdateAccounted(st, sid, FRESH.(running := true, tasks := [Start]));
    } else {
      var m := |st.messages|;
      var r := OnAccept(st, sid, busy);
      forall k | 0 <= k < |r.messages| ensures AccountedFor(r, k) {
        if k < m {
          Untouched(st, r, k);
        } else {
          assert sid in Pending(r.messages[m]);
          forall x ensures Copies(r, x, m) == Pending(r.messages[m])[x] {
            if x in st.cells {
              assert m !in st.cells[x].outList;
            }
          }
        }
      }
    }
  }

  lemma ReadAccounted(st: State, sid: Sid, got: ReadOutcome, decoded: bool)
    requires Accounted(st) && sid in st.cells
    ensures Accounted(OnRead(st, sid, got, decoded))
  {
    var c := st.cells[sid].(reading := false, readReg := false);
    UpdateAccounted(st, sid, c);
    UpdateAccounted(st, sid, AddRead(c));
    match got
    case Received =>
      var c1 := c.(unread := true);
      UpdateAccounted(st, sid, AddRead(if c1.running then c1 else Decode(c1, decoded)));
    case ReadFailed => DoFailAccounted(Update(st, sid, c), sid, Error);
    case ReadTimedOut => DoFailAccounted(Update(st, sid, c), sid, Timeout);
    case ReadAgain =>
  }

  lemma WriteOutAccounted(st: State, sid: Sid, put: WriteOutcome)
    requires Accounted(st) && sid in st.cells && WriteEnabled(st.cells[sid], put) && !put.WriteTimedOut?
    ensures Accounted(WriteOut(st, sid, put).0)
  {
    var c := st.cells[sid];
    if c.outList != [] {
      match put
      case Sent(k) =>
        TransmitAccounted(st, sid, k);
        var st1 := Transmit(st, sid, k);
        UpdateAccounted(st1, sid, if st1.cells[sid].outList != [] then AddWrite(st1.cells[sid]) else st1.cells[sid]);
      case WriteAgain => UpdateAccounted(st, sid, AddWrite(c));
      case WriteFailed => DoFailAccounted(st, sid, Error);
    }
  }

  lemma WriteAccounted(st: State, sid: Sid, put: WriteOutcome, decoded: bool)
    requires Accounted(st) && sid in st.cells && WriteEnabled(st.cells[sid], put)
    ensures Accounted(OnWrite(st, sid, put, decoded))
  {
    var c := st.cells[sid].(writing := false, writeReg := false);
    var st1 := Update(st, sid, c);
    UpdateAccounted(st, sid, c);
    if put.WriteTimedOut? {
      if !c.running {
        DoFailAccounted(st1, sid, Timeout);
      }
    } else {
      WriteOutAccounted(st1, sid, put);
      var (st2, ok) := WriteOut(st1, sid, put);
      if ok {
        UpdateAccounted(st2, sid, AfterWrite(st2.cells[sid], decoded));
      }
    }
  }

  lemma RespondAccounted(st: State, response: Response)
    requires Accounted(st)
    ensures Accounted(OnResponse(st, response))
  {
    var from := response.from;
    if !IsSystemSid(from) && Managed(st, from) {
      UpdateAccounted(st, from, Answered(st.cells[from]));
    }
    var st1 := AnswerSender(st, from);
    DispatchAllAccounted(st1, from, response.body.drafts);
    CloseAllAccounted(DispatchAll(st1, from, response.body.drafts), response.body.toClose);
  }

  lemma StepAccounted(st: State, a: Action)
    requires Accounted(st) && Enabled(st, a)
    ensures Accounted(Step(st, a))
  {
    match a
    case Accept(sid, busy) => AcceptAccounted(st, sid, busy);
    case Read(sid, got, decoded) => ReadAccounted(st, sid, got, decoded);
    case Write(sid, put, decoded) => WriteAccounted(st, sid, put, decoded);
    case Respond =>
      ResponsesIrrelevant(st, st.responses[1..]);
      RespondAccounted(st.(responses := st.responses[1..]), st.responses[0]);
    case Run(sid, i, v) =>
      var st1 := Update(st, sid, TaskStep(st.cells[sid], i, v));
      UpdateAccounted(st, sid, TaskStep(st.cells[sid], i, v));
      ResponsesIrrelevant(st1, Step(st, a).responses);
    case Inject(response) => ResponsesIrrelevant(st, st.responses + [response]);
  }

  // ----- every run -----

  lemma {:induction false} RunAccounted(states: seq<State>, actions: seq<Action>, k: nat)
    requires IsRun(states, actions) && k < |states|
    ensures Accounted(states[k])
  {
    if k > 0 {
      RunAccounted(states, actions, k - 1);
      StepAccounted(states[k - 1], actions[k - 1]);
    }
  }
}
