/** What is entered under success and failure: over every run a session stands under success of a
    message as often as a copy went out to it, and under failure as often as a copy was lost there or
    could not be given to it. */
module Receipts {
  import opened SessionProtocol
  import opened Delivery

  /** For every message, sid has been entered under success as often as the message is listed, and
      under failure not at all. */
  ghost predicate Succeeded(st: State, r: State, sid: Sid, list: seq<nat>) {
    && |r.messages| == |st.messages|
    && forall m :: 0 <= m < |st.messages| ==>
         && r.messages[m].success == st.messages[m].success + Repeat(sid, Count(list, m))
         && r.messages[m].failure == st.messages[m].failure
  }

  ghost predicate Failed(st: State, r: State, sid: Sid, list: seq<nat>) {
    && |r.messages| == |st.messages|
    && forall m :: 0 <= m < |st.messages| ==>
         && r.messages[m].failure == st.messages[m].failure + Repeat(sid, Count(list, m))
         && r.messages[m].success == st.messages[m].success
  }

  lemma SettledOnce(st: State, sid: Sid, m: nat, sent: bool)
    requires m < |st.messages|
    ensures sent ==> Succeeded(st, Settle(st, sid, m, sent), sid, [m])
    ensures !sent ==> Failed(st, Settle(st, sid, m, sent), sid, [m])
  {
    forall k | 0 <= k < |st.messages| ensures Repeat(sid, Count([m], k)) == if k == m then [sid] else [] {
    }
    assert forall k :: 0 <= k < |st.messages| ==> st.messages[k].success + [] == st.messages[k].success;
    assert forall k :: 0 <= k < |st.messages| ==> st.messages[k].failure + [] == st.messages[k].failure;
  }

  lemma RepeatJoin(list: seq<Sid>, sid: Sid, i: nat, j: nat)
    ensures list + Repeat(sid, i) + Repeat(sid, j) == list + Repeat(sid, i + j)
  {
  }

  lemma SucceededTwice(st: State, st1: State, r: State, sid: Sid, x: seq<nat>, y: seq<nat>, z: seq<nat>)
    requires Succeeded(st, st1, sid, x) && Succeeded(st1, r, sid, y) && multiset(z) == multiset(x) + multiset(y)
    ensures Succeeded(st, r, sid, z)
  {
    forall m | 0 <= m < |st.messages|
      ensures r.messages[m].success == st.messages[m].success + Repeat(sid, Count(z, m))
    {
      RepeatJoin(st.messages[m].success, sid, Count(x, m), Count(y, m));
    }
  }

  lemma FailedTwice(st: State, st1: State, r: State, sid: Sid, x: seq<nat>, y: seq<nat>, z: seq<nat>)
    requires Failed(st, st1, sid, x) && Failed(st1, r, sid, y) && multiset(z) == multiset(x) + multiset(y)
    ensures Failed(st, r, sid, z)
  {
    forall m | 0 <= m < |st.messages|
      ensures r.messages[m].failure == st.messages[m].failure + Repeat(sid, Count(z, m))
    {
      RepeatJoin(st.messages[m].failure, sid, Count(x, m), Count(y, m));
    }
  }

  lemma NothingEntered(st: State, sid: Sid)
    ensures Succeeded(st, st, sid, []) && Failed(st, st, sid, [])
  {
    assert forall k: nat :: Repeat(sid, Count([], k)) == [];
  }

  lemma HeadSucceeds(st: State, sid: Sid)
    requires Indexed(st) && sid in st.cells && st.cells[sid].outList != []
    ensures Succeeded(st, SettleHead(st, sid), sid, [st.cells[sid].outList[0]])
  {
    SettledOnce(st.(cells := SettleHead(st, sid).cells), sid, st.cells[sid].outList[0], true);
  }

  lemma HeadFirst(list: seq<nat>, k: nat)
    requires 0 < k <= |list|
    ensures multiset(list[..k]) == multiset([list[0]]) + multiset(list[1..][..k - 1])
  {
    assert list[..k] == [list[0]] + list[1..][..k - 1];
  }

  lemma {:induction false} TransmitSucceeds(st: State, sid: Sid, k: nat)
    requires Indexed(st) && sid in st.cells && k <= |st.cells[sid].outList|
    ensures Succeeded(st, Transmit(st, sid, k), sid, st.cells[sid].outList[..k])
    decreases k
  {
    var list := st.cells[sid].outList;
    if k == 0 {
      NothingEntered(st, sid);
    } else {
      HeadSucceeds(st, sid);
      TransmitSucceeds(SettleHead(st, sid), sid, k - 1);
      HeadFirst(list, k);
      SucceededTwice(st, SettleHead(st, sid), Transmit(st, sid, k), sid, [list[0]], list[1..][..k - 1], list[..k]);
    }
  }

  lemma {:induction false} FailAllFails(st: State, sid: Sid)
    requires Indexed(st) && sid in st.cells
    ensures Failed(st, FailAll(st, sid), sid, st.cells[sid].outList)
    decreases |st.cells[sid].outList|
  {
    var list := st.cells[sid].outList;
    if list == [] {
      NothingEntered(st, sid);
    } else {
      var n := |list| - 1;
      var st1 := SettleLast(st, sid);
      SettledOnce(st.(cells := st1.cells), sid, list[n], false);
      FailAllFails(st1, sid);
      assert list == list[..n] + [list[n]];
      FailedTwice(st, st1, FailAll(st, sid), sid, [list[n]], list[..n], list);
    }
  }

  // ----- one step -----

  /** The copies that go out with a step. */
  function SentBy(st: State, a: Action, sid: Sid): seq<nat>
    requires Enabled(st, a)
  {
    if a.Write? && a.sid == sid && a.put.Sent? then st.cells[sid].outList[..a.put.messages] else []
  }

  /** The step fails or times out at a session that nothing is running for. */
  predicate Fails(st: State, a: Action, sid: Sid)
    requires Enabled(st, a)
  {
    match a
    case Read(x, got, _) => x == sid && (got.ReadFailed? || got.ReadTimedOut?) && !st.cells[sid].running
    case Write(x, put, _) =>
      && x == sid && !st.cells[sid].running
      && (put.WriteTimedOut? || (put.WriteFailed? && st.cells[sid].outList != []))
    case _ => false
  }

  /** The copies that are lost with a step. */
  function LostBy(st: State, a: Action, sid: Sid): seq<nat>
    requires Enabled(st, a)
  {
    if Fails(st, a, sid) then st.cells[sid].outList else []
  }

  lemma DoFailFails(st: State, sid: Sid, task: Task)
    requires Indexed(st) && sid in st.cells
    ensures Failed(st, DoFail(st, sid, task), sid, st.cells[sid].outList)
  {
    var c0 := st.cells[sid].(readReg := false, writeReg := false);
    FailAllFails(Update(st, sid, c0), sid);
  }

  lemma ReadEnters(st: State, sid: Sid, got: ReadOutcome, decoded: bool)
    requires Indexed(st) && Enabled(st, Read(sid, got, decoded))
    ensures Failed(st, OnRead(st, sid, got, decoded), sid, LostBy(st, Read(sid, got, decoded), sid))
  {
    var c := st.cells[sid].(reading := false, readReg := false);
    NothingEntered(st, sid);
    if Fails(st, Read(sid, got, decoded), sid) {
      DoFailFails(Update(st, sid, c), sid, if got.ReadFailed? then Error else Timeout);
    }
  }

  lemma WriteEnters(st: State, sid: Sid, put: WriteOutcome, decoded: bool)
    requires Indexed(st) && Enabled(st, Write(sid, put, decoded))
    ensures var r := OnWrite(st, sid, put, decoded);
            var a := Write(sid, put, decoded);
            if Fails(st, a, sid) then Failed(st, r, sid, LostBy(st, a, sid))
            else Succeeded(st, r, sid, SentBy(st, a, sid))
  {
    var c := st.cells[sid].(writing := false, writeReg := false);
    var st1 := Update(st, sid, c);
    NothingEntered(st, sid);
    if Fails(st, Write(sid, put, decoded), sid) {
      DoFailFails(st1, sid, if put.WriteFailed? then Error else Timeout);
    } else if put.Sent? {
      if c.outList == [] {
        assert c.outList[..put.messages] == [];
      } else {
        TransmitSucceeds(st1, sid, put.messages);
      }
    }
  }

  /** The recipients of new messages that cannot get them. */
  function MissedBy(st: State, a: Action, sid: Sid, m: nat): nat
    requires Enabled(st, a)
  {
    if a.Respond? && |st.messages| <= m < |st.messages| + |st.responses[0].body.drafts| then
      var draft := st.responses[0].body.drafts[m - |st.messages|];
      if draft.nonEmpty && Takes(st, st.responses[0].from, sid) then 0 else Count(draft.toList, sid)
    else 0
  }

  /** What one step enters for session sid and message m, new messages included. */
  ghost predicate Enters(st: State, r: State, sid: Sid, m: nat, sent: nat, failed: nat) {
    && |st.messages| <= |r.messages|
    && (m < |st.messages| ==>
          && Count(r.messages[m].success, sid) == Count(st.messages[m].success, sid) + sent
          && Count(r.messages[m].failure, sid) == Count(st.messages[m].failure, sid) + failed)
    && (|st.messages| <= m < |r.messages| ==>
          && Count(r.messages[m].success, sid) == sent
          && Count(r.messages[m].failure, sid) == failed)
  }

  lemma SucceededEnters(st: State, r: State, x: Sid, list: seq<nat>, sid: Sid, m: nat)
    requires Succeeded(st, r, x, list)
    ensures Enters(st, r, sid, m, if x == sid then Count(list, m) else 0, 0)
  {
    if m < |st.messages| {
      CountJoin(st.messages[m].success, Repeat(x, Count(list, m)), sid);
      RepeatCount(x, Count(list, m), sid);
    }
  }

  lemma FailedEnters(st: State, r: State, x: Sid, list: seq<nat>, sid: Sid, m: nat)
    requires Failed(st, r, x, list)
    ensures Enters(st, r, sid, m, 0, if x == sid then Count(list, m) else 0)
  {
    if m < |st.messages| {
      CountJoin(st.messages[m].failure, Repeat(x, Count(list, m)), sid);
      RepeatCount(x, Count(list, m), sid);
    }
  }

  lemma MessageIsDealt(st: State, r: State, response: Response, m: nat)
    requires Delivered(st, r, response)
    ensures |r.messages| == |st.messages| + |response.body.drafts|
    ensures m < |st.messages| ==> r.messages[m] == st.messages[m]
    ensures |st.messages| <= m < |r.messages| ==>
              r.messages[m] == Dealt(response.body.drafts[m - |st.messages|], Takers(st, response.from))
  {
    var j := m - |st.messages|;
    assert |st.messages| + j == m;
  }

  lemma DealtCounts(draft: Draft, takers: set<Sid>, sid: Sid)
    ensures Count(Dealt(draft, takers).success, sid) == 0
    ensures Count(Dealt(draft, takers).failure, sid)
            == if draft.nonEmpty && sid in takers then 0 else Count(draft.toList, sid)
  {
    var group := if draft.nonEmpty then takers else {};
    ReverseCount(Outside(draft.toList, group), sid);
    AmongCount(draft.toList, group, sid);
  }

  lemma RespondEnters(st: State, sid: Sid, m: nat)
    requires Indexed(st) && st.responses != []
    ensures Enters(st, Step(st, Respond), sid, m, 0, MissedBy(st, Respond, sid, m))
  {
    ResponseIsDelivered(st);
    DeliveredEnters(st, Step(st, Respond), st.responses[0], sid, m);
  }

  lemma DeliveredEnters(st: State, r: State, response: Response, sid: Sid, m: nat)
    requires st.responses != [] && response == st.responses[0] && Delivered(st, r, response)
    ensures Enters(st, r, sid, m, 0, MissedBy(st, Respond, sid, m))
  {
    MessageIsDealt(st, r, response, m);
    if |st.messages| <= m < |r.messages| {
      DealtCounts(response.body.drafts[m - |st.messages|], Takers(st, response.from), sid);
    }
  }

  lemma OthersEnter(st: State, a: Action, sid: Sid, m: nat)
    requires Indexed(st) && Enabled(st, a) && (a.Accept? || a.Run? || a.Inject?)
    ensures Enters(st, Step(st, a), sid, m, 0, 0)
  {
  }

  lemma OwnReadEnters(st: State, a: Action, sid: Sid, m: nat)
    requires Indexed(st) && Enabled(st, a) && a.Read?
    ensures Enters(st, Step(st, a), sid, m, 0, Count(LostBy(st, a, sid), m))
  {
    ReadEnters(st, a.sid, a.got, a.decoded);
    FailedEnters(st, Step(st, a), a.sid, LostBy(st, a, a.sid), sid, m);
  }

  lemma OwnWriteEnters(st: State, a: Action, sid: Sid, m: nat)
    requires Indexed(st) && Enabled(st, a) && a.Write?
    ensures Enters(st, Step(st, a), sid, m, Count(SentBy(st, a, sid), m), Count(LostBy(st, a, sid), m))
  {
    WriteEnters(st, a.sid, a.put, a.decoded);
    if Fails(st, a, a.sid) {
      FailedEnters(st, Step(st, a), a.sid, LostBy(st, a, a.sid), sid, m);
    } else {
      SucceededEnters(st, Step(st, a), a.sid, SentBy(st, a, a.sid), sid, m);
    }
  }

  /** One step: what goes out is entered under success, what is lost or cannot be given under failure. */
  lemma StepEnters(st: State, a: Action, sid: Sid, m: nat)
    requires Indexed(st) && Enabled(st, a)
    ensures Enters(st, Step(st, a), sid, m, Count(SentBy(st, a, sid), m),
                   Count(LostBy(st, a, sid), m) + MissedBy(st, a, sid, m))
  {
    match a
    case Read(_, _, _) => OwnReadEnters(st, a, sid, m);
    case Write(_, _, _) => OwnWriteEnters(st, a, sid, m);
    case Respond => RespondEnters(st, sid, m);
    case _ => OthersEnter(st, a, sid, m);
  }

  // ----- every run -----

  /** How many copies of message m went out to sid in the first j steps. */
  ghost function SentTimes(states: seq<State>, actions: seq<Action>, j: nat, sid: Sid, m: nat): nat
    requires IsRun(states, actions) && j <= |actions|
  {
    if j == 0 then 0
    else SentTimes(states, actions, j - 1, sid, m) + Count(SentBy(states[j - 1], actions[j - 1], sid), m)
  }

  /** How many were lost at sid or could not be given to it. */
  ghost function FailedTimes(states: seq<State>, actions: seq<Action>, j: nat, sid: Sid, m: nat): nat
    requires IsRun(states, actions) && j <= |actions|
  {
    if j == 0 then 0
    else FailedTimes(states, actions, j - 1, sid, m)
         + Count(LostBy(states[j - 1], actions[j - 1], sid), m) + MissedBy(states[j - 1], actions[j - 1], sid, m)
  }

  lemma NotThereNotEntered(st: State, a: Action, sid: Sid, m: nat)
    requires Indexed(st) && Enabled(st, a) && |Step(st, a).messages| <= m
    ensures Count(SentBy(st, a, sid), m) == 0
    ensures Count(LostBy(st, a, sid), m) == 0 && MissedBy(st, a, sid, m) == 0
  {
    StepEnters(st, a, sid, m);
    if sid in st.cells {
      assert m !in st.cells[sid].outList;
    }
    if a.Respond? { ResponseIsDelivered(st); }
  }

  /** In every run the success and failure lists of every message say exactly what has happened. */
  lemma {:induction false} EntriesAreTrue(states: seq<State>, actions: seq<Action>, j: nat, sid: Sid, m: nat)
    requires IsRun(states, actions) && j <= |actions|
    ensures m < |states[j].messages| ==>
              && Count(states[j].messages[m].success, sid) == SentTimes(states, actions, j, sid, m)
              && Count(states[j].messages[m].failure, sid) == FailedTimes(states, actions, j, sid, m)
    ensures m >= |states[j].messages| ==>
              SentTimes(states, actions, j, sid, m) == 0 && FailedTimes(states, actions, j, sid, m) == 0
  {
    if j > 0 {
      EntriesAreTrue(states, actions, j - 1, sid, m);
      StepEnters(states[j - 1], actions[j - 1], sid, m);
      if m >= |states[j].messages| {
        NotThereNotEntered(states[j - 1], actions[j - 1], sid, m);
      }
    }
  }
}
