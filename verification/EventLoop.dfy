/** The event loop's side of the protocol in its own form: callbacks that update session fields,
    recipient lists and queues step by step.  Each is proved equal to the step function of
    SessionProtocol that the invariants are about. */
module EventLoop {
  import opened SessionProtocol

  lemma {:induction false} RemoveAt(list: seq<Sid>, x: Sid, i: nat)
    requires i < |list| && list[i] == x && x !in list[..i]
    ensures RemoveFirst(list, x) == list[..i] + list[i + 1..]
  {
    if i > 0 {
      assert list[..i] == [list[0]] + list[1..][..i - 1];
      assert list[1..][i - 1 + 1..] == list[i + 1..];
      RemoveAt(list[1..], x, i - 1);
    }
  }

  lemma {:induction false} RemoveAbsent(list: seq<Sid>, x: Sid)
    requires x !in list
    ensures RemoveFirst(list, x) == list
  {
    if list != [] {
      RemoveAbsent(list[1..], x);
    }
  }

  lemma {:induction false} ReverseLast(list: seq<Sid>)
    requires list != []
    ensures Reverse(list) == [list[|list| - 1]] + Reverse(list[..|list| - 1])
  {
    if |list| > 1 {
      ReverseLast(list[1..]);
      assert list[1..][..|list| - 2] == list[..|list| - 1][1..];
    }
  }

  /** SP_SidList::find: the index of the first occurrence, or -1. */
  method Find(list: seq<Sid>, sid: Sid) returns (index: int)
    ensures -1 <= index < |list|
    ensures if index < 0 then sid !in list else list[index] == sid && sid !in list[..index]
  {
    index := 0;
    while index < |list|
      invariant 0 <= index <= |list| && sid !in list[..index]
    {
      if list[index] == sid {
        return;
      }
      index := index + 1;
    }
    index := -1;
  }

  class Loop {
    var cells: map<Sid, Cell>
    var messages: seq<Message>
    var completed: seq<nat>
    var responses: seq<Response>

    ghost function Abs(): State
      reads this
    {
      State(cells, messages, completed, responses)
    }

    constructor ()
      ensures Abs() == INIT
    {
      cells, messages, completed, responses := map[], [], [], [];
    }

    /** One copy of message m is done with: the recipient moves from toList to success or failure. */
    method SettleCopy(sid: Sid, m: nat, sent: bool)
      requires m < |messages|
      modifies this`messages, this`completed
      ensures Abs() == Settle(old(Abs()), sid, m, sent)
    {
      var msg := messages[m];
      var index := Find(msg.toList, sid);
      if index >= 0 {
        RemoveAt(msg.toList, sid, index);
        msg := msg.(toList := msg.toList[..index] + msg.toList[index + 1..]);
      } else {
        RemoveAbsent(msg.toList, sid);
      }
      if sent {
        msg := msg.(success := msg.success + [sid]);
      } else {
        msg := msg.(failure := msg.failure + [sid]);
      }
      messages := messages[m := msg];
      if |msg.toList| <= 0 {
        completed := completed + [m];
      }
    }

    method AddEvents(sid: Sid, write: bool, read: bool)
      requires sid in cells
      modifies this`cells
      ensures cells == old(cells)[sid :=
                var c := if write then AddWrite(old(cells)[sid]) else old(cells)[sid];
                if read then AddRead(c) else c]
    {
      var c := cells[sid];
      if write && !c.writing {
        c := c.(writing := true);
        c := c.(writeReg := true);
      }
      if read && !c.reading {
        c := c.(reading := true);
        c := c.(readReg := true);
      }
      cells := cells[sid := c];
    }

    /** The last message queued at a session fails there. */
    method FailLast(sid: Sid)
      requires Indexed(Abs()) && sid in cells && cells[sid].outList != []
      modifies this`cells, this`messages, this`completed
      ensures Abs() == SettleLast(old(Abs()), sid)
    {
      var list := cells[sid].outList;
      var m := list[|list| - 1];
      cells := cells[sid := cells[sid].(outList := list[..|list| - 1])];
      SettleCopy(sid, m, false);
    }

    /** doError with task Error, doTimeout with task Timeout. */
    method Fail(sid: Sid, task: Task)
      requires Indexed(Abs()) && sid in cells
      modifies this`cells, this`messages, this`completed
      ensures Abs() == DoFail(old(Abs()), sid, task)
    {
      cells := cells[sid := cells[sid].(readReg := false, writeReg := false)];
      ghost var start := Abs();
      while |cells[sid].outList| > 0
        invariant sid in cells && Indexed(Abs()) && responses == old(responses)
        invariant FailAll(Abs(), sid) == FailAll(start, sid)
        decreases |cells[sid].outList|
      {
        FailLast(sid);
      }
      var c := cells[sid];
      c := c.(managed := false);
      c := c.(tasks := c.tasks + [task]);
      cells := cells[sid := c];
    }

    /** doClose. */
    method DoClose(sid: Sid)
      requires sid in cells
      modifies this`cells
      ensures cells == old(cells)[sid := Retire(old(cells)[sid], Close)]
    {
      var c := cells[sid];
      c := c.(writeReg := false);
      c := c.(readReg := false);
      c := c.(managed := false);
      cells := cells[sid := c.(tasks := c.tasks + [Close])];
    }

    /** The decoder's verdict on the input and doWork. */
    method Examine(sid: Sid, decoded: bool)
      requires sid in cells
      modifies this`cells
      ensures cells == old(cells)[sid := Decode(old(cells)[sid], decoded)]
    {
      var c := cells[sid];
      if decoded && c.status == Normal {
        c := c.(running := true, unread := true);
        c := c.(tasks := c.tasks + [Work]);
      } else {
        c := c.(unread := false);
      }
      cells := cells[sid := c];
    }

    /** The head message of a session has been sent. */
    method RetireHead(sid: Sid)
      requires Indexed(Abs()) && sid in cells && cells[sid].outList != []
      modifies this`cells, this`messages, this`completed
      ensures Abs() == SettleHead(old(Abs()), sid)
    {
      var list := cells[sid].outList;
      cells := cells[sid := cells[sid].(outList := list[1..])];
      SettleCopy(sid, list[0], true);
    }

    /** The retiring loop of transmit: the first k queued messages have been sent. */
    method RetireSent(sid: Sid, k: nat)
      requires Indexed(Abs()) && sid in cells && k <= |cells[sid].outList|
      modifies this`cells, this`messages, this`completed
      ensures Abs() == Transmit(old(Abs()), sid, k)
    {
      var left := k;
      while left > 0
        invariant 0 <= left <= k && sid in cells && Indexed(Abs()) && left <= |cells[sid].outList|
        invariant Transmit(Abs(), sid, left) == Transmit(old(Abs()), sid, k)
      {
        RetireHead(sid);
        left := left - 1;
      }
    }

    method OnAccept(sid: Sid, busy: bool)
      requires Indexed(Abs()) && sid !in cells
      modifies this
      ensures Abs() == SessionProtocol.OnAccept(old(Abs()), sid, busy)
    {
      cells := cells[sid := FRESH];
      if busy {
        var m := |messages|;
        messages := messages + [Message([], [], [], [], [sid])];
        cells := cells[sid := cells[sid].(outList := [m])];
        cells := cells[sid := cells[sid].(status := Exit)];
        AddEvents(sid, true, false);
      } else {
        cells := cells[sid := cells[sid].(running := true, tasks := [Start])];
      }
    }

    /** onRead with bytes received. */
    method Receive(sid: Sid, decoded: bool)
      requires sid in cells
      modifies this`cells
      ensures cells == old(cells)[sid := var c := old(cells)[sid].(unread := true);
                                         AddRead(if c.running then c else Decode(c, decoded))]
    {
      cells := cells[sid := cells[sid].(unread := true)];
      if !cells[sid].running {
        Examine(sid, decoded);
      }
      AddEvents(sid, false, true);
    }

    method OnRead(sid: Sid, got: ReadOutcome, decoded: bool)
      requires Indexed(Abs()) && sid in cells
      modifies this
      ensures Abs() == SessionProtocol.OnRead(old(Abs()), sid, got, decoded)
    {
      cells := cells[sid := cells[sid].(reading := false, readReg := false)];
      ghost var st1 := Abs();
      if got.Received? {
        Receive(sid, decoded);
      } else if got.ReadFailed? {
        if !cells[sid].running {
          Fail(sid, Error);
        }
      } else if got.ReadAgain? {
        AddEvents(sid, false, true);
      } else {
        if !cells[sid].running {
          Fail(sid, Timeout);
        }
      }
    }

    /** onWrite's output; the result is the source's `ret`. */
    method Flush(sid: Sid, put: WriteOutcome) returns (ret: int)
      requires Indexed(Abs()) && sid in cells && WriteEnabled(cells[sid], put) && !put.WriteTimedOut?
      modifies this
      ensures Abs() == WriteOut(old(Abs()), sid, put).0
      ensures ret == if WriteOut(old(Abs()), sid, put).1 then 0 else -1
    {
      ret := 0;
      SameCell(cells, sid);
      if |cells[sid].outList| > 0 {
        if put.Sent? {
          RetireSent(sid, put.messages);
          SameCell(cells, sid);
          if |cells[sid].outList| > 0 {
            AddEvents(sid, true, false);
          }
        } else if put.WriteFailed? {
          ret := -1;
          if !cells[sid].running {
            Fail(sid, Error);
          }
        } else {
          AddEvents(sid, true, false);
        }
      }
    }

    /** What onWrite does once the output has gone as far as it goes: leave, or look at the input. */
    method LeaveOrExamine(sid: Sid, decoded: bool)
      requires sid in cells
      modifies this`cells
      ensures cells == old(cells)[sid := AfterWrite(old(cells)[sid], decoded)]
    {
      SameCell(cells, sid);
      var ret := 0;
      if |cells[sid].outList| <= 0 && cells[sid].status == Exit {
        ret := -1;
        if !cells[sid].running {
          DoClose(sid);
        }
      }
      if ret == 0 && !cells[sid].running {
        Examine(sid, decoded);
      }
    }

    method OnWrite(sid: Sid, put: WriteOutcome, decoded: bool)
      requires Indexed(Abs()) && sid in cells && WriteEnabled(cells[sid], put)
      modifies this
      ensures Abs() == SessionProtocol.OnWrite(old(Abs()), sid, put, decoded)
    {
      cells := cells[sid := cells[sid].(writing := false, writeReg := false)];
      if put.WriteTimedOut? {
        if !cells[sid].running {
          Fail(sid, Timeout);
        }
      } else {
        var ret := Flush(sid, put);
        if ret == 0 {
          LeaveOrExamine(sid, decoded);
        }
      }
    }

    /** Recipient i of message m gets it queued, or is moved to the failure list. */
    method OfferOne(from: Sid, m: nat, i: nat)
      requires Indexed(Abs()) && m < |messages| && i < |messages[m].toList|
      modifies this`cells, this`messages
      ensures Abs() == Offer(old(Abs()), from, m, i)
    {
      var msg := messages[m];
      var sid := msg.toList[i];
      if sid in cells && cells[sid].managed && (from == sid || cells[sid].status != Exit) {
        cells := cells[sid := cells[sid].(outList := cells[sid].outList + [m])];
        AddEvents(sid, true, false);
      } else {
        msg := msg.(toList := msg.toList[..i] + msg.toList[i + 1..]);
        messages := messages[m := msg.(failure := msg.failure + [sid])];
      }
    }

    /** The recipients of one message, last one first. */
    method OfferToAll(from: Sid, m: nat)
      requires Indexed(Abs()) && m < |messages|
      modifies this`cells, this`messages
      ensures Abs() == OfferAll(old(Abs()), from, m, |old(messages)[m].toList|)
    {
      var i := |messages[m].toList|;
      while i > 0
        invariant Indexed(Abs()) && m < |messages| && 0 <= i <= |messages[m].toList|
        invariant OfferAll(Abs(), from, m, i) == OfferAll(old(Abs()), from, m, |old(messages)[m].toList|)
      {
        i := i - 1;
        OfferOne(from, m, i);
      }
    }

    /** A message without bytes fails at every recipient. */
    method FailEverywhere(m: nat)
      requires m < |messages|
      modifies this`messages
      ensures messages == old(messages)[m := FailEmpty(old(messages)[m])]
    {
      while |messages[m].toList| > 0
        invariant |messages| == |old(messages)|
        invariant messages == old(messages)[m := messages[m]]
        invariant FailEmpty(messages[m]) == FailEmpty(old(messages)[m])
        decreases |messages[m].toList|
      {
        var msg := messages[m];
        var n := |msg.toList| - 1;
        ReverseLast(msg.toList);
        messages := messages[m := msg.(toList := msg.toList[..n], failure := msg.failure + [msg.toList[n]])];
      }
      assert messages[m] == FailEmpty(messages[m]) by {
        assert messages[m].failure + [] == messages[m].failure;
      }
    }

    /** onResponse's treatment of the session the response comes from. */
    method AnswerFrom(from: Sid)
      requires Indexed(Abs())
      modifies this`cells
      ensures Abs() == AnswerSender(old(Abs()), from)
    {
      if !IsSystemSid(from) && from in cells && cells[from].managed {
        var c := cells[from];
        if c.status == WouldExit {
          c := c.(status := Exit);
        }
        if c.status != Normal {
          c := c.(readReg := false);
        }
        cells := cells[from := c];
        AddEvents(from, true, true);
      }
    }

    /** One message of a response. */
    method DispatchOne(from: Sid, draft: Draft)
      requires Indexed(Abs())
      modifies this
      ensures Abs() == Dispatch(old(Abs()), from, draft)
    {
      var m := |messages|;
      messages := messages + [Message(draft.toList, [], [], draft.toList, [])];
      if draft.nonEmpty {
        OfferToAll(from, m);
      } else {
        FailEverywhere(m);
      }
      if |messages[m].toList| <= 0 {
        completed := completed + [m];
      }
    }

    method RequestClose(sid: Sid)
      requires Indexed(Abs())
      modifies this`cells
      ensures Abs() == CloseOne(old(Abs()), sid)
    {
      if sid in cells && cells[sid].managed {
        cells := cells[sid := cells[sid].(status := Exit)];
        AddEvents(sid, true, false);
      }
    }

    method OnResponse(response: Response)
      requires Indexed(Abs())
      modifies this
      ensures Abs() == SessionProtocol.OnResponse(old(Abs()), response)
    {
      var from := response.from;
      AnswerFrom(from);
      ghost var st1 := Abs();
      var drafts := response.body.drafts;
      while |drafts| > 0
        invariant Indexed(Abs())
        invariant DispatchAll(Abs(), from, drafts) == DispatchAll(st1, from, response.body.drafts)
        decreases |drafts|
      {
        DispatchOne(from, drafts[0]);
        drafts := drafts[1..];
      }
      ghost var st2 := Abs();
      var toClose := response.body.toClose;
      while |toClose| > 0
        invariant Indexed(Abs())
        invariant CloseAll(Abs(), toClose) == CloseAll(st2, response.body.toClose)
        decreases |toClose|
      {
        RequestClose(toClose[0]);
        toClose := toClose[1..];
      }
    }
  }
}
