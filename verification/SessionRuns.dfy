/** The single-session invariant, carried over every run of the whole system. */
module SessionRuns {
  import opened SessionProtocol
  import opened SessionControl

  ghost predicate Queued(responses: seq<Response>, sid: Sid) {
    exists r :: r in responses && r.from == sid
  }

  ghost predicate CellsOk(st: State) {
    forall sid :: sid in st.cells ==> !IsSystemSid(sid) && CellOk(st.cells[sid], Queued(st.responses, sid))
  }

  ghost predicate Known(st: State) {
    forall r :: r in st.responses ==> r.from in st.cells || IsSystemSid(r.from)
  }

  ghost predicate Controlled(st: State) {
    Indexed(st) && CellsOk(st) && Known(st)
  }

  // ----- the parts of onResponse -----

  lemma OfferKeeps(st: State, from: Sid, m: nat, i: nat)
    requires Indexed(st) && CellsOk(st) && m < |st.messages| && i < |st.messages[m].toList|
    ensures CellsOk(Offer(st, from, m, i)) && Offer(st, from, m, i).cells.Keys == st.cells.Keys
  {
    var sid := st.messages[m].toList[i];
    if Managed(st, sid) {
      QueueOk(st.cells[sid], Queued(st.responses, sid), m);
    }
  }

  lemma OfferAllKeeps(st: State, from: Sid, m: nat, n: nat)
    requires Indexed(st) && CellsOk(st) && m < |st.messages| && n <= |st.messages[m].toList|
    ensures CellsOk(OfferAll(st, from, m, n)) && OfferAll(st, from, m, n).cells.Keys == st.cells.Keys
    decreases n
  {
    if n > 0 {
      OfferKeeps(st, from, m, n - 1);
      OfferAllKeeps(Offer(st, from, m, n - 1), from, m, n - 1);
    }
  }

  lemma DispatchKeeps(st: State, from: Sid, draft: Draft)
    requires Indexed(st) && CellsOk(st)
    ensures CellsOk(Dispatch(st, from, draft)) && Dispatch(st, from, draft).cells.Keys == st.cells.Keys
  {
    var st1 := st.(messages := st.messages + [Message(draft.toList, [], [], draft.toList, [])]);
    if draft.nonEmpty {
      OfferAllKeeps(st1, from, |st.messages|, |draft.toList|);
    }
  }

  lemma DispatchAllKeeps(st: State, from: Sid, drafts: seq<Draft>)
    requires Indexed(st) && CellsOk(st)
    ensures CellsOk(DispatchAll(st, from, drafts)) && DispatchAll(st, from, drafts).cells.Keys == st.cells.Keys
    decreases |drafts|
  {
    if |drafts| > 0 {
      DispatchKeeps(st, from, drafts[0]);
      DispatchAllKeeps(Dispatch(st, from, drafts[0]), from, drafts[1..]);
    }
  }

  lemma CloseAllKeeps(st: State, sids: seq<Sid>)
    requires Indexed(st) && CellsOk(st)
    ensures CellsOk(CloseAll(st, sids)) && CloseAll(st, sids).cells.Keys == st.cells.Keys
    decreases |sids|
  {
    if |sids| > 0 {
      if Managed(st, sids[0]) {
        CloseOk(st.cells[sids[0]], Queued(st.responses, sids[0]));
      }
      CloseAllKeeps(CloseOne(st, sids[0]), sids[1..]);
    }
  }

  /** One session, when a response is taken that may be its own. */
  lemma AfterAnswer(c: Cell, own: bool, before: bool, after: bool)
    requires CellOk(c, before) && if own then before else after == before
    ensures CellOk(if own && c.managed then Answered(c) else c, after)
  {
    if own {
      if c.managed {
        AnsweredOk(c, after);
      } else {
        UnmanagedOk(c, before, after);
      }
    }
  }

  lemma AnswerKeeps(st: State)
    requires Controlled(st) && st.responses != []
    ensures var st0 := st.(responses := st.responses[1..]);
            var st1 := AnswerSender(st0, st.responses[0].from);
            CellsOk(st1) && st1.cells.Keys == st.cells.Keys
  {
    var head, tail := st.responses[0], st.responses[1..];
    assert st.responses == [head] + tail;
    var st1 := AnswerSender(st.(responses := tail), head.from);
    forall sid | sid in st.cells ensures !IsSystemSid(sid) && CellOk(st1.cells[sid], Queued(tail, sid)) {
      assert head in st.responses;
      AfterAnswer(st.cells[sid], sid == head.from, Queued(st.responses, sid), Queued(tail, sid));
    }
  }

  // ----- one step -----

  lemma RespondKeeps(st: State)
    requires Controlled(st) && st.responses != []
    ensures Controlled(Step(st, Respond))
  {
    var head, tail := st.responses[0], st.responses[1..];
    var st1 := AnswerSender(st.(responses := tail), head.from);
    AnswerKeeps(st);
    DispatchAllKeeps(st1, head.from, head.body.drafts);
    CloseAllKeeps(DispatchAll(st1, head.from, head.body.drafts), head.body.toClose);
  }

  /** A step that changes one session and queues no response. */
  lemma OneCellKeeps(st: State, st': State, sid: Sid, c: Cell)
    requires Controlled(st) && Indexed(st') && sid in st.cells
    requires st'.cells == st.cells[sid := c] && st'.responses == st.responses
    requires CellOk(c, Queued(st.responses, sid))
    ensures Controlled(st')
  {
  }

  /** What onRead does to the session's cell. */
  function ReadCell(c: Cell, got: ReadOutcome, decoded: bool): Cell {
    var c0 := c.(reading := false, readReg := false);
    match got
    case Received =>
      var c1 := c0.(unread := true);
      AddRead(if c1.running then c1 else Decode(c1, decoded))
    case ReadAgain => AddRead(c0)
    case ReadFailed => if c.running then c0 else Retire(c0.(outList := []), Error)
    case ReadTimedOut => if c.running then c0 else Retire(c0.(outList := []), Timeout)
  }

  lemma ReadEffect(st: State, sid: Sid, got: ReadOutcome, decoded: bool)
    requires Indexed(st) && sid in st.cells
    ensures OnRead(st, sid, got, decoded).cells == st.cells[sid := ReadCell(st.cells[sid], got, decoded)]
  {
  }

  lemma ReadCellOk(c: Cell, queued: bool, got: ReadOutcome, decoded: bool)
    requires CellOk(c, queued) && c.readReg
    ensures CellOk(ReadCell(c, got, decoded), queued)
  {
    ReadOk(c, queued, got, decoded);
    if !c.running && (got.ReadFailed? || got.ReadTimedOut?) {
      var c0 := c.(reading := false, readReg := false, outList := []);
      RetireOk(c0, queued, if got.ReadFailed? then Error else Timeout);
    }
  }

  lemma ReadKeeps(st: State, sid: Sid, got: ReadOutcome, decoded: bool)
    requires Controlled(st) && sid in st.cells && st.cells[sid].readReg
    ensures Controlled(Step(st, Read(sid, got, decoded)))
  {
    var c := st.cells[sid];
    ReadCellOk(c, Queued(st.responses, sid), got, decoded);
    ReadEffect(st, sid, got, decoded);
    OneCellKeeps(st, Step(st, Read(sid, got, decoded)), sid, ReadCell(c, got, decoded));
  }

  /** What onWrite does to the session's cell. */
  function WriteCell(c: Cell, put: WriteOutcome, decoded: bool): Cell
    requires WriteEnabled(c, put)
  {
    var c0 := c.(writing := false, writeReg := false);
    if put.WriteTimedOut? then
      if c.running then c0 else Retire(c0.(outList := []), Timeout)
    else if c.outList == [] then AfterWrite(c0, decoded)
    else match put
      case Sent(k) =>
        var c1 := c0.(outList := c.outList[k..]);
        AfterWrite(if c1.outList != [] then AddWrite(c1) else c1, decoded)
      case WriteAgain => AfterWrite(AddWrite(c0), decoded)
      case WriteFailed => if c.running then c0 else Retire(c0.(outList := []), Error)
  }

  lemma WriteEffect(st: State, sid: Sid, put: WriteOutcome, decoded: bool)
    requires Indexed(st) && sid in st.cells && WriteEnabled(st.cells[sid], put)
    ensures OnWrite(st, sid, put, decoded).cells == st.cells[sid := WriteCell(st.cells[sid], put, decoded)]
  {
    var c := st.cells[sid];
    var c0 := c.(writing := false, writeReg := false);
    var final := WriteCell(c, put, decoded);
    OverwriteCell(st.cells, sid, c0, final);
    if put.Sent? && c.outList != [] {
      var c1 := c0.(outList := c.outList[put.messages..]);
      var c2 := if c1.outList != [] then AddWrite(c1) else c1;
      OverwriteCell(st.cells, sid, c0, c1);
      OverwriteCell(st.cells, sid, c1, c2);
      OverwriteCell(st.cells, sid, c2, final);
    } else if put.WriteAgain? && c.outList != [] {
      OverwriteCell(st.cells, sid, c0, AddWrite(c0));
      OverwriteCell(st.cells, sid, AddWrite(c0), final);
    }
  }

  lemma WriteCellOk(c: Cell, queued: bool, put: WriteOutcome, decoded: bool)
    requires CellOk(c, queued) && c.writeReg && WriteEnabled(c, put)
    ensures CellOk(WriteCell(c, put, decoded), queued)
  {
    WriteDropOk(c, queued);
    if put.WriteTimedOut? || (c.outList != [] && put.WriteFailed?) {
      if !c.running {
        RetireOk(c.(writing := false, writeReg := false, outList := []), queued,
                 if put.WriteTimedOut? then Timeout else Error);
      }
    } else {
      var rest := if c.outList != [] && put.Sent? then c.outList[put.messages..] else c.outList;
      WriteOk(c, queued, rest, rest != [], decoded);
      assert c.(outList := c.outList) == c;
    }
  }

  lemma WriteKeeps(st: State, sid: Sid, put: WriteOutcome, decoded: bool)
    requires Controlled(st) && sid in st.cells && st.cells[sid].writeReg && WriteEnabled(st.cells[sid], put)
    ensures Controlled(Step(st, Write(sid, put, decoded)))
  {
    var c := st.cells[sid];
    WriteCellOk(c, Queued(st.responses, sid), put, decoded);
    WriteEffect(st, sid, put, decoded);
    OneCellKeeps(st, Step(st, Write(sid, put, decoded)), sid, WriteCell(c, put, decoded));
  }

  lemma AppendQueued(responses: seq<Response>, r: Response, sid: Sid)
    ensures Queued(responses + [r], sid) == (Queued(responses, sid) || r.from == sid)
  {
  }

  /** A worker pushes a response: its session changes and is owed one more. */
  lemma PushKeeps(st: State, sid: Sid, c: Cell, r: Response)
    requires Controlled(st) && sid in st.cells && r.from == sid
    requires CellOk(c, true) && InRange(c.outList, |st.messages|)
    ensures Controlled(st.(cells := st.cells[sid := c], responses := st.responses + [r]))
  {
    forall x { AppendQueued(st.responses, r, x); }
  }

  lemma RunEffect(st: State, sid: Sid, i: nat, v: Verdict)
    requires Indexed(st) && sid in st.cells && i < |st.cells[sid].tasks|
    ensures var t := st.cells[sid].tasks[i];
            var st' := Update(st, sid, TaskStep(st.cells[sid], i, v));
            RunTask(st, sid, i, v) ==
              if PushesReply(t) then st'.(responses := st.responses + [Response(sid, t.reply)]) else st'
  {
  }

  lemma RunKeeps(st: State, sid: Sid, i: nat, v: Verdict)
    requires Controlled(st) && sid in st.cells && i < |st.cells[sid].tasks|
    ensures Controlled(RunTask(st, sid, i, v))
  {
    TaskOk(st.cells[sid], Queued(st.responses, sid), i, v);
    RunEffect(st, sid, i, v);
    RunCombine(st, RunTask(st, sid, i, v), sid, TaskStep(st.cells[sid], i, v), st.cells[sid].tasks[i]);
  }

  lemma RunCombine(st: State, st': State, sid: Sid, c: Cell, t: Task)
    requires Controlled(st) && sid in st.cells && InRange(c.outList, |st.messages|)
    requires CellOk(c, Queued(st.responses, sid) || PushesReply(t))
    requires st' == if PushesReply(t) then Update(st, sid, c).(responses := st.responses + [Response(sid, t.reply)])
                    else Update(st, sid, c)
    ensures Controlled(st')
  {
    if PushesReply(t) {
      PushKeeps(st, sid, c, Response(sid, t.reply));
    } else {
      OneCellKeeps(st, st', sid, c);
    }
  }

  lemma StepKeeps(st: State, a: Action)
    requires Controlled(st) && Enabled(st, a)
    ensures Controlled(Step(st, a))
  {
    match a
    case Accept(sid, busy) =>
      AcceptOk(|st.messages|);
      assert !Queued(st.responses, sid);
    case Read(sid, got, decoded) => ReadKeeps(st, sid, got, decoded);
    case Write(sid, put, decoded) => WriteKeeps(st, sid, put, decoded);
    case Respond => RespondKeeps(st);
    case Run(sid, i, v) => RunKeeps(st, sid, i, v);
    case Inject(response) =>
      forall x { AppendQueued(st.responses, response, x); }
  }

  // ----- every run -----

  lemma {:induction false} RunControlled(states: seq<State>, actions: seq<Action>, k: nat)
    requires IsRun(states, actions) && k < |states|
    ensures Controlled(states[k])
  {
    if k > 0 {
      RunControlled(states, actions, k - 1);
      StepKeeps(states[k - 1], actions[k - 1]);
    }
  }
}
