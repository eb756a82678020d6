/** What causes what: the events that bring a session a task, the handler calls that come of them and
    the replies that go back.

    Over every run the calls made on a session's handler and those still to come are exactly as many as
    the events that called for them, kind by kind, and every reply given is on its way or has been
    answered. */
module Causes {
  import opened SessionProtocol
  import opened Delivery
  import opened Receipts
  import SessionRuns

  // ----- what an event does to its session -----

  /** A whole request has been read, and a worker is to have it. */
  predicate Works(c: Cell, decoded: bool) {
    decoded && !c.running && c.status == Normal
  }

  predicate ReadFails(c: Cell, got: ReadOutcome) {
    !c.running && (got.ReadFailed? || got.ReadTimedOut?)
  }

  function ReadTask(c: Cell, got: ReadOutcome, decoded: bool): seq<Task> {
    if got.Received? && Works(c, decoded) then [Work]
    else if ReadFails(c, got) then [if got.ReadFailed? then Error else Timeout]
    else []
  }

  /** The fields that neither event touches. */
  predicate EventFrame(c: Cell, c': Cell) {
    c'.alive == c.alive && c'.status == c.status && c'.calls == c.calls
  }

  /** onRead.  The event is registered again unless reading has failed; behind a request handed over,
      or while the session is running, there may be more. */
  predicate ReadEvent(c: Cell, c': Cell, got: ReadOutcome, decoded: bool) {
    && EventFrame(c, c')
    && c'.tasks == c.tasks + ReadTask(c, got, decoded)
    && c'.running == (c.running || (got.Received? && Works(c, decoded)))
    && c'.outList == (if ReadFails(c, got) then [] else c.outList)
    && c'.managed == (c.managed && !ReadFails(c, got))
    && c'.reading == c'.readReg == (got.Received? || got.ReadAgain?)
    && c'.writing == c.writing && c'.writeReg == (c.writeReg && !ReadFails(c, got))
    && c'.unread == (if got.Received? then c.running || Works(c, decoded) else c.unread)
  }

  lemma ReadDoes(st: State, sid: Sid, got: ReadOutcome, decoded: bool)
    requires Indexed(st) && Enabled(st, Read(sid, got, decoded))
    ensures var r := Step(st, Read(sid, got, decoded));
            && r.cells.Keys == st.cells.Keys
            && ReadEvent(st.cells[sid], r.cells[sid], got, decoded)
            && forall x :: x in st.cells && x != sid ==> r.cells[x] == st.cells[x]
  {
    SessionRuns.ReadEffect(st, sid, got, decoded);
    ReadCellDoes(st.cells[sid], got, decoded);
  }

  lemma ReadCellDoes(c: Cell, got: ReadOutcome, decoded: bool)
    ensures ReadEvent(c, SessionRuns.ReadCell(c, got, decoded), got, decoded)
  {
    assert c.tasks + [] == c.tasks;
    if got.Received? {
      ReceivedDoes(c, decoded);
    } else if ReadFails(c, got) {
      ReadFailureDoes(c, got, decoded);
    } else if got.ReadAgain? {
      assert SessionRuns.ReadCell(c, got, decoded) == c.(reading := true, readReg := true);
    } else {
      assert SessionRuns.ReadCell(c, got, decoded) == c.(reading := false, readReg := false);
    }
  }

  lemma ReadFailureDoes(c: Cell, got: ReadOutcome, decoded: bool)
    requires ReadFails(c, got)
    ensures ReadEvent(c, SessionRuns.ReadCell(c, got, decoded), got, decoded)
  {
  }

  lemma ReceivedDoes(c: Cell, decoded: bool)
    ensures ReadEvent(c, SessionRuns.ReadCell(c, Received, decoded), Received, decoded)
  {
    assert c.tasks + [] == c.tasks;
    var c' := SessionRuns.ReadCell(c, Received, decoded);
    if Works(c, decoded) {
      assert c' == c.(reading := true, readReg := true, unread := true, running := true, tasks := c.tasks + [Work]);
    } else {
      assert c' == c.(reading := true, readReg := true, unread := c.running);
    }
  }

  predicate WriteFails(c: Cell, put: WriteOutcome) {
    !c.running && (put.WriteTimedOut? || (put.WriteFailed? && c.outList != []))
  }

  /** The socket took what there was to write, or could not take it just now. */
  predicate WriteGoesOn(c: Cell, put: WriteOutcome) {
    !put.WriteTimedOut? && (put.WriteFailed? ==> c.outList == [])
  }

  function Unsent(c: Cell, put: WriteOutcome): seq<nat>
    requires WriteEnabled(c, put)
  {
    if WriteFails(c, put) then [] else if put.Sent? then c.outList[put.messages..] else c.outList
  }

  /** Nothing is left to send and the session is to end. */
  predicate Ends(c: Cell, put: WriteOutcome)
    requires WriteEnabled(c, put)
  {
    WriteGoesOn(c, put) && c.status == Exit && Unsent(c, put) == []
  }

  /** onWrite with `rest` left to send: it goes on, or else there may be a task for the failure; it
      ends the session, or else there may be work.  The event is registered again if it goes on and
      something is left to send. */
  predicate Wrote(c: Cell, c': Cell, rest: seq<nat>, goesOn: bool, failure: seq<Task>, ends: bool, works: bool) {
    var last := failure != [] || (ends && !c.running);
    && EventFrame(c, c')
    && c'.outList == rest
    && c'.tasks == c.tasks + (if ends && !c.running then [Close] else if works && !ends then [Work] else failure)
    && c'.running == (c.running || (works && !ends))
    && c'.managed == (c.managed && !last)
    && c'.writing == c'.writeReg == (goesOn && rest != [])
    && c'.reading == c.reading && c'.readReg == (c.readReg && !last)
    && c'.unread == (if goesOn && !c.running && !ends then works else c.unread)
  }

  predicate WriteEvent(c: Cell, c': Cell, put: WriteOutcome, decoded: bool)
    requires WriteEnabled(c, put)
  {
    Wrote(c, c', Unsent(c, put), WriteGoesOn(c, put),
          if WriteFails(c, put) then [if put.WriteFailed? then Error else Timeout] else [],
          Ends(c, put), WriteGoesOn(c, put) && Works(c, decoded))
  }

  lemma WriteDoes(st: State, sid: Sid, put: WriteOutcome, decoded: bool)
    requires Indexed(st) && Enabled(st, Write(sid, put, decoded))
    ensures var r := Step(st, Write(sid, put, decoded));
            && r.cells.Keys == st.cells.Keys
            && WriteEvent(st.cells[sid], r.cells[sid], put, decoded)
            && forall x :: x in st.cells && x != sid ==> r.cells[x] == st.cells[x]
  {
    SessionRuns.WriteEffect(st, sid, put, decoded);
    WriteCellDoes(st.cells[sid], put, decoded);
  }

  lemma WriteCellDoes(c: Cell, put: WriteOutcome, decoded: bool)
    requires WriteEnabled(c, put)
    ensures WriteEvent(c, SessionRuns.WriteCell(c, put, decoded), put, decoded)
  {
    if WriteGoesOn(c, put) {
      WrittenThen(c, put, decoded);
      AfterWriteDoes(c, put, decoded);
    } else {
      assert c.tasks + [] == c.tasks;
    }
  }

  /** The session between the output and what comes after it. */
  function Written(c: Cell, rest: seq<nat>): Cell {
    c.(outList := rest, writing := rest != [], writeReg := rest != [])
  }

  lemma WrittenIs(c: Cell, rest: seq<nat>)
    ensures var c1 := c.(writing := false, writeReg := false, outList := rest);
            Written(c, rest) == if rest != [] then AddWrite(c1) else c1
  {
  }

  lemma WrittenThen(c: Cell, put: WriteOutcome, decoded: bool)
    requires WriteEnabled(c, put) && WriteGoesOn(c, put)
    ensures SessionRuns.WriteCell(c, put, decoded) == AfterWrite(Written(c, Unsent(c, put)), decoded)
  {
    WrittenIs(c, Unsent(c, put));
    assert c.(outList := c.outList) == c;
    if c.outList == [] {
      NothingToWrite(c, put, decoded);
    }
  }

  lemma NothingToWrite(c: Cell, put: WriteOutcome, decoded: bool)
    requires WriteEnabled(c, put) && WriteGoesOn(c, put) && c.outList == []
    ensures Unsent(c, put) == []
    ensures SessionRuns.WriteCell(c, put, decoded) == AfterWrite(Written(c, []), decoded)
  {
  }

  lemma AfterWriteDoes(c: Cell, put: WriteOutcome, decoded: bool)
    requires WriteEnabled(c, put) && WriteGoesOn(c, put)
    ensures WriteEvent(c, AfterWrite(Written(c, Unsent(c, put)), decoded), put, decoded)
  {
    AfterRest(c, Unsent(c, put), decoded);
  }

  lemma AfterRest(c: Cell, rest: seq<nat>, decoded: bool)
    ensures Wrote(c, AfterWrite(Written(c, rest), decoded), rest, true, [],
                  c.status == Exit && rest == [], Works(c, decoded))
  {
    assert c.tasks + [] == c.tasks;
    var c1 := Written(c, rest);
    var c' := AfterWrite(c1, decoded);
    if c.running {
      assert c' == c1;
    } else if c.status == Exit && rest == [] {
      assert c' == c1.(readReg := false, writeReg := false, managed := false, tasks := c.tasks + [Close]);
    } else if Works(c, decoded) {
      assert c' == c1.(running := true, unread := true, tasks := c.tasks + [Work]);
    } else {
      assert c' == c1.(unread := false);
    }
  }

  /** onAccept.  A session that is refused is to leave once the refusal, which is addressed to nobody,
      has gone out to it; any other is started, and hears nothing until that is done. */
  lemma AcceptDoes(st: State, sid: Sid, busy: bool)
    requires Indexed(st) && Enabled(st, Accept(sid, busy))
    ensures var r := Step(st, Accept(sid, busy));
            var c := r.cells[sid];
            && r.cells.Keys == st.cells.Keys + {sid}
            && (forall x :: x in st.cells ==> r.cells[x] == st.cells[x])
            && c.alive && c.managed && !c.reading && !c.readReg && !c.unread && c.calls == []
            && c.running == !busy && c.tasks == (if busy then [] else [Start])
            && c.status == (if busy then Exit else Normal)
            && c.writing == c.writeReg == busy && c.outList == (if busy then [|st.messages|] else [])
            && r.messages == st.messages + (if busy then [Message([], [], [], [], [sid])] else [])
            && r.completed == st.completed && r.responses == st.responses
  {
  }

  // ----- what a step of a task does to its session -----

  /** The handler's calls. */
  function Called(t: Task, v: Verdict): seq<Call> {
    match t
    case Start => [StartCall(v.ret)]
    case Work => [HandleCall(v.ret)]
    case Error => [ErrorCall]
    case Timeout => [TimeoutCall]
    case Close => [CloseCall]
    case _ => []
  }

  /** What the calls give to be pushed: nothing if the channel's init has failed. */
  function Given(t: Task, v: Verdict): seq<Reply> {
    match t
    case Start => [if v.initOk then v.reply else Reply([], [])]
    case Work => [v.reply]
    case Error => [v.reply]
    case Timeout => [v.reply]
    case _ => []
  }

  /** What follows.  A start makes the session normal exactly if both it and the channel's init went
      well, a worker whose call fails is to leave it eWouldExit, and after an error or a timeout it is
      closed. */
  predicate Follows(t: Task, rest: seq<Task>, v: Verdict) {
    match t
    case Start => rest == [StartStatus(if v.initOk && v.ret == 0 then Normal else WouldExit, Given(t, v)[0])]
    case StartStatus(_, reply) => rest == [Clear(reply)]
    case Work => rest == [if v.ret == 0 then Clear(v.reply) else WorkStatus(v.reply)]
    case WorkStatus(reply) => rest == [Clear(reply)]
    case Clear(reply) => rest == [Push(reply)]
    case Push(_) => rest == []
    case Error => rest == [LastPush(v.reply)]
    case Timeout => rest == [LastPush(v.reply)]
    case LastPush(_) => rest == [Close]
    case Close => rest == []
  }

  function RestOf(t: Task, v: Verdict): seq<Task> {
    if t.Push? || t.Close? then [] else [Rest(t, v)]
  }

  lemma RestFollows(t: Task, v: Verdict)
    ensures Follows(t, RestOf(t, v), v)
  {
  }

  predicate EffectOf(c: Cell, c': Cell, t: Task, called: seq<Call>) {
    && c'.calls == c.calls + called
    && c'.status == (if t.StartStatus? then t.status else if t.WorkStatus? then WouldExit else c.status)
    && c'.running == (c.running && !t.Clear?)
    && c'.alive == (c.alive && !t.Close?)
    && c'.managed == c.managed && c'.outList == c.outList && c'.unread == c.unread
    && c'.reading == c.reading && c'.writing == c.writing
    && c'.readReg == c.readReg && c'.writeReg == c.writeReg
  }

  predicate TaskEvent(c: Cell, c': Cell, i: nat, rest: seq<Task>, v: Verdict)
    requires i < |c.tasks|
  {
    && Follows(c.tasks[i], rest, v) && c'.tasks == c.tasks[..i] + rest + c.tasks[i + 1..]
    && EffectOf(c, c', c.tasks[i], Called(c.tasks[i], v))
  }

  lemma TaskDoes(st: State, sid: Sid, i: nat, v: Verdict)
    requires Indexed(st) && Enabled(st, Run(sid, i, v))
    ensures var r := Step(st, Run(sid, i, v));
            var t := st.cells[sid].tasks[i];
            && r.cells.Keys == st.cells.Keys
            && TaskEvent(st.cells[sid], r.cells[sid], i, RestOf(t, v), v)
            && (forall x :: x in st.cells && x != sid ==> r.cells[x] == st.cells[x])
            && r.messages == st.messages
            && r.responses == st.responses + if t.Push? || t.LastPush? then [Response(sid, t.reply)] else []
  {
    var c := st.cells[sid];
    var t := c.tasks[i];
    SessionRuns.RunEffect(st, sid, i, v);
    TaskStepDoes(c, i, v);
  }

  lemma TaskStepDoes(c: Cell, i: nat, v: Verdict)
    requires i < |c.tasks|
    ensures TaskEvent(c, TaskStep(c, i, v), i, RestOf(c.tasks[i], v), v)
  {
    var t := c.tasks[i];
    RestFollows(t, v);
    EffectDoes(c, t, v);
    TaskStepIs(c, i, v, Effect(c, t, v), RestOf(t, v));
  }

  lemma TaskStepIs(c: Cell, i: nat, v: Verdict, e: Cell, rest: seq<Task>)
    requires i < |c.tasks| && e == Effect(c, c.tasks[i], v) && rest == RestOf(c.tasks[i], v)
    ensures TaskStep(c, i, v) == e.(tasks := c.tasks[..i] + rest + c.tasks[i + 1..])
  {
    if rest == [] {
      assert c.tasks[..i] + [] + c.tasks[i + 1..] == c.tasks[..i] + c.tasks[i + 1..];
    } else {
      assert c.tasks[i := rest[0]] == c.tasks[..i] + [rest[0]] + c.tasks[i + 1..];
    }
  }

  lemma EffectDoes(c: Cell, t: Task, v: Verdict)
    ensures EffectOf(c, Effect(c, t, v), t, Called(t, v))
  {
    if Called(t, v) == [] {
      assert c.calls + [] == c.calls;
      if t.Push? || t.LastPush? {
        assert Effect(c, t, v) == c;
      } else {
        QuietEffect(c, t, v);
      }
    } else if t.Close? {
      assert Effect(c, t, v) == c.(calls := c.calls + [CloseCall], alive := false);
    } else {
      CallEffect(c, t, v, Called(t, v));
    }
  }

  lemma QuietEffect(c: Cell, t: Task, v: Verdict)
    requires (t.StartStatus? || t.WorkStatus? || t.Clear?) && c.calls + [] == c.calls
    ensures EffectOf(c, Effect(c, t, v), t, [])
  {
  }

  lemma CallEffect(c: Cell, t: Task, v: Verdict, called: seq<Call>)
    requires called == Called(t, v) && called != [] && !t.Close?
    ensures EffectOf(c, Effect(c, t, v), t, called)
  {
    assert Effect(c, t, v) == c.(calls := c.calls + called);
  }

  // ----- calls and their causes, over every run -----

  datatype Kind = Starts | Handles | Errors | Timeouts | Closes

  predicate CallIs(call: Call, kind: Kind) {
    match kind
    case Starts => call.StartCall?
    case Handles => call.HandleCall?
    case Errors => call.ErrorCall?
    case Timeouts => call.TimeoutCall?
    case Closes => call.CloseCall?
  }

  /** The task is still to make that call. */
  predicate Brings(t: Task, kind: Kind) {
    match kind
    case Starts => t.Start?
    case Handles => t.Work?
    case Errors => t.Error?
    case Timeouts => t.Timeout?
    case Closes => t.Error? || t.Timeout? || t.LastPush? || t.Close?
  }

  function Made(calls: seq<Call>, kind: Kind): nat {
    if calls == [] then 0 else (if CallIs(calls[0], kind) then 1 else 0) + Made(calls[1..], kind)
  }

  function Due(tasks: seq<Task>, kind: Kind): nat {
    if tasks == [] then 0 else (if Brings(tasks[0], kind) then 1 else 0) + Due(tasks[1..], kind)
  }

  lemma {:induction false} MadeJoin(x: seq<Call>, y: seq<Call>, kind: Kind)
    ensures Made(x + y, kind) == Made(x, kind) + Made(y, kind)
  {
    if x == [] { assert x + y == y; } else { assert (x + y)[1..] == x[1..] + y; MadeJoin(x[1..], y, kind); }
  }

  lemma {:induction false} DueJoin(x: seq<Task>, y: seq<Task>, kind: Kind)
    ensures Due(x + y, kind) == Due(x, kind) + Due(y, kind)
  {
    if x == [] { assert x + y == y; } else { assert (x + y)[1..] == x[1..] + y; DueJoin(x[1..], y, kind); }
  }

  /** Calls of that kind on the session's handler, made or still to come. */
  function CallsOf(st: State, sid: Sid, kind: Kind): nat {
    if sid in st.cells then Made(st.cells[sid].calls, kind) + Due(st.cells[sid].tasks, kind) else 0
  }

  function WriteTask(c: Cell, put: WriteOutcome, decoded: bool): seq<Task>
    requires WriteEnabled(c, put)
  {
    if WriteFails(c, put) then [if put.WriteFailed? then Error else Timeout]
    else if Ends(c, put) && !c.running then [Close]
    else if WriteGoesOn(c, put) && Works(c, decoded) then [Work]
    else []
  }

  /** The task that a step brings the session: its start when it is accepted, work for a request that is
      whole, the end of a session that fails, times out or is to leave and has nothing left to send. */
  function Caused(st: State, a: Action, sid: Sid): seq<Task>
    requires Enabled(st, a)
  {
    match a
    case Accept(x, busy) => if x == sid && !busy then [Start] else []
    case Read(x, got, decoded) => if x == sid then ReadTask(st.cells[x], got, decoded) else []
    case Write(x, put, decoded) => if x == sid then WriteTask(st.cells[x], put, decoded) else []
    case _ => []
  }

  lemma DueMove(tasks: seq<Task>, i: nat, rest: seq<Task>, kind: Kind)
    requires i < |tasks|
    ensures Due(tasks[..i] + rest + tasks[i + 1..], kind) + Due([tasks[i]], kind) == Due(tasks, kind) + Due(rest, kind)
  {
    var before, after := tasks[..i], tasks[i + 1..];
    assert tasks == before + [tasks[i]] + after;
    DueJoin(before + [tasks[i]], after, kind);
    DueJoin(before, [tasks[i]], kind);
    DueJoin(before + rest, after, kind);
    DueJoin(before, rest, kind);
  }

  lemma TaskCalls(c: Cell, c': Cell, i: nat, rest: seq<Task>, v: Verdict, kind: Kind)
    requires i < |c.tasks| && TaskEvent(c, c', i, rest, v)
    ensures Made(c'.calls, kind) + Due(c'.tasks, kind) == Made(c.calls, kind) + Due(c.tasks, kind)
  {
    MadeJoin(c.calls, Called(c.tasks[i], v), kind);
    DueMove(c.tasks, i, rest, kind);
    OneTaskCalls(c.tasks[i], rest, v, kind);
  }

  lemma OneTaskCalls(t: Task, rest: seq<Task>, v: Verdict, kind: Kind)
    requires Follows(t, rest, v)
    ensures Made(Called(t, v), kind) + Due(rest, kind) == Due([t], kind)
  {
    assert Due([t], kind) == if Brings(t, kind) then 1 else 0;
    assert |rest| == 1 ==> Due(rest, kind) == if Brings(rest[0], kind) then 1 else 0;
    assert |Called(t, v)| == 1 ==> Made(Called(t, v), kind) == if CallIs(Called(t, v)[0], kind) then 1 else 0;
  }

  /** Reads and writes: the session gets `more` tasks, and nothing else that counts here changes. */
  ghost predicate Brought(st: State, r: State, x: Sid, more: seq<Task>) {
    && x in st.cells && r.cells.Keys == st.cells.Keys && r.responses == st.responses
    && r.cells[x].tasks == st.cells[x].tasks + more && r.cells[x].calls == st.cells[x].calls
    && (more == [] || more == [Work] || more == [Error] || more == [Timeout] || more == [Close])
    && forall y :: y in st.cells && y != x ==> r.cells[y] == st.cells[y]
  }

  lemma ReadBrings(st: State, x: Sid, got: ReadOutcome, decoded: bool)
    requires Indexed(st) && Enabled(st, Read(x, got, decoded))
    ensures Brought(st, Step(st, Read(x, got, decoded)), x, ReadTask(st.cells[x], got, decoded))
  {
    ReadDoes(st, x, got, decoded);
  }

  lemma WriteBrings(st: State, x: Sid, put: WriteOutcome, decoded: bool)
    requires Indexed(st) && Enabled(st, Write(x, put, decoded))
    ensures Brought(st, Step(st, Write(x, put, decoded)), x, WriteTask(st.cells[x], put, decoded))
  {
    WriteDoes(st, x, put, decoded);
    WriteTaskIs(st.cells[x], Step(st, Write(x, put, decoded)).cells[x], put, decoded);
  }

  lemma BroughtCalls(st: State, r: State, x: Sid, more: seq<Task>, sid: Sid, kind: Kind)
    requires Brought(st, r, x, more)
    ensures CallsOf(r, sid, kind) == CallsOf(st, sid, kind) + if x == sid then Due(more, kind) else 0
  {
    DueJoin(st.cells[x].tasks, more, kind);
  }

  lemma RespondCalls(st: State, sid: Sid, kind: Kind)
    requires Indexed(st) && st.responses != []
    ensures CallsOf(Step(st, Respond), sid, kind) == CallsOf(st, sid, kind)
  {
    ResponseIsDelivered(st);
  }

  lemma RunCalls(st: State, x: Sid, i: nat, v: Verdict, sid: Sid, kind: Kind)
    requires Indexed(st) && Enabled(st, Run(x, i, v))
    ensures CallsOf(Step(st, Run(x, i, v)), sid, kind) == CallsOf(st, sid, kind)
  {
    TaskDoes(st, x, i, v);
    TaskCalls(st.cells[x], Step(st, Run(x, i, v)).cells[x], i, RestOf(st.cells[x].tasks[i], v), v, kind);
  }

  /** One step: a call more is made or due exactly if the step is a cause for it. */
  lemma StepCalls(st: State, a: Action, sid: Sid, kind: Kind)
    requires Indexed(st) && Enabled(st, a)
    ensures CallsOf(Step(st, a), sid, kind) == CallsOf(st, sid, kind) + Due(Caused(st, a, sid), kind)
  {
    match a
    case Accept(x, busy) =>
    case Read(x, got, decoded) =>
      ReadBrings(st, x, got, decoded);
      BroughtCalls(st, Step(st, a), x, ReadTask(st.cells[x], got, decoded), sid, kind);
    case Write(x, put, decoded) =>
      WriteBrings(st, x, put, decoded);
      BroughtCalls(st, Step(st, a), x, WriteTask(st.cells[x], put, decoded), sid, kind);
    case Respond => RespondCalls(st, sid, kind);
    case Run(x, i, v) => RunCalls(st, x, i, v, sid, kind);
    case Inject(_) =>
  }

  lemma WriteTaskIs(c: Cell, c': Cell, put: WriteOutcome, decoded: bool)
    requires WriteEnabled(c, put) && WriteEvent(c, c', put, decoded)
    ensures var more := WriteTask(c, put, decoded);
            && c'.tasks == c.tasks + more
            && (more == [] || more == [Work] || more == [Error] || more == [Timeout] || more == [Close])
  {
  }

  ghost function CausedTimes(states: seq<State>, actions: seq<Action>, j: nat, sid: Sid, kind: Kind): nat
    requires IsRun(states, actions) && j <= |actions|
  {
    if j == 0 then 0
    else CausedTimes(states, actions, j - 1, sid, kind) + Due(Caused(states[j - 1], actions[j - 1], sid), kind)
  }

  /** In every run every handler call, made or still to come, has its own cause, and every cause its call:
      as many of each kind as there were steps to bring them. */
  lemma {:induction false} CallsHaveCauses(states: seq<State>, actions: seq<Action>, j: nat, sid: Sid, kind: Kind)
    requires IsRun(states, actions) && j <= |actions|
    ensures CallsOf(states[j], sid, kind) == CausedTimes(states, actions, j, sid, kind)
  {
    if j > 0 {
      CallsHaveCauses(states, actions, j - 1, sid, kind);
      StepCalls(states[j - 1], actions[j - 1], sid, kind);
    }
  }

  // ----- replies and responses, over every run -----

  /** The task is still to push that reply. */
  predicate Holds(t: Task, reply: Reply) {
    match t
    case StartStatus(_, held) => held == reply
    case WorkStatus(held) => held == reply
    case Clear(held) => held == reply
    case Push(held) => held == reply
    case LastPush(held) => held == reply
    case _ => false
  }

  function Held(tasks: seq<Task>, reply: Reply): nat {
    if tasks == [] then 0 else (if Holds(tasks[0], reply) then 1 else 0) + Held(tasks[1..], reply)
  }

  lemma {:induction false} HeldJoin(x: seq<Task>, y: seq<Task>, reply: Reply)
    ensures Held(x + y, reply) == Held(x, reply) + Held(y, reply)
  {
    if x == [] { assert x + y == y; } else { assert (x + y)[1..] == x[1..] + y; HeldJoin(x[1..], y, reply); }
  }

  lemma HeldMove(tasks: seq<Task>, i: nat, rest: seq<Task>, reply: Reply)
    requires i < |tasks|
    ensures Held(tasks[..i] + rest + tasks[i + 1..], reply) + Held([tasks[i]], reply)
            == Held(tasks, reply) + Held(rest, reply)
  {
    var before, after := tasks[..i], tasks[i + 1..];
    assert tasks == before + [tasks[i]] + after;
    HeldJoin(before + [tasks[i]], after, reply);
    HeldJoin(before, [tasks[i]], reply);
    HeldJoin(before + rest, after, reply);
    HeldJoin(before, rest, reply);
  }

  /** How many of the responses are the session's own and say that. */
  function Said(responses: seq<Response>, sid: Sid, reply: Reply): nat {
    Count(responses, Response(sid, reply))
  }

  /** How often the reply was given by the session's calls and has not been answered yet. */
  function Underway(st: State, sid: Sid, reply: Reply): nat {
    Said(st.responses, sid, reply) + if sid in st.cells then Held(st.cells[sid].tasks, reply) else 0
  }

  function GivenBy(st: State, a: Action, sid: Sid, reply: Reply): nat
    requires Enabled(st, a)
  {
    if a.Run? && a.sid == sid then Count(Given(st.cells[sid].tasks[a.i], a.verdict), reply) else 0
  }

  function AnsweredBy(st: State, a: Action, sid: Sid, reply: Reply): nat
    requires Enabled(st, a)
  {
    if a.Respond? && st.responses[0] == Response(sid, reply) then 1 else 0
  }

  /** The response that a task's step pushes. */
  function Pushed(t: Task): seq<Reply> {
    if t.Push? || t.LastPush? then [t.reply] else []
  }

  lemma OneTaskReplies(t: Task, rest: seq<Task>, v: Verdict, reply: Reply)
    requires Follows(t, rest, v)
    ensures Held(rest, reply) + Count(Pushed(t), reply) == Held([t], reply) + Count(Given(t, v), reply)
  {
    if Called(t, v) == [] { QuietReplies(t, rest, v, reply); } else { CallReplies(t, rest, v, reply); }
  }

  lemma HeldOne(t: Task, reply: Reply)
    ensures Held([t], reply) == if Holds(t, reply) then 1 else 0
  {
  }

  lemma QuietReplies(t: Task, rest: seq<Task>, v: Verdict, reply: Reply)
    requires Follows(t, rest, v) && Called(t, v) == []
    ensures Held(rest, reply) + Count(Pushed(t), reply) == Held([t], reply) && Given(t, v) == []
  {
    HeldOne(t, reply);
    if rest != [] { HeldOne(rest[0], reply); }
  }

  lemma CallReplies(t: Task, rest: seq<Task>, v: Verdict, reply: Reply)
    requires Follows(t, rest, v) && Called(t, v) != []
    ensures Held(rest, reply) == Held([t], reply) + Count(Given(t, v), reply) && Pushed(t) == []
  {
    HeldOne(t, reply);
    if rest != [] { HeldOne(rest[0], reply); }
  }

  lemma PushedSaid(responses: seq<Response>, x: Sid, t: Task, sid: Sid, reply: Reply)
    ensures Said(responses + if t.Push? || t.LastPush? then [Response(x, t.reply)] else [], sid, reply)
            == Said(responses, sid, reply) + if x == sid then Count(Pushed(t), reply) else 0
  {
    assert responses + [] == responses;
  }

  lemma RunReplies(st: State, x: Sid, i: nat, v: Verdict, sid: Sid, reply: Reply)
    requires Indexed(st) && Enabled(st, Run(x, i, v))
    ensures Underway(Step(st, Run(x, i, v)), sid, reply)
            == Underway(st, sid, reply) + GivenBy(st, Run(x, i, v), sid, reply)
  {
    TaskDoes(st, x, i, v);
    var t := st.cells[x].tasks[i];
    HeldMove(st.cells[x].tasks, i, RestOf(t, v), reply);
    OneTaskReplies(t, RestOf(t, v), v, reply);
    PushedSaid(st.responses, x, t, sid, reply);
  }

  lemma BroughtReplies(st: State, r: State, x: Sid, more: seq<Task>, sid: Sid, reply: Reply)
    requires Brought(st, r, x, more)
    ensures Underway(r, sid, reply) == Underway(st, sid, reply)
  {
    assert |more| == 1 ==> Held(more, reply) == if Holds(more[0], reply) then 1 else 0;
    HeldJoin(st.cells[x].tasks, more, reply);
  }

  lemma AcceptReplies(st: State, x: Sid, busy: bool, sid: Sid, reply: Reply)
    requires Indexed(st) && Enabled(st, Accept(x, busy))
    ensures Underway(Step(st, Accept(x, busy)), sid, reply) == Underway(st, sid, reply)
  {
    assert Held([], reply) == 0 && Held([Start], reply) == 0;
  }

  lemma ReadReplies(st: State, x: Sid, got: ReadOutcome, decoded: bool, sid: Sid, reply: Reply)
    requires Indexed(st) && Enabled(st, Read(x, got, decoded))
    ensures Underway(Step(st, Read(x, got, decoded)), sid, reply) == Underway(st, sid, reply)
  {
    ReadBrings(st, x, got, decoded);
    BroughtReplies(st, Step(st, Read(x, got, decoded)), x, ReadTask(st.cells[x], got, decoded), sid, reply);
  }

  lemma WriteReplies(st: State, x: Sid, put: WriteOutcome, decoded: bool, sid: Sid, reply: Reply)
    requires Indexed(st) && Enabled(st, Write(x, put, decoded))
    ensures Underway(Step(st, Write(x, put, decoded)), sid, reply) == Underway(st, sid, reply)
  {
    WriteBrings(st, x, put, decoded);
    BroughtReplies(st, Step(st, Write(x, put, decoded)), x, WriteTask(st.cells[x], put, decoded), sid, reply);
  }

  lemma RespondReplies(st: State, sid: Sid, reply: Reply)
    requires Indexed(st) && st.responses != []
    ensures Underway(Step(st, Respond), sid, reply) + AnsweredBy(st, Respond, sid, reply) == Underway(st, sid, reply)
  {
    ResponseIsDelivered(st);
    assert st.responses == [st.responses[0]] + st.responses[1..];
    CountJoin([st.responses[0]], st.responses[1..], Response(sid, reply));
  }

  /** One step: replies come from calls and leave when they are answered. */
  lemma StepReplies(st: State, a: Action, sid: Sid, reply: Reply)
    requires Indexed(st) && Enabled(st, a) && !IsSystemSid(sid)
    ensures Underway(Step(st, a), sid, reply) + AnsweredBy(st, a, sid, reply)
            == Underway(st, sid, reply) + GivenBy(st, a, sid, reply)
  {
    match a
    case Accept(x, busy) => AcceptReplies(st, x, busy, sid, reply);
    case Read(x, got, decoded) => ReadReplies(st, x, got, decoded, sid, reply);
    case Write(x, put, decoded) => WriteReplies(st, x, put, decoded, sid, reply);
    case Respond => RespondReplies(st, sid, reply);
    case Run(x, i, v) => RunReplies(st, x, i, v, sid, reply);
    case Inject(response) => CountSnoc(st.responses, response, Response(sid, reply));
  }

  ghost function GivenTimes(states: seq<State>, actions: seq<Action>, j: nat, sid: Sid, reply: Reply): nat
    requires IsRun(states, actions) && j <= |actions|
  {
    if j == 0 then 0
    else GivenTimes(states, actions, j - 1, sid, reply) + GivenBy(states[j - 1], actions[j - 1], sid, reply)
  }

  ghost function AnsweredTimes(states: seq<State>, actions: seq<Action>, j: nat, sid: Sid, reply: Reply): nat
    requires IsRun(states, actions) && j <= |actions|
  {
    if j == 0 then 0
    else AnsweredTimes(states, actions, j - 1, sid, reply) + AnsweredBy(states[j - 1], actions[j - 1], sid, reply)
  }

  /** In every run, for every reply: as often as a session's calls have given it, it has been answered,
      or waits in the response queue, or one of its tasks is still to push it. */
  lemma {:induction false} RepliesAreAnswered(states: seq<State>, actions: seq<Action>, j: nat, sid: Sid, reply: Reply)
    requires IsRun(states, actions) && j <= |actions| && !IsSystemSid(sid)
    ensures GivenTimes(states, actions, j, sid, reply)
            == AnsweredTimes(states, actions, j, sid, reply) + Underway(states[j], sid, reply)
  {
    if j > 0 {
      RepliesAreAnswered(states, actions, j - 1, sid, reply);
      StepReplies(states[j - 1], actions[j - 1], sid, reply);
    }
  }
}
