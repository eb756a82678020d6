/** The half-sync/half-async session protocol: its state and its steps.

    The event loop (one thread) runs the callbacks onAccept, onRead, onWrite and onResponse;
    worker threads run the tasks start, worker, error, timeout and myclose.  A callback is one
    atomic step.  A task is split wherever another thread may observe it half done: after the
    handler call, after the status write, after clearing the running flag and after the response
    is pushed.

    Everything that belongs to one session identifier is kept in one Cell: the fields of the
    session object, its membership in the session manager, its registrations with the event
    library, the tasks that carry its pointer, and the history of its handler's calls.
 */
module SessionProtocol {

  datatype Sid = Sid(key: nat, generation: nat)

  const TIMER_SID := Sid(0, 65535)
  const PUSH_SID := Sid(1, 65535)
  const FIRST_SESSION_KEY := 1024

  predicate IsSystemSid(sid: Sid) {
    sid == TIMER_SID || sid == PUSH_SID
  }

  // ----- sessions, messages, responses -----

  datatype Status = Normal | WouldExit | Exit

  datatype Call = StartCall(ret: int) | HandleCall(ret: int) | ErrorCall | TimeoutCall | CloseCall

  /** A message as the handler builds it: its addressees, and whether it has any bytes. */
  datatype Draft = Draft(toList: seq<Sid>, nonEmpty: bool)

  /** What a handler call leaves in its response. */
  datatype Reply = Reply(drafts: seq<Draft>, toClose: seq<Sid>)

  datatype Response = Response(from: Sid, body: Reply)

  /** A message inside the event loop.  `addressed` is the recipient list it arrived with;
      `refused` is the session of a refusal message, which is queued without an addressee. */
  datatype Message = Message(
    toList: seq<Sid>, success: seq<Sid>, failure: seq<Sid>,
    addressed: seq<Sid>, refused: seq<Sid>)

  /** A task and how far it has got. */
  datatype Task =
    | Start
    | StartStatus(status: Status, reply: Reply) // start: about to write the status
    | Work
    | WorkStatus(reply: Reply)                  // worker: about to write eWouldExit
    | Clear(reply: Reply)                       // start, worker: about to clear mRunning
    | Push(reply: Reply)                        // start, worker: only the push is left
    | Error
    | Timeout
    | LastPush(reply: Reply)                    // error, timeout: about to push
    | Close                                     // about to call close() and delete the session

  datatype Cell = Cell(
    alive: bool,                      // the session object is allocated
    managed: bool,                    // it is in the session manager
    status: Status, running: bool, reading: bool, writing: bool,
    readReg: bool, writeReg: bool,    // its events are registered with the event library
    unread: bool,                     // its input may hold a request the decoder has not seen
    outList: seq<nat>,                // messages to send, by index into State.messages
    tasks: seq<Task>,
    calls: seq<Call>)

  datatype State = State(
    cells: map<Sid, Cell>,
    messages: seq<Message>,
    completed: seq<nat>,              // everything ever handed to completion, in order
    responses: seq<Response>)

  const EMPTY_REPLY := Reply([], [])
  const INIT := State(map[], [], [], [])

  predicate Managed(st: State, sid: Sid) {
    sid in st.cells && st.cells[sid].managed
  }

  /** Every queued message exists. */
  predicate Indexed(st: State) {
    forall sid :: sid in st.cells ==> InRange(st.cells[sid].outList, |st.messages|)
  }

  predicate InRange(list: seq<nat>, n: nat) {
    forall i :: 0 <= i < |list| ==> list[i] < n
  }

  // ----- recipient lists -----

  /** The list without its first x, if it has one: SP_SidList::find followed by take. */
  function RemoveFirst(list: seq<Sid>, x: Sid): seq<Sid> {
    if list == [] then []
    else if list[0] == x then list[1..]
    else [list[0]] + RemoveFirst(list[1..], x)
  }

  function Reverse(list: seq<Sid>): seq<Sid> {
    if list == [] then [] else Reverse(list[1..]) + [list[0]]
  }

  /** The message after one of its copies has been sent to sid, or has failed there. */
  function Settled(msg: Message, sid: Sid, sent: bool): Message {
    var toList := RemoveFirst(msg.toList, sid);
    if sent then msg.(toList := toList, success := msg.success + [sid])
    else msg.(toList := toList, failure := msg.failure + [sid])
  }

  /** One queued copy of message m is done with at session sid. */
  function Settle(st: State, sid: Sid, m: nat, sent: bool): (r: State)
    requires m < |st.messages|
    ensures r.cells == st.cells && |r.messages| == |st.messages| && r.responses == st.responses
  {
    var msg := Settled(st.messages[m], sid, sent);
    st.(messages := st.messages[m := msg],
        completed := if msg.toList == [] then st.completed + [m] else st.completed)
  }

  function SettleHead(st: State, sid: Sid): (r: State)
    requires Indexed(st) && sid in st.cells && st.cells[sid].outList != []
    ensures Indexed(r) && |r.messages| == |st.messages|
    ensures r.cells == st.cells[sid := st.cells[sid].(outList := st.cells[sid].outList[1..])]
  {
    var c := st.cells[sid];
    Settle(st.(cells := st.cells[sid := c.(outList := c.outList[1..])]), sid, c.outList[0], true)
  }

  function SettleLast(st: State, sid: Sid): (r: State)
    requires Indexed(st) && sid in st.cells && st.cells[sid].outList != []
    ensures Indexed(r) && |r.messages| == |st.messages|
    ensures r.cells == st.cells[sid := st.cells[sid].(outList := st.cells[sid].outList[..|st.cells[sid].outList| - 1])]
  {
    var c := st.cells[sid];
    var n := |c.outList| - 1;
    Settle(st.(cells := st.cells[sid := c.(outList := c.outList[..n])]), sid, c.outList[n], false)
  }

  lemma SameCell(cells: map<Sid, Cell>, sid: Sid)
    requires sid in cells
    ensures cells[sid := cells[sid]] == cells
  {
  }

  lemma OverwriteCell(cells: map<Sid, Cell>, sid: Sid, c1: Cell, c2: Cell)
    ensures cells[sid := c1][sid := c2] == cells[sid := c2]
  {
  }

  /** transmit has sent the first k queued messages completely. */
  function Transmit(st: State, sid: Sid, k: nat): (r: State)
    requires Indexed(st) && sid in st.cells && k <= |st.cells[sid].outList|
    ensures Indexed(r) && |r.messages| == |st.messages| && r.responses == st.responses
    ensures r.cells == st.cells[sid := st.cells[sid].(outList := st.cells[sid].outList[k..])]
    decreases k
  {
    var c := st.cells[sid];
    if k == 0 then
      assert c.(outList := c.outList[0..]) == c by { assert c.outList[0..] == c.outList; }
      SameCell(st.cells, sid); st
    else
      var st1 := SettleHead(st, sid);
      assert c.outList[1..][k - 1..] == c.outList[k..];
      OverwriteCell(st.cells, sid, st1.cells[sid], c.(outList := c.outList[k..]));
      Transmit(st1, sid, k - 1)
  }

  /** doError, doTimeout: every queued message fails at this session, last one first. */
  function FailAll(st: State, sid: Sid): (r: State)
    requires Indexed(st) && sid in st.cells
    ensures Indexed(r) && |r.messages| == |st.messages| && r.responses == st.responses
    ensures r.cells == st.cells[sid := st.cells[sid].(outList := [])]
    decreases |st.cells[sid].outList|
  {
    if st.cells[sid].outList == [] then SameCell(st.cells, sid); st
    else
      var st1 := SettleLast(st, sid);
      OverwriteCell(st.cells, sid, st1.cells[sid], st.cells[sid].(outList := []));
      FailAll(st1, sid)
  }

  // ----- events and tasks of one session -----

  function AddWrite(c: Cell): (r: Cell)
    ensures r.outList == c.outList && r.tasks == c.tasks && r.status == c.status
  {
    if c.writing then c else c.(writing := true, writeReg := true)
  }

  function AddRead(c: Cell): (r: Cell)
    ensures r.outList == c.outList && r.tasks == c.tasks && r.status == c.status
  {
    if c.reading then c else c.(reading := true, readReg := true)
  }

  /** doWork: hand a decoded request to a worker, or discard the input. */
  function DoWork(c: Cell): (r: Cell)
    ensures r.outList == c.outList && r.status == c.status && (c.status != Normal ==> r.tasks == c.tasks)
  {
    if c.status == Normal then c.(running := true, unread := true, tasks := c.tasks + [Work])
    else c.(unread := false)
  }

  /** The decoder looks at the input; `decoded` is whether it found a whole request. */
  function Decode(c: Cell, decoded: bool): (r: Cell)
    ensures r.outList == c.outList && r.status == c.status && (c.status != Normal ==> r.tasks == c.tasks)
  {
    if decoded then DoWork(c) else c.(unread := false)
  }

  function Retire(c: Cell, task: Task): (r: Cell)
    ensures r.outList == c.outList && r.status == c.status && r.tasks == c.tasks + [task]
  {
    c.(readReg := false, writeReg := false, managed := false, tasks := c.tasks + [task])
  }

  function Update(st: State, sid: Sid, c: Cell): State {
    st.(cells := st.cells[sid := c])
  }

  /** doError, doTimeout: the events go, the queued messages fail, the session leaves the manager
      and the last task of its life is queued. */
  function DoFail(st: State, sid: Sid, task: Task): (r: State)
    requires Indexed(st) && sid in st.cells
    ensures Indexed(r) && |r.messages| == |st.messages| && r.responses == st.responses
    ensures r.cells == st.cells[sid := Retire(st.cells[sid].(outList := []), task)]
  {
    var c0 := st.cells[sid].(readReg := false, writeReg := false);
    var st1 := FailAll(Update(st, sid, c0), sid);
    var c1 := st1.cells[sid].(managed := false, tasks := st1.cells[sid].tasks + [task]);
    OverwriteCell(st.cells, sid, c0, c0.(outList := []));
    OverwriteCell(st.cells, sid, c0.(outList := []), c1);
    Update(st1, sid, c1)
  }

  // ----- callbacks -----

  const FRESH := Cell(true, true, Normal, false, false, false, false, false, false, [], [], [])

  function OnAccept(st: State, sid: Sid, busy: bool): (r: State)
    requires Indexed(st) && sid !in st.cells
    ensures Indexed(r) && r.responses == st.responses
    ensures r.cells == st.cells[sid := if busy then AddWrite(FRESH.(status := Exit, outList := [|st.messages|]))
                                       else FRESH.(running := true, tasks := [Start])]
  {
    if busy then
      var m := |st.messages|;
      st.(cells := st.cells[sid := AddWrite(FRESH.(status := Exit, outList := [m]))],
          messages := st.messages + [Message([], [], [], [], [sid])])
    else
      Update(st, sid, FRESH.(running := true, tasks := [Start]))
  }

  /** What the event library and the socket report to a callback. */
  datatype ReadOutcome = Received | ReadAgain | ReadFailed | ReadTimedOut
  datatype WriteOutcome = Sent(messages: nat) | WriteAgain | WriteFailed | WriteTimedOut

  function OnRead(st: State, sid: Sid, outcome: ReadOutcome, decoded: bool): (r: State)
    requires Indexed(st) && sid in st.cells
    ensures Indexed(r) && r.responses == st.responses
  {
    var c := st.cells[sid].(reading := false, readReg := false);
    match outcome
    case Received =>
      var c1 := c.(unread := true);
      var c2 := if c1.running then c1 else Decode(c1, decoded);
      Update(st, sid, AddRead(c2))
    case ReadAgain => Update(st, sid, AddRead(c))
    case ReadFailed => if c.running then Update(st, sid, c) else DoFail(Update(st, sid, c), sid, Error)
    case ReadTimedOut => if c.running then Update(st, sid, c) else DoFail(Update(st, sid, c), sid, Timeout)
  }

  predicate WriteEnabled(c: Cell, outcome: WriteOutcome) {
    outcome.Sent? ==> outcome.messages <= |c.outList|
  }

  /** The part of onWrite before the exit test; the flag is the source's `0 == ret`. */
  function WriteOut(st: State, sid: Sid, outcome: WriteOutcome): (r: (State, bool))
    requires Indexed(st) && sid in st.cells && WriteEnabled(st.cells[sid], outcome)
    requires !outcome.WriteTimedOut?
    ensures Indexed(r.0) && sid in r.0.cells && r.0.responses == st.responses
  {
    var c := st.cells[sid];
    if c.outList == [] then (st, true)
    else match outcome
      case Sent(k) =>
        var st1 := Transmit(st, sid, k);
        var c1 := st1.cells[sid];
        (Update(st1, sid, if c1.outList != [] then AddWrite(c1) else c1), true)
      case WriteAgain => (Update(st, sid, AddWrite(c)), true)
      case WriteFailed => (if c.running then st else DoFail(st, sid, Error), false)
  }

  /** The part of onWrite after the output: leave, or look at pending input. */
  function AfterWrite(c: Cell, decoded: bool): (r: Cell)
    ensures r.outList == c.outList && r.status == c.status
    ensures c.status != Normal ==> r.tasks == c.tasks || r.tasks == c.tasks + [Close]
  {
    if c.outList == [] && c.status == Exit then
      if c.running then c else Retire(c, Close)
    else
      if c.running then c else Decode(c, decoded)
  }

  function OnWrite(st: State, sid: Sid, outcome: WriteOutcome, decoded: bool): (r: State)
    requires Indexed(st) && sid in st.cells && WriteEnabled(st.cells[sid], outcome)
    ensures Indexed(r) && r.responses == st.responses
  {
    var c := st.cells[sid].(writing := false, writeReg := false);
    var st1 := Update(st, sid, c);
    if outcome.WriteTimedOut? then
      if c.running then st1 else DoFail(st1, sid, Timeout)
    else
      var (st2, ok) := WriteOut(st1, sid, outcome);
      if ok then Update(st2, sid, AfterWrite(st2.cells[sid], decoded)) else st2
  }

  /** onResponse, its treatment of the session the response comes from. */
  function Answered(c: Cell): Cell {
    var c1 := if c.status == WouldExit then c.(status := Exit) else c;
    var c2 := if c1.status != Normal then c1.(readReg := false) else c1;
    AddRead(AddWrite(c2))
  }

  function AnswerSender(st: State, from: Sid): (r: State)
    requires Indexed(st)
    ensures Indexed(r) && r.messages == st.messages && r.responses == st.responses
  {
    if !IsSystemSid(from) && Managed(st, from) then Update(st, from, Answered(st.cells[from])) else st
  }

  /** Recipient i of message m gets the message queued, or is moved to the failure list. */
  function Offer(st: State, from: Sid, m: nat, i: nat): (r: State)
    requires Indexed(st) && m < |st.messages| && i < |st.messages[m].toList|
    ensures Indexed(r) && |r.messages| == |st.messages| && i <= |r.messages[m].toList|
    ensures r.responses == st.responses
  {
    var msg := st.messages[m];
    var sid := msg.toList[i];
    if Managed(st, sid) && (from == sid || st.cells[sid].status != Exit) then
      Update(st, sid, AddWrite(st.cells[sid].(outList := st.cells[sid].outList + [m])))
    else
      st.(messages := st.messages[m := msg.(toList := msg.toList[..i] + msg.toList[i + 1..],
                                            failure := msg.failure + [sid])])
  }

  /** Recipients n-1 down to 0. */
  function OfferAll(st: State, from: Sid, m: nat, n: nat): (r: State)
    requires Indexed(st) && m < |st.messages| && n <= |st.messages[m].toList|
    ensures Indexed(r) && |r.messages| == |st.messages| && r.responses == st.responses
    decreases n
  {
    if n == 0 then st else OfferAll(Offer(st, from, m, n - 1), from, m, n - 1)
  }

  function FailEmpty(msg: Message): Message {
    msg.(toList := [], failure := msg.failure + Reverse(msg.toList))
  }

  function Complete(st: State, m: nat): State
    requires m < |st.messages|
  {
    if st.messages[m].toList == [] then st.(completed := st.completed + [m]) else st
  }

  /** One message of a response. */
  function Dispatch(st: State, from: Sid, draft: Draft): (r: State)
    requires Indexed(st)
    ensures Indexed(r) && |r.messages| == |st.messages| + 1 && r.responses == st.responses
  {
    var m := |st.messages|;
    var st1 := st.(messages := st.messages + [Message(draft.toList, [], [], draft.toList, [])]);
    var st2 := if draft.nonEmpty then OfferAll(st1, from, m, |draft.toList|)
               else st1.(messages := st1.messages[m := FailEmpty(st1.messages[m])]);
    Complete(st2, m)
  }

  function DispatchAll(st: State, from: Sid, drafts: seq<Draft>): (r: State)
    requires Indexed(st)
    ensures Indexed(r) && r.responses == st.responses
    decreases |drafts|
  {
    if |drafts| == 0 then st else DispatchAll(Dispatch(st, from, drafts[0]), from, drafts[1..])
  }

  function CloseOne(st: State, sid: Sid): (r: State)
    requires Indexed(st)
    ensures Indexed(r) && r.messages == st.messages && r.completed == st.completed && r.responses == st.responses
  {
    if Managed(st, sid) then Update(st, sid, AddWrite(st.cells[sid].(status := Exit))) else st
  }

  function CloseAll(st: State, sids: seq<Sid>): (r: State)
    requires Indexed(st)
    ensures Indexed(r) && r.messages == st.messages && r.completed == st.completed && r.responses == st.responses
    decreases |sids|
  {
    if |sids| == 0 then st else CloseAll(CloseOne(st, sids[0]), sids[1..])
  }

  function OnResponse(st: State, response: Response): (r: State)
    requires Indexed(st)
    ensures Indexed(r) && r.responses == st.responses
  {
    var st1 := AnswerSender(st, response.from);
    var st2 := DispatchAll(st1, response.from, response.body.drafts);
    CloseAll(st2, response.body.toClose)
  }

  // ----- tasks -----

  /** What a handler call, and for start the channel's init, turn out to do. */
  datatype Verdict = Verdict(initOk: bool, ret: int, reply: Reply)

  function Finish(c: Cell, i: nat): Cell
    requires i < |c.tasks|
  {
    c.(tasks := c.tasks[..i] + c.tasks[i + 1..])
  }

  /** What one step of a task does to the session's fields and to its handler. */
  function Effect(c: Cell, t: Task, v: Verdict): (r: Cell)
    ensures r.tasks == c.tasks && r.outList == c.outList && r.managed == c.managed
    ensures !t.StartStatus? && !t.WorkStatus? ==> r.status == c.status
    ensures t.WorkStatus? ==> r.status == WouldExit
  {
    match t
    case Start => c.(calls := c.calls + [StartCall(v.ret)])
    case StartStatus(status, _) => c.(status := status)
    case Work => c.(calls := c.calls + [HandleCall(v.ret)])
    case WorkStatus(_) => c.(status := WouldExit)
    case Clear(_) => c.(running := false)
    case Error => c.(calls := c.calls + [ErrorCall])
    case Timeout => c.(calls := c.calls + [TimeoutCall])
    case Close => c.(calls := c.calls + [CloseCall], alive := false)
    case _ => c
  }

  /** What is left of the task after that step. */
  function Rest(t: Task, v: Verdict): Task {
    match t
    case Start => StartStatus(if v.initOk && v.ret == 0 then Normal else WouldExit,
                              if v.initOk then v.reply else EMPTY_REPLY)
    case StartStatus(_, reply) => Clear(reply)
    case Work => if v.ret != 0 then WorkStatus(v.reply) else Clear(v.reply)
    case WorkStatus(reply) => Clear(reply)
    case Clear(reply) => Push(reply)
    case Error => LastPush(v.reply)
    case Timeout => LastPush(v.reply)
    case _ => Close
  }

  function TaskStep(c: Cell, i: nat, v: Verdict): (r: Cell)
    requires i < |c.tasks|
    ensures r.outList == c.outList && r.managed == c.managed && |r.tasks| <= |c.tasks|
  {
    var t := c.tasks[i];
    var c' := Effect(c, t, v);
    if t.Push? || t.Close? then Finish(c', i) else c'.(tasks := c.tasks[i := Rest(t, v)])
  }

  function RunTask(st: State, sid: Sid, i: nat, v: Verdict): (r: State)
    requires Indexed(st) && sid in st.cells && i < |st.cells[sid].tasks|
    ensures Indexed(r)
  {
    var c := st.cells[sid];
    var st1 := Update(st, sid, TaskStep(c, i, v));
    match c.tasks[i]
    case Push(reply) => st1.(responses := st.responses + [Response(sid, reply)])
    case LastPush(reply) => st1.(responses := st.responses + [Response(sid, reply)])
    case _ => st1
  }

  // ----- the transition system -----

  datatype Action =
    | Accept(sid: Sid, busy: bool)
    | Read(sid: Sid, got: ReadOutcome, decoded: bool)
    | Write(sid: Sid, put: WriteOutcome, decoded: bool)
    | Respond                                  // the response queue calls back with its head
    | Run(sid: Sid, i: nat, verdict: Verdict)  // a worker thread takes one step
    | Inject(response: Response)               // a response that comes from no session

  predicate Enabled(st: State, a: Action) {
    match a
    case Accept(sid, _) => sid !in st.cells && FIRST_SESSION_KEY <= sid.key
    case Read(sid, _, _) => sid in st.cells && st.cells[sid].readReg
    case Write(sid, put, _) => sid in st.cells && st.cells[sid].writeReg && WriteEnabled(st.cells[sid], put)
    case Respond => st.responses != []
    case Run(sid, i, _) => sid in st.cells && i < |st.cells[sid].tasks|
    case Inject(response) => IsSystemSid(response.from)
  }

  function Step(st: State, a: Action): (r: State)
    requires Indexed(st) && Enabled(st, a)
    ensures Indexed(r)
  {
    match a
    case Accept(sid, busy) => OnAccept(st, sid, busy)
    case Read(sid, got, decoded) => OnRead(st, sid, got, decoded)
    case Write(sid, put, decoded) => OnWrite(st, sid, put, decoded)
    case Respond => OnResponse(st.(responses := st.responses[1..]), st.responses[0])
    case Run(sid, i, v) => RunTask(st, sid, i, v)
    case Inject(response) => st.(responses := st.responses + [response])
  }

  /** A run: states[0] is the initial state and each action leads from one state to the next. */
  ghost predicate IsRun(states: seq<State>, actions: seq<Action>) {
    && |states| == |actions| + 1
    && states[0] == INIT
    && forall i :: 0 <= i < |actions| ==>
         Indexed(states[i]) && Enabled(states[i], actions[i]) && states[i + 1] == Step(states[i], actions[i])
  }
}
