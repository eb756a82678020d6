/** What every reachable state guarantees about each single session: who may still touch it,
    in which order its handler is called, and why it cannot be forgotten. */
module SessionControl {
  import opened SessionProtocol

  // ----- classification of tasks -----

  /** The task still dereferences the session pointer. */
  predicate Touches(t: Task) { !t.Push? }

  predicate Terminal(t: Task) { t.Error? || t.Timeout? || t.LastPush? || t.Close? }

  /** A start or worker task that has not yet cleared the running flag. */
  predicate Busy(t: Task) { Touches(t) && !Terminal(t) }

  predicate Starting(t: Task) { t.Start? || t.StartStatus? }

  /** The task will still push a response that onResponse will not ignore. */
  predicate Replies(t: Task) { Busy(t) || t.Push? }

  // ----- the handler's protocol -----

  /** Where a handler stands after a sequence of calls.  Bad means the order
      start? handle* (error | timeout)? close, with no handle after start or handle
      returned non-zero, has been violated. */
  datatype Phase = Fresh | Open | Shut | Failed | Closed | Bad

  function After(p: Phase, call: Call): Phase {
    match call
    case StartCall(ret) => if p != Fresh then Bad else if ret == 0 then Open else Shut
    case HandleCall(ret) => if p != Open then Bad else if ret == 0 then Open else Shut
    case ErrorCall => if p == Fresh || p == Open || p == Shut then Failed else Bad
    case TimeoutCall => if p == Fresh || p == Open || p == Shut then Failed else Bad
    case CloseCall => if p == Closed || p == Bad then Bad else Closed
  }

  function PhaseOf(calls: seq<Call>): Phase {
    if calls == [] then Fresh else After(PhaseOf(calls[..|calls| - 1]), calls[|calls| - 1])
  }

  lemma PhaseStep(calls: seq<Call>, call: Call)
    ensures PhaseOf(calls + [call]) == After(PhaseOf(calls), call)
  {
  }

  predicate Before(p: Phase) { p == Fresh || p == Open || p == Shut }

  // ----- the invariant of one session -----

  ghost predicate Owed(c: Cell, queued: bool) {
    queued || exists i :: 0 <= i < |c.tasks| && Replies(c.tasks[i])
  }

  ghost predicate OneToucher(c: Cell) {
    forall i, j :: 0 <= i < j < |c.tasks| ==> !(Touches(c.tasks[i]) && Touches(c.tasks[j]))
  }

  /** Which tasks go with which state of the session. */
  ghost predicate TasksFit(c: Cell, queued: bool) {
    && (forall i :: 0 <= i < |c.tasks| && Busy(c.tasks[i]) ==> c.alive && c.managed && c.running)
    && (forall i :: 0 <= i < |c.tasks| && Terminal(c.tasks[i]) ==> c.alive && !c.managed && !c.running)
    && (forall i :: 0 <= i < |c.tasks| && Starting(c.tasks[i]) ==> !c.reading && !queued && |c.tasks| == 1)
    && (c.running ==> exists i :: 0 <= i < |c.tasks| && Busy(c.tasks[i]))
    && (c.alive && !c.managed ==> exists i :: 0 <= i < |c.tasks| && Terminal(c.tasks[i]))
  }

  ghost predicate EventsFit(c: Cell) {
    && (c.managed ==> c.alive)
    && (!c.managed ==> !c.readReg && !c.writeReg && c.outList == [])
    && (c.managed ==> (c.writing <==> c.writeReg) && (c.readReg ==> c.reading))
    && (c.managed && c.reading && !c.readReg ==> c.status != Normal)
  }

  /** Nobody forgets a managed session: a response from it is on its way, or it waits for
      input, or it waits to be told that its output can be written. */
  ghost predicate Attended(c: Cell, queued: bool) {
    c.managed ==> Owed(c, queued) || (c.status == Normal && c.readReg) || (c.status == Exit && c.writeReg)
  }

  /** Nor is its output or an unexamined request left lying. */
  ghost predicate NothingStuck(c: Cell, queued: bool) {
    && (c.managed && c.outList != [] ==> c.writeReg || Owed(c, queued))
    && (c.managed && c.unread && c.status == Normal ==> c.writeReg || Owed(c, queued))
  }

  ghost predicate PhaseFits(c: Cell) {
    var p := PhaseOf(c.calls);
    && p != Bad
    && (c.alive ==> p != Closed)
    && (c.managed ==> Before(p))
    && (c.managed && !c.running && c.status == Normal ==> p == Open)
    && forall i :: 0 <= i < |c.tasks| ==> TaskPhase(c, c.tasks[i], p)
  }

  predicate TaskPhase(c: Cell, t: Task, p: Phase) {
    match t
    case Start => p == Fresh
    case StartStatus(status, _) => p != Fresh && (status == Normal ==> p == Open)
    case Work => p == Open
    case WorkStatus(_) => p == Shut
    case Clear(_) => c.status == Normal ==> p == Open
    case Push(_) => true
    case Error => Before(p)
    case Timeout => Before(p)
    case LastPush(_) => p == Failed
    case Close => Before(p) || p == Failed
  }

  ghost predicate CellOk(c: Cell, queued: bool) {
    && OneToucher(c)
    && TasksFit(c, queued)
    && EventsFit(c)
    && Attended(c, queued)
    && NothingStuck(c, queued)
    && PhaseFits(c)
  }

  // ----- each operation on a cell keeps the invariant -----

  /** Tasks appended at the end do not disturb what is owed. */
  lemma AppendKeepsOwed(c: Cell, c': Cell, t: Task, queued: bool)
    requires c'.tasks == c.tasks + [t]
    ensures Owed(c, queued) ==> Owed(c', queued)
    ensures Replies(t) ==> Owed(c', queued)
  {
    if Owed(c, queued) && !queued {
      var i :| 0 <= i < |c.tasks| && Replies(c.tasks[i]);
      assert c'.tasks[i] == c.tasks[i];
    }
    assert c'.tasks[|c.tasks|] == t;
  }

  /** Queueing a message at a session. */
  lemma QueueOk(c: Cell, queued: bool, m: nat)
    requires CellOk(c, queued) && c.managed
    ensures CellOk(AddWrite(c.(outList := c.outList + [m])), queued)
  {
  }

  /** A close request for a session. */
  lemma CloseOk(c: Cell, queued: bool)
    requires CellOk(c, queued) && c.managed
    ensures CellOk(AddWrite(c.(status := Exit)), queued)
  {
  }

  /** The same but for the status and the events. */
  predicate SameButEvents(c: Cell, c': Cell) {
    && c'.alive == c.alive && c'.managed == c.managed && c'.running == c.running && c'.unread == c.unread
    && c'.outList == c.outList && c'.tasks == c.tasks && c'.calls == c.calls
  }

  lemma AnsweredFields(c: Cell)
    requires EventsFit(c) && c.managed
    ensures var c' := Answered(c);
            && SameButEvents(c, c') && EventsFit(c') && c'.writeReg && c'.status != WouldExit
            && (c'.status == Normal ==> c'.readReg && c.status == Normal)
  {
  }

  /** A session that waits for its events needs no response to be owed. */
  lemma WaitingOk(c: Cell, c': Cell, queued: bool)
    requires CellOk(c, true) && c.managed
    requires SameButEvents(c, c') && EventsFit(c') && c'.writeReg && c'.status != WouldExit
    requires c'.status == Normal ==> c'.readReg && c.status == Normal
    ensures CellOk(c', queued)
  {
  }

  /** onResponse takes a response of the session off the queue; afterwards there may be none left. */
  lemma AnsweredOk(c: Cell, queued: bool)
    requires CellOk(c, true) && c.managed
    ensures CellOk(Answered(c), queued)
  {
    AnsweredFields(c);
    WaitingOk(c, Answered(c), queued);
  }

  lemma UnmanagedOk(c: Cell, queued: bool, queued': bool)
    requires CellOk(c, queued) && !c.managed
    ensures CellOk(c, queued')
  {
  }

  /** A session the loop may work on: managed and with no task that touches it. */
  ghost predicate Idle(c: Cell) {
    && c.alive && c.managed && !c.running
    && (forall i :: 0 <= i < |c.tasks| ==> c.tasks[i].Push?)
    && (c.writing <==> c.writeReg) && (c.readReg ==> c.reading)
    && (c.reading && !c.readReg ==> c.status != Normal)
    && Before(PhaseOf(c.calls))
    && (c.status == Normal ==> PhaseOf(c.calls) == Open)
  }

  lemma IdleFromOk(c: Cell, queued: bool)
    requires CellOk(c, queued) && c.managed && !c.running
    ensures Idle(c)
  {
  }

  lemma RetireOk(c: Cell, queued: bool, t: Task)
    requires Idle(c) && c.outList == [] && (t.Error? || t.Timeout? || t.Close?)
    ensures CellOk(Retire(c, t), queued)
  {
    var c' := Retire(c, t);
    assert c'.tasks[|c.tasks|] == t;
    assert forall i :: 0 <= i < |c.tasks| ==> c'.tasks[i] == c.tasks[i];
    assert Terminal(c'.tasks[|c.tasks|]);
  }

  /** Decoding at an idle session: afterwards the rest of the input is examined or a worker owes a response. */
  lemma DecodeOk(c: Cell, queued: bool, decoded: bool)
    requires Idle(c)
    requires Owed(c, queued) || (c.status == Normal && c.readReg) || (c.status == Exit && c.writeReg)
    requires c.outList != [] ==> c.writeReg || Owed(c, queued)
    ensures CellOk(Decode(c, decoded), queued)
  {
    var c' := Decode(c, decoded);
    if decoded && c.status == Normal {
      assert c' == c.(running := true, unread := true, tasks := c.tasks + [Work]);
      AppendKeepsOwed(c, c', Work, queued);
      assert c'.tasks[|c.tasks|] == Work && Busy(c'.tasks[|c.tasks|]);
      assert forall i :: 0 <= i < |c.tasks| ==> c'.tasks[i] == c.tasks[i];
      assert TaskPhase(c', Work, PhaseOf(c.calls));
    } else {
      assert c' == c.(unread := false);
      assert Owed(c', queued) == Owed(c, queued);
    }
  }

  /** The same when the read event is about to be added again, as in onRead. */
  lemma DecodeThenReadOk(c: Cell, queued: bool, decoded: bool)
    requires Idle(c) && !c.reading
    requires c.status == Normal || Owed(c, queued) || (c.status == Exit && c.writeReg)
    requires c.outList != [] ==> c.writeReg || Owed(c, queued)
    ensures CellOk(AddRead(Decode(c, decoded)), queued)
  {
    var c0 := AddRead(c);
    assert Idle(c0);
    assert Owed(c0, queued) == Owed(c, queued);
    DecodeOk(c0, queued, decoded);
    assert AddRead(Decode(c, decoded)) == Decode(c0, decoded);
  }

  /** onRead up to what it does to the cell: the read event has fired and is no longer registered. */
  lemma ReadOk(c: Cell, queued: bool, got: ReadOutcome, decoded: bool)
    requires CellOk(c, queued) && c.readReg
    ensures var c0 := c.(reading := false, readReg := false);
            && c.managed
            && (got.Received? ==>
                  var c1 := c0.(unread := true);
                  CellOk(AddRead(if c1.running then c1 else Decode(c1, decoded)), queued))
            && (got.ReadAgain? ==> CellOk(AddRead(c0), queued))
            && (c.running ==> CellOk(c0, queued))
            && (!c.running ==> Idle(c0))
  {
    var c0 := c.(reading := false, readReg := false);
    assert c0.tasks == c.tasks && c0.calls == c.calls;
    if c.running {
      RunningIsOwed(c, queued);
      forall x: Cell | x == c0 || x == AddRead(c0) || x == AddRead(c0.(unread := true))
        ensures CellOk(x, queued)
      {
        RunningFrame(c, x, queued);
      }
    } else {
      IdleFromOk(c, queued);
      var c1 := c0.(unread := true);
      assert Owed(c1, queued) == Owed(c, queued);
      DecodeThenReadOk(c1, queued, decoded);
      assert AddRead(c0) == c;
    }
  }

  lemma RunningIsOwed(c: Cell, queued: bool)
    requires CellOk(c, queued) && c.running
    ensures Owed(c, queued) && c.managed
    ensures exists i :: 0 <= i < |c.tasks| && Busy(c.tasks[i])
  {
  }

  /** While a worker is busy with the session the loop may drop its events and change its input and output. */
  lemma RunningFrame(c: Cell, x: Cell, queued: bool)
    requires CellOk(c, queued) && c.running
    requires x == c.(reading := x.reading, writing := x.writing, readReg := x.readReg, writeReg := x.writeReg,
                     unread := x.unread, outList := x.outList)
    requires (x.writing <==> x.writeReg)
        && (x.reading == x.readReg || (x.reading == c.reading && x.readReg == c.readReg))
    requires !c.reading ==> !x.reading
    ensures CellOk(x, queued)
  {
  }

  /** onWrite when output remains or the socket is not ready: the event goes back, then the input is looked at. */
  lemma WriteOk(c: Cell, queued: bool, outList: seq<nat>, again: bool, decoded: bool)
    requires CellOk(c, queued) && c.writeReg
    requires outList != [] ==> again
    ensures c.managed
    ensures var c0 := c.(writing := false, writeReg := false, outList := outList);
            CellOk(AfterWrite(if again then AddWrite(c0) else c0, decoded), queued)
  {
    var c0 := c.(writing := false, writeReg := false, outList := outList);
    var c1 := if again then AddWrite(c0) else c0;
    if c.running {
      RunningFrame(c, c1, queued);
    } else {
      IdleFromOk(c, queued);
      assert Idle(c1);
      assert Owed(c1, queued) == Owed(c, queued);
      if outList == [] && c.status == Exit {
        RetireOk(c1, queued, Close);
      } else {
        DecodeOk(c1, queued, decoded);
      }
    }
  }

  lemma WriteDropOk(c: Cell, queued: bool)
    requires CellOk(c, queued) && c.writeReg
    ensures var c0 := c.(writing := false, writeReg := false);
            c.managed && (c.running ==> CellOk(c0, queued)) && (!c.running ==> Idle(c0))
  {
  }

  lemma AcceptOk(m: nat)
    ensures CellOk(FRESH.(running := true, tasks := [Start]), false)
    ensures CellOk(AddWrite(FRESH.(status := Exit, outList := [m])), false)
  {
    var c := FRESH.(running := true, tasks := [Start]);
    assert c.tasks[0] == Start && Busy(c.tasks[0]) && Replies(c.tasks[0]);
  }

  predicate PushesReply(t: Task) { t.Push? || t.LastPush? }

  /** Removing a finished task moves the later ones down by one. */
  lemma FinishTasks(c: Cell, i: nat)
    requires i < |c.tasks|
    ensures |Finish(c, i).tasks| == |c.tasks| - 1
    ensures forall j :: 0 <= j < |c.tasks| - 1 ==> Finish(c, i).tasks[j] == c.tasks[if j < i then j else j + 1]
  {
  }

  lemma FinishOk(c: Cell, queued: bool, i: nat)
    requires CellOk(c, queued) && i < |c.tasks| && c.tasks[i].Push?
    ensures CellOk(Finish(c, i), true)
  {
    var c' := Finish(c, i);
    FinishTasks(c, i);
    assert OneToucher(c') by { FinishKeepsOneToucher(c, i); }
    assert TasksFit(c', true) by { FinishKeepsTasksFit(c, queued, i); }
    forall j | 0 <= j < |c'.tasks| ensures TaskPhase(c', c'.tasks[j], PhaseOf(c'.calls)) {
      assert TaskPhase(c, c.tasks[if j < i then j else j + 1], PhaseOf(c.calls));
    }
  }

  lemma FinishKeepsOneToucher(c: Cell, i: nat)
    requires OneToucher(c) && i < |c.tasks|
    ensures OneToucher(Finish(c, i))
  {
  }

  lemma FinishKeepsTasksFit(c: Cell, queued: bool, i: nat)
    requires TasksFit(c, queued) && i < |c.tasks| && c.tasks[i].Push?
    ensures TasksFit(Finish(c, i), true)
  {
    var c' := Finish(c, i);
    FinishTasks(c, i);
    assert forall j :: 0 <= j < |c'.tasks| ==> c'.tasks[j] in c.tasks;
    forall j | 0 <= j < |c'.tasks| ensures !Starting(c'.tasks[j]) {
      assert |c'.tasks| >= 1;
      assert !Starting(c.tasks[if j < i then j else j + 1]);
    }
    if c.running {
      var j :| 0 <= j < |c.tasks| && Busy(c.tasks[j]);
      assert Busy(c'.tasks[if j < i then j else j - 1]);
    }
    if c.alive && !c.managed {
      var j :| 0 <= j < |c.tasks| && Terminal(c.tasks[j]);
      assert Terminal(c'.tasks[if j < i then j else j - 1]);
    }
  }

  /** How a session's fields and its handler's phase fit the one task that touches it. */
  ghost predicate FieldsFit(c: Cell, queued: bool, t: Task, p: Phase, alone: bool) {
    && c.alive && Touches(t)
    && (Starting(t) ==> !c.reading && !queued && alone)
    && p != Bad && p != Closed && TaskPhase(c, t, p)
    && (if Terminal(t) then !c.managed && !c.running else c.managed && c.running && Before(p))
    && EventsFit(c)
  }

  ghost predicate SoleOk(c: Cell, queued: bool, i: nat) {
    && i < |c.tasks|
    && (forall j :: 0 <= j < |c.tasks| && j != i ==> c.tasks[j].Push?)
    && FieldsFit(c, queued, c.tasks[i], PhaseOf(c.calls), |c.tasks| == 1)
  }

  lemma SoleToOk(c: Cell, queued: bool, i: nat)
    requires SoleOk(c, queued, i)
    ensures CellOk(c, queued)
  {
  }

  lemma OkToSole(c: Cell, queued: bool, i: nat)
    requires CellOk(c, queued) && i < |c.tasks| && Touches(c.tasks[i])
    ensures SoleOk(c, queued, i)
  {
  }

  /** A response that gets queued only matters to a session that is starting. */
  lemma QueueingOk(c: Cell, queued: bool)
    requires CellOk(c, queued) && (forall i :: 0 <= i < |c.tasks| ==> !Starting(c.tasks[i]))
    ensures CellOk(c, true)
  {
  }

  function PhaseAfter(t: Task, v: Verdict, p: Phase): Phase {
    match t
    case Start => After(p, StartCall(v.ret))
    case Work => After(p, HandleCall(v.ret))
    case Error => After(p, ErrorCall)
    case Timeout => After(p, TimeoutCall)
    case Close => After(p, CloseCall)
    case _ => p
  }

  lemma EffectPhase(c: Cell, t: Task, v: Verdict)
    ensures PhaseOf(Effect(c, t, v).calls) == PhaseAfter(t, v, PhaseOf(c.calls))
  {
    match t
    case Start => PhaseStep(c.calls, StartCall(v.ret));
    case Work => PhaseStep(c.calls, HandleCall(v.ret));
    case Error => PhaseStep(c.calls, ErrorCall);
    case Timeout => PhaseStep(c.calls, TimeoutCall);
    case Close => PhaseStep(c.calls, CloseCall);
    case _ =>
  }

  /** What the step of the only task that touches the session does to the fields. */
  lemma EffectFits(c: Cell, queued: bool, t: Task, v: Verdict, p: Phase, alone: bool)
    requires FieldsFit(c, queued, t, p, alone) && !t.Close? && !t.Clear?
    ensures FieldsFit(Effect(c, t, v), queued, Rest(t, v), PhaseAfter(t, v, p), alone)
  {
  }

  lemma DeletedOk(c: Cell, queued: bool)
    requires !c.alive && !c.managed && !c.running && EventsFit(c)
    requires (forall j :: 0 <= j < |c.tasks| ==> c.tasks[j].Push?) && PhaseOf(c.calls) == Closed
    ensures CellOk(c, queued)
  {
  }

  lemma CloseStep(c: Cell, queued: bool, i: nat, v: Verdict)
    requires SoleOk(c, queued, i) && c.tasks[i].Close?
    ensures CellOk(TaskStep(c, i, v), queued)
  {
    var c' := TaskStep(c, i, v);
    PhaseStep(c.calls, CloseCall);
    FinishTasks(Effect(c, Close, v), i);
    DeletedOk(c', queued);
  }

  /** The worker lets go of the session: the running flag goes, the push remains. */
  lemma ClearOk(c: Cell, queued: bool, i: nat, v: Verdict)
    requires SoleOk(c, queued, i) && c.tasks[i].Clear?
    ensures CellOk(TaskStep(c, i, v), queued)
  {
    var c' := TaskStep(c, i, v);
    assert c'.tasks[i].Push?;
    assert forall j :: 0 <= j < |c'.tasks| ==> c'.tasks[j].Push?;
  }

  /** A start, worker, error or timeout task takes any other step. */
  lemma TouchOk(c: Cell, queued: bool, i: nat, v: Verdict)
    requires SoleOk(c, queued, i) && !c.tasks[i].Close? && !c.tasks[i].Clear?
    ensures CellOk(TaskStep(c, i, v), queued)
  {
    var t := c.tasks[i];
    var c' := TaskStep(c, i, v);
    EffectPhase(c, t, v);
    EffectFits(c, queued, t, v, PhaseOf(c.calls), |c.tasks| == 1);
    assert forall j :: 0 <= j < |c.tasks| && j != i ==> c'.tasks[j] == c.tasks[j];
    SoleToOk(c', queued, i);
  }

  lemma NoneStarting(c: Cell, i: nat)
    requires OneToucher(c) && i < |c.tasks| && Terminal(c.tasks[i])
    ensures forall j :: 0 <= j < |c.tasks| ==> !Starting(c.tasks[j])
  {
  }

  /** A worker's step keeps the invariant of its session; pushing makes a response queued. */
  lemma TaskOk(c: Cell, queued: bool, i: nat, v: Verdict)
    requires CellOk(c, queued) && i < |c.tasks|
    ensures CellOk(TaskStep(c, i, v), queued || PushesReply(c.tasks[i]))
  {
    var t := c.tasks[i];
    if t.Push? {
      FinishOk(c, queued, i);
    } else if t.Close? {
      OkToSole(c, queued, i);
      CloseStep(c, queued, i, v);
    } else {
      OkToSole(c, queued, i);
      if t.Clear? {
        ClearOk(c, queued, i, v);
      } else {
        TouchOk(c, queued, i, v);
      }
      if t.LastPush? {
        NoneStarting(TaskStep(c, i, v), i);
        QueueingOk(TaskStep(c, i, v), queued);
      }
    }
  }
}
