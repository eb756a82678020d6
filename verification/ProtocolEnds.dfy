/** From every state that can be reached, every session can still be brought to its end. */
module ProtocolEnds {
  import opened SessionProtocol
  import opened SessionControl
  import opened SessionRuns
  import opened MessageAccounting
  import opened ProtocolTheorems

  /** Steps that follow one another, from whatever state. */
  ghost predicate IsPath(states: seq<State>, actions: seq<Action>) {
    && |states| == |actions| + 1
    && forall i :: 0 <= i < |actions| ==> IsStep(states, actions, i)
  }

  ghost predicate IsStep(states: seq<State>, actions: seq<Action>, i: nat)
    requires |states| == |actions| + 1 && i < |actions|
  {
    Indexed(states[i]) && Enabled(states[i], actions[i]) && states[i + 1] == Step(states[i], actions[i])
  }

  lemma PathBehind(st: State, a: Action, states: seq<State>, actions: seq<Action>)
    requires IsPath(states, actions) && Indexed(st) && Enabled(st, a) && states[0] == Step(st, a)
    ensures IsPath([st] + states, [a] + actions)
  {
    var states', actions' := [st] + states, [a] + actions;
    forall i | 0 <= i < |actions'| ensures IsStep(states', actions', i) {
      assert states'[i + 1] == states[i];
      if i == 0 {
        assert states'[i] == st && actions'[i] == a;
      } else {
        assert IsStep(states, actions, i - 1);
        assert states'[i] == states[i - 1] && actions'[i] == actions[i - 1];
      }
    }
  }

  lemma RunGoesOn(states: seq<State>, actions: seq<Action>, states': seq<State>, actions': seq<Action>)
    requires IsRun(states, actions) && IsPath(states', actions') && states'[0] == states[|actions|]
    ensures IsRun(states + states'[1..], actions + actions')
    ensures (states + states'[1..])[|actions + actions'|] == states'[|actions'|]
  {
    var all, steps := states + states'[1..], actions + actions';
    forall i | 0 <= i < |steps|
      ensures Indexed(all[i]) && Enabled(all[i], steps[i]) && all[i + 1] == Step(all[i], steps[i])
    {
      if i < |actions| {
        assert all[i] == states[i] && all[i + 1] == states[i + 1] && steps[i] == actions[i];
      } else {
        var j := i - |actions|;
        assert IsStep(states', actions', j);
        assert all[i] == states'[j] && all[i + 1] == states'[j + 1] && steps[i] == actions'[j];
      }
    }
  }

  /** How many steps a task still takes. */
  function Weight(t: Task): nat {
    match t
    case Start => 4
    case StartStatus(_, _) => 3
    case Work => 3
    case WorkStatus(_) => 3
    case Clear(_) => 2
    case Push(_) => 1
    case Error => 3
    case Timeout => 3
    case LastPush(_) => 2
    case Close => 1
  }

  function Weights(tasks: seq<Task>): nat {
    if tasks == [] then 0 else Weight(tasks[0]) + Weights(tasks[1..])
  }

  const EASY := Verdict(true, 0, EMPTY_REPLY)

  lemma RestIsLighter(t: Task)
    requires !t.Push? && !t.Close?
    ensures Weight(Rest(t, EASY)) < Weight(t)
  {
  }

  lemma FirstWeight(tasks: seq<Task>, t: Task)
    requires tasks != []
    ensures Weights(tasks[0 := t]) == Weight(t) + Weights(tasks[1..])
  {
    assert tasks[0 := t][1..] == tasks[1..];
  }

  lemma FinishFirst(c: Cell)
    requires c.tasks != []
    ensures Finish(c, 0).tasks == c.tasks[1..]
  {
  }

  lemma FirstTasks(c: Cell, v: Verdict)
    requires c.tasks != []
    ensures var t := c.tasks[0];
            TaskStep(c, 0, v).tasks == if t.Push? || t.Close? then c.tasks[1..] else c.tasks[0 := Rest(t, v)]
  {
    FinishFirst(Effect(c, c.tasks[0], v));
  }

  /** One step of a session's first task brings its tasks nearer to their end; */
  lemma FirstTaskStep(c: Cell, v: Verdict)
    requires c.tasks != [] && v == EASY
    ensures Weights(TaskStep(c, 0, v).tasks) < Weights(c.tasks)
  {
    var t := c.tasks[0];
    FirstTasks(c, v);
    if !t.Push? && !t.Close? {
      RestIsLighter(t);
      FirstWeight(c.tasks, Rest(t, v));
    }
  }

  lemma EffectDeletes(c: Cell, t: Task, v: Verdict)
    requires c.alive
    ensures if t.Close? then Effect(c, t, v).calls == c.calls + [CloseCall] else Effect(c, t, v).alive
  {
  }

  /** and only its last one deletes it. */
  lemma OnlyCloseDeletes(c: Cell, i: nat, v: Verdict)
    requires i < |c.tasks| && c.alive
    ensures TaskStep(c, i, v).alive || TaskStep(c, i, v).calls == c.calls + [CloseCall]
  {
    EffectDeletes(c, c.tasks[i], v);
  }

  ghost predicate Deleted(c: Cell) {
    !c.alive && c.calls != [] && c.calls[|c.calls| - 1] == CloseCall
  }

  ghost predicate Ended(st: State, sid: Sid) {
    sid in st.cells && Deleted(st.cells[sid])
  }

  /** The same sessions, and none alive that was not. */
  ghost predicate NoneRevived(st: State, st': State) {
    && st'.cells.Keys == st.cells.Keys
    && forall x :: x in st.cells && st'.cells[x].alive ==> st.cells[x].alive
  }

  function Stage(c: Cell): nat {
    if c.managed then 1 else 0
  }

  /** A session is gone, or nearer to its end: it has left the manager, its tasks have less to do, or no less and
      there are fewer responses to deal with. */
  ghost predicate Nearer(c: Cell, c': Cell, before: nat, now: nat) {
    || Deleted(c')
    || (c'.alive && Stage(c') < Stage(c))
    || (c'.alive && Stage(c') == Stage(c) && Weights(c'.tasks) < Weights(c.tasks))
    || (c'.alive && Stage(c') == Stage(c) && Weights(c'.tasks) == Weights(c.tasks) && now < before)
  }

  lemma OneChanges(st: State, st': State, sid: Sid, c: Cell)
    requires sid in st.cells && st'.cells == st.cells[sid := c] && (c.alive ==> st.cells[sid].alive)
    ensures NoneRevived(st, st') && st'.cells[sid] == c
  {
  }

  lemma TaskNearer(c: Cell, before: nat, now: nat)
    requires c.alive && c.tasks != []
    ensures Nearer(c, TaskStep(c, 0, EASY), before, now)
  {
    FirstTaskStep(c, EASY);
    OnlyCloseDeletes(c, 0, EASY);
  }

  lemma TaskIsNext(st: State, sid: Sid) returns (a: Action)
    requires Controlled(st) && sid in st.cells && st.cells[sid].alive && st.cells[sid].tasks != []
    ensures Enabled(st, a) && NoneRevived(st, Step(st, a))
    ensures Nearer(st.cells[sid], Step(st, a).cells[sid], |st.responses|, |Step(st, a).responses|)
  {
    a := Run(sid, 0, EASY);
    var next := TaskStep(st.cells[sid], 0, EASY);
    RunEffect(st, sid, 0, EASY);
    TaskNearer(st.cells[sid], |st.responses|, |Step(st, a).responses|);
    OneChanges(st, Step(st, a), sid, next);
  }

  lemma ResponseIsNext(st: State, sid: Sid)
    requires Controlled(st) && sid in st.cells && st.cells[sid].alive && st.responses != []
    ensures NoneRevived(st, Step(st, Respond))
    ensures Nearer(st.cells[sid], Step(st, Respond).cells[sid], |st.responses|, |Step(st, Respond).responses|)
  {
    var st0 := st.(responses := st.responses[1..]);
    RespondIsFrame(st0, st.responses[0]);
    assert CellFrame(st.cells[sid], Step(st, Respond).cells[sid]);
    forall x | x in st.cells ensures Step(st, Respond).cells[x].alive == st.cells[x].alive {
      assert CellFrame(st0.cells[x], OnResponse(st0, st.responses[0]).cells[x]);
    }
  }

  /** A session that nothing is under way for is in the manager and waits for one of its events. */
  lemma QuietWaits(c: Cell)
    requires CellOk(c, false) && c.alive && c.tasks == []
    ensures c.managed && !c.running && (c.readReg || c.writeReg)
  {
  }

  lemma FailureIsNext(st: State, sid: Sid) returns (a: Action)
    requires Controlled(st) && sid in st.cells && st.cells[sid].alive
    requires st.cells[sid].tasks == [] && st.responses == []
    ensures Enabled(st, a) && NoneRevived(st, Step(st, a))
    ensures Nearer(st.cells[sid], Step(st, a).cells[sid], |st.responses|, |Step(st, a).responses|)
  {
    var c := st.cells[sid];
    assert !Queued(st.responses, sid);
    QuietWaits(c);
    if c.readReg {
      a := Read(sid, ReadFailed, false);
      ReadEffect(st, sid, ReadFailed, false);
      OneChanges(st, Step(st, a), sid, ReadCell(c, ReadFailed, false));
    } else {
      a := Write(sid, WriteTimedOut, false);
      WriteEffect(st, sid, WriteTimedOut, false);
      OneChanges(st, Step(st, a), sid, WriteCell(c, WriteTimedOut, false));
    }
  }

  /** What is done next to bring a session to its end. */
  lemma NextStep(st: State, sid: Sid) returns (a: Action)
    requires Controlled(st) && sid in st.cells && st.cells[sid].alive
    ensures Enabled(st, a) && Controlled(Step(st, a)) && NoneRevived(st, Step(st, a))
    ensures Nearer(st.cells[sid], Step(st, a).cells[sid], |st.responses|, |Step(st, a).responses|)
  {
    if st.cells[sid].tasks != [] {
      a := TaskIsNext(st, sid);
    } else if st.responses != [] {
      a := Respond;
      ResponseIsNext(st, sid);
    } else {
      a := FailureIsNext(st, sid);
    }
    StepKeeps(st, a);
  }

  /** Some steps lead from st to a state in which the session has ended and no other has been revived. */
  ghost predicate CanEnd(st: State, sid: Sid) {
    exists states, actions :: IsPath(states, actions) && EndsIt(st, states, sid)
  }

  ghost predicate EndsIt(st: State, states: seq<State>, sid: Sid) {
    states != [] && states[0] == st && Ended(states[|states| - 1], sid) && NoneRevived(st, states[|states| - 1])
  }

  lemma CanEndBy(st: State, states: seq<State>, actions: seq<Action>, sid: Sid)
    requires IsPath(states, actions) && EndsIt(st, states, sid)
    ensures CanEnd(st, sid)
  {
  }

  lemma EndedNow(st: State, sid: Sid)
    requires Ended(st, sid)
    ensures CanEnd(st, sid)
  {
    CanEndBy(st, [st], [], sid);
  }

  lemma EndsBehind(st: State, next: State, states: seq<State>, sid: Sid)
    requires EndsIt(next, states, sid) && NoneRevived(st, next)
    ensures EndsIt(st, [st] + states, sid)
  {
    var last := ([st] + states)[|states|];
    assert last == states[|states| - 1];
  }

  lemma EndsLater(st: State, a: Action, next: State, sid: Sid)
    requires Indexed(st) && Enabled(st, a) && next == Step(st, a)
    requires NoneRevived(st, next) && CanEnd(next, sid)
    ensures CanEnd(st, sid)
  {
    var states, actions :| IsPath(states, actions) && EndsIt(next, states, sid);
    PathBehind(st, a, states, actions);
    EndsBehind(st, next, states, sid);
    CanEndBy(st, [st] + states, [a] + actions, sid);
  }

  lemma {:induction false} SessionCanEnd(st: State, sid: Sid)
    requires Controlled(st) && sid in st.cells && st.cells[sid].alive
    ensures CanEnd(st, sid)
    decreases Stage(st.cells[sid]), Weights(st.cells[sid].tasks), |st.responses|
  {
    var a := NextStep(st, sid);
    if Ended(Step(st, a), sid) {
      EndedNow(Step(st, a), sid);
    } else {
      SessionCanEnd(Step(st, a), sid);
    }
    EndsLater(st, a, Step(st, a), sid);
  }

  /** Every run can go on until a session that is still there has been closed and deleted. */
  lemma EverySessionCanEnd(states: seq<State>, actions: seq<Action>, sid: Sid)
    returns (states': seq<State>, actions': seq<Action>)
    requires IsRun(states, actions)
    requires sid in states[|actions|].cells && states[|actions|].cells[sid].alive
    ensures IsRun(states', actions') && states <= states' && actions <= actions'
    ensures Ended(states'[|actions'|], sid) && NoneRevived(states[|actions|], states'[|actions'|])
  {
    var st := states[|actions|];
    RunControlled(states, actions, |actions|);
    SessionCanEnd(st, sid);
    var more, steps :| IsPath(more, steps) && EndsIt(st, more, sid);
    RunGoesOn(states, actions, more, steps);
    states', actions' := states + more[1..], actions + steps;
  }

  /** Nobody is left. */
  ghost predicate AllGone(st: State) {
    forall sid :: sid in st.cells ==> !st.cells[sid].alive
  }

  /** Those still there. */
  ghost function Left(st: State): set<Sid> {
    set sid | sid in st.cells && st.cells[sid].alive
  }

  lemma {:induction false} AllCanEnd(states: seq<State>, actions: seq<Action>)
    returns (states': seq<State>, actions': seq<Action>)
    requires IsRun(states, actions)
    ensures IsRun(states', actions') && states <= states' && actions <= actions' && AllGone(states'[|actions'|])
    decreases |Left(states[|actions|])|
  {
    var st := states[|actions|];
    if AllGone(st) {
      return states, actions;
    }
    var sid :| sid in st.cells && st.cells[sid].alive;
    assert sid in Left(st);
    states', actions' := EverySessionCanEnd(states, actions, sid);
    var st' := states'[|actions'|];
    assert Left(st') <= Left(st) - {sid};
    Fewer(Left(st'), Left(st), sid);
    states', actions' := AllCanEnd(states', actions');
  }

  lemma Fewer(some: set<Sid>, all: set<Sid>, sid: Sid)
    requires sid in all && some <= all - {sid}
    ensures |some| < |all|
  {
    var rest := all - {sid} - some;
    assert all == some + rest + {sid};
  }

  /** Every run can go on until no session is left and every message has been completed exactly once. */
  lemma EverythingCanEnd(states: seq<State>, actions: seq<Action>)
    returns (states': seq<State>, actions': seq<Action>)
    requires IsRun(states, actions)
    ensures IsRun(states', actions') && states <= states' && actions <= actions'
    ensures AllGone(states'[|actions'|])
    ensures forall m :: 0 <= m < |states'[|actions'|].messages| ==> Completions(states'[|actions'|], m) == 1
  {
    states', actions' := AllCanEnd(states, actions);
    RunControlled(states', actions', |actions'|);
    AllCompletedInTheEnd(states', actions', |actions'|);
  }
}
