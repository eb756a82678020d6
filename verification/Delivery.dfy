/** Who gets a message, and who is entered as having got it.

    One response is told as a whole: which sessions queue its messages and in what order, what every
    message carries when it has been dealt out, and what becomes of the sender and of the sessions to
    be closed.  Nothing here goes through the recipients one by one, as the event loop does. */
module Delivery {
  import opened SessionProtocol

  function Count<T(==)>(list: seq<T>, x: T): nat {
    multiset(list)[x]
  }

  function Repeat<T>(x: T, n: nat): seq<T> {
    seq(n, _ => x)
  }

  lemma CountSnoc<T>(list: seq<T>, last: T, x: T)
    ensures Count(list + [last], x) == Count(list, x) + if x == last then 1 else 0
  {
  }

  lemma CountPrefix<T>(list: seq<T>, n: nat, x: T)
    requires n < |list|
    ensures Count(list[..n + 1], x) == Count(list[..n], x) + if x == list[n] then 1 else 0
  {
    assert list[..n + 1] == list[..n] + [list[n]];
  }

  // ----- one response -----

  /** The recipients that get a message sent by `from`: the sender itself, and every session that is
      not about to leave. */
  predicate Takes(st: State, from: Sid, sid: Sid) {
    sid in st.cells && st.cells[sid].managed && (sid == from || st.cells[sid].status != Exit)
  }

  function Takers(st: State, from: Sid): set<Sid> {
    set sid | sid in st.cells && Takes(st, from, sid)
  }

  function Among(list: seq<Sid>, group: set<Sid>): seq<Sid> {
    if list == [] then [] else (if list[0] in group then [list[0]] else []) + Among(list[1..], group)
  }

  function Outside(list: seq<Sid>, group: set<Sid>): seq<Sid> {
    if list == [] then [] else (if list[0] in group then [] else [list[0]]) + Outside(list[1..], group)
  }

  lemma {:induction false} AmongSnoc(list: seq<Sid>, last: Sid, group: set<Sid>)
    ensures Among(list + [last], group) == Among(list, group) + if last in group then [last] else []
    ensures Outside(list + [last], group) == Outside(list, group) + if last in group then [] else [last]
  {
    if list != [] {
      assert (list + [last])[1..] == list[1..] + [last];
      AmongSnoc(list[1..], last, group);
    } else {
      assert (list + [last])[1..] == [];
    }
  }

  lemma {:induction false} ReverseSnoc(list: seq<Sid>, last: Sid)
    ensures Reverse(list + [last]) == [last] + Reverse(list)
  {
    if list != [] {
      assert (list + [last])[1..] == list[1..] + [last];
      ReverseSnoc(list[1..], last);
    }
  }

  /** A message once it has been dealt out: those it could not be given to have failed, the last one
      first. */
  function Dealt(draft: Draft, takers: set<Sid>): Message {
    var group := if draft.nonEmpty then takers else {};
    Message(Among(draft.toList, group), [], Reverse(Outside(draft.toList, group)), draft.toList, [])
  }

  /** Message m as session sid gets it queued. */
  function Arrival(draft: Draft, sid: Sid, m: nat): seq<nat> {
    if draft.nonEmpty then Repeat(m, Count(draft.toList, sid)) else []
  }

  /** All messages of a response as sid gets them queued, the first of them being message m. */
  function Arrivals(drafts: seq<Draft>, sid: Sid, m: nat): seq<nat>
    decreases |drafts|
  {
    if |drafts| == 0 then [] else Arrival(drafts[0], sid, m) + Arrivals(drafts[1..], sid, m + 1)
  }

  /** The messages that nobody gets. */
  function Unwanted(drafts: seq<Draft>, takers: set<Sid>, m: nat): seq<nat>
    decreases |drafts|
  {
    if |drafts| == 0 then []
    else (if Dealt(drafts[0], takers).toList == [] then [m] else []) + Unwanted(drafts[1..], takers, m + 1)
  }

  /** A session with more to send. */
  function Queue(c: Cell, more: seq<nat>): Cell {
    if more == [] then c
    else c.(outList := c.outList + more, writing := true, writeReg := c.writeReg || !c.writing)
  }

  lemma QueueTwice(c: Cell, x: seq<nat>, y: seq<nat>)
    ensures Queue(Queue(c, x), y) == Queue(c, x + y)
  {
    if x == [] {
      assert x + y == y;
    } else if y == [] {
      assert x + y == x;
    } else {
      assert c.outList + (x + y) == c.outList + x + y;
    }
  }

  /** Every session that takes the message has had `more` queued. */
  ghost predicate Queued(st: State, r: State, takers: set<Sid>, more: Sid -> seq<nat>) {
    && r.cells.Keys == st.cells.Keys
    && forall sid :: sid in st.cells ==>
         r.cells[sid] == if sid in takers then Queue(st.cells[sid], more(sid)) else st.cells[sid]
  }

  lemma QueuedKeepsTakers(st: State, r: State, from: Sid, more: Sid -> seq<nat>)
    requires Queued(st, r, Takers(st, from), more)
    ensures Takers(r, from) == Takers(st, from)
  {
    assert forall sid :: sid in st.cells ==>
        r.cells[sid].managed == st.cells[sid].managed && r.cells[sid].status == st.cells[sid].status;
    assert forall sid :: Takes(r, from, sid) == Takes(st, from, sid);
  }

  lemma QueuedTwice(st: State, st1: State, r: State, takers: set<Sid>,
                    x: Sid -> seq<nat>, y: Sid -> seq<nat>, z: Sid -> seq<nat>)
    requires Queued(st, st1, takers, x) && Queued(st1, r, takers, y)
    requires forall sid :: z(sid) == x(sid) + y(sid)
    ensures Queued(st, r, takers, z)
  {
    forall sid | sid in st.cells
      ensures r.cells[sid] == if sid in takers then Queue(st.cells[sid], z(sid)) else st.cells[sid]
    {
      assert z(sid) == x(sid) + y(sid);
      QueueTwice(st.cells[sid], x(sid), y(sid));
    }
  }

  /** Message m when its recipients from n up have been dealt with. */
  function PartDealt(msg: Message, n: nat, takers: set<Sid>): Message
    requires n <= |msg.toList|
  {
    msg.(toList := Among(msg.toList[..n], takers) + msg.toList[n..],
         failure := msg.failure + Reverse(Outside(msg.toList[..n], takers)))
  }

  function Copies(list: seq<Sid>, m: nat): Sid -> seq<nat> {
    sid => Repeat(m, Count(list, sid))
  }

  function Failing(msg: Message, i: nat): Message
    requires i < |msg.toList|
  {
    msg.(toList := msg.toList[..i] + msg.toList[i + 1..], failure := msg.failure + [msg.toList[i]])
  }

  lemma CopiesOfOne(x: Sid, m: nat, sid: Sid)
    ensures Copies([x], m)(sid) == if sid == x then [m] else []
  {
  }

  lemma OfferTaken(st: State, from: Sid, m: nat, i: nat)
    requires Indexed(st) && m < |st.messages| && i < |st.messages[m].toList|
    requires st.messages[m].toList[i] in Takers(st, from)
    ensures var r := Offer(st, from, m, i);
            && Queued(st, r, Takers(st, from), Copies([st.messages[m].toList[i]], m))
            && r.completed == st.completed && r.messages == st.messages
  {
    var x := st.messages[m].toList[i];
    var r := Offer(st, from, m, i);
    assert r == Update(st, x, AddWrite(st.cells[x].(outList := st.cells[x].outList + [m])));
    forall sid | sid in st.cells
      ensures r.cells[sid] ==
              if sid in Takers(st, from) then Queue(st.cells[sid], Copies([x], m)(sid)) else st.cells[sid]
    {
      CopiesOfOne(x, m, sid);
    }
  }

  lemma OfferMissed(st: State, from: Sid, m: nat, i: nat)
    requires Indexed(st) && m < |st.messages| && i < |st.messages[m].toList|
    requires st.messages[m].toList[i] !in Takers(st, from)
    ensures var r := Offer(st, from, m, i);
            && Queued(st, r, Takers(st, from), Copies([st.messages[m].toList[i]], m))
            && r.completed == st.completed && r.messages == st.messages[m := Failing(st.messages[m], i)]
  {
    var x := st.messages[m].toList[i];
    var r := Offer(st, from, m, i);
    assert r == st.(messages := st.messages[m := Failing(st.messages[m], i)]);
    forall sid | sid in st.cells
      ensures r.cells[sid] ==
              if sid in Takers(st, from) then Queue(st.cells[sid], Copies([x], m)(sid)) else st.cells[sid]
    {
      CopiesOfOne(x, m, sid);
    }
  }

  lemma PartDealtNext(msg: Message, i: nat, takers: set<Sid>)
    requires i < |msg.toList|
    ensures PartDealt(msg, i + 1, takers) ==
            PartDealt(if msg.toList[i] in takers then msg else Failing(msg, i), i, takers)
  {
    var list := msg.toList;
    assert list[..i + 1] == list[..i] + [list[i]];
    AmongSnoc(list[..i], list[i], takers);
    if list[i] in takers {
      assert Outside(list[..i + 1], takers) == Outside(list[..i], takers);
      assert Among(list[..i], takers) + list[i..] == Among(list[..i], takers) + [list[i]] + list[i + 1..];
    } else {
      var list' := list[..i] + list[i + 1..];
      assert list'[..i] == list[..i] && list'[i..] == list[i + 1..];
      ReverseSnoc(Outside(list[..i], takers), list[i]);
      var gone := Reverse(Outside(list[..i], takers));
      assert msg.failure + ([list[i]] + gone) == msg.failure + [list[i]] + gone;
    }
  }

  lemma CopiesNext(list: seq<Sid>, i: nat, m: nat, sid: Sid)
    requires i < |list|
    ensures Copies(list[..i + 1], m)(sid) == Copies([list[i]], m)(sid) + Copies(list[..i], m)(sid)
  {
    CountPrefix(list, i, sid);
    CopiesOfOne(list[i], m, sid);
  }

  /** Recipients n - 1 down to 0 of message m have been dealt with. */
  ghost predicate Offered(st: State, r: State, takers: set<Sid>, m: nat, n: nat)
    requires m < |st.messages| && n <= |st.messages[m].toList|
  {
    && Queued(st, r, takers, Copies(st.messages[m].toList[..n], m))
    && r.completed == st.completed
    && r.messages == st.messages[m := PartDealt(st.messages[m], n, takers)]
  }

  ghost predicate OfferedOne(st: State, r: State, takers: set<Sid>, m: nat, i: nat)
    requires m < |st.messages| && i < |st.messages[m].toList|
  {
    var msg := st.messages[m];
    && Queued(st, r, takers, Copies([msg.toList[i]], m))
    && r.completed == st.completed
    && r.messages == st.messages[m := if msg.toList[i] in takers then msg else Failing(msg, i)]
  }

  lemma OfferedJoin(st: State, st1: State, r: State, takers: set<Sid>, m: nat, i: nat)
    requires m < |st.messages| && i < |st.messages[m].toList| && OfferedOne(st, st1, takers, m, i)
    requires m < |st1.messages| && i <= |st1.messages[m].toList| && Offered(st1, r, takers, m, i)
    ensures Offered(st, r, takers, m, i + 1)
  {
    var list := st.messages[m].toList;
    assert st1.messages[m].toList[..i] == list[..i];
    forall sid ensures Copies(list[..i + 1], m)(sid) == Copies([list[i]], m)(sid) + Copies(list[..i], m)(sid) {
      CopiesNext(list, i, m, sid);
    }
    QueuedTwice(st, st1, r, takers, Copies([list[i]], m), Copies(list[..i], m), Copies(list[..i + 1], m));
    PartDealtNext(st.messages[m], i, takers);
  }

  lemma OfferExact(st: State, from: Sid, m: nat, i: nat)
    requires Indexed(st) && m < |st.messages| && i < |st.messages[m].toList|
    ensures OfferedOne(st, Offer(st, from, m, i), Takers(st, from), m, i)
  {
    if st.messages[m].toList[i] in Takers(st, from) {
      OfferTaken(st, from, m, i);
    } else {
      OfferMissed(st, from, m, i);
    }
  }

  lemma {:induction false} OfferAllExact(st: State, from: Sid, m: nat, n: nat)
    requires Indexed(st) && m < |st.messages| && n <= |st.messages[m].toList|
    ensures Offered(st, OfferAll(st, from, m, n), Takers(st, from), m, n)
    decreases n
  {
    if n == 0 {
      OfferNone(st, from, m);
    } else {
      var st1 := Offer(st, from, m, n - 1);
      OfferExact(st, from, m, n - 1);
      QueuedKeepsTakers(st, st1, from, Copies([st.messages[m].toList[n - 1]], m));
      OfferAllExact(st1, from, m, n - 1);
      OfferedJoin(st, st1, OfferAll(st, from, m, n), Takers(st, from), m, n - 1);
    }
  }

  lemma OfferNone(st: State, from: Sid, m: nat)
    requires m < |st.messages|
    ensures Offered(st, st, Takers(st, from), m, 0)
  {
    var list := st.messages[m].toList;
    assert list[..0] == [] && list[0..] == list;
    assert forall sid :: Copies(list[..0], m)(sid) == [];
    assert PartDealt(st.messages[m], 0, Takers(st, from)) == st.messages[m];
  }

  // ----- one message of a response, and all of them -----

  function ArrivalsOf(drafts: seq<Draft>, m: nat): Sid -> seq<nat> {
    sid => Arrivals(drafts, sid, m)
  }

  lemma ArrivalsOfOne(draft: Draft, m: nat, sid: Sid)
    ensures ArrivalsOf([draft], m)(sid) == Arrival(draft, sid, m)
  {
    assert [draft][1..] == [];
    assert Arrivals([draft][1..], sid, m + 1) == [];
  }

  lemma {:induction false} AllOutside(list: seq<Sid>)
    ensures Outside(list, {}) == list && Among(list, {}) == []
  {
    if list != [] { AllOutside(list[1..]); }
  }

  lemma DispatchExact(st: State, from: Sid, draft: Draft)
    requires Indexed(st)
    ensures var r := Dispatch(st, from, draft);
            var takers := Takers(st, from);
            && Queued(st, r, takers, ArrivalsOf([draft], |st.messages|))
            && r.messages == st.messages + [Dealt(draft, takers)]
            && r.completed == st.completed + if Dealt(draft, takers).toList == [] then [|st.messages|] else []
  {
    var m := |st.messages|;
    var takers := Takers(st, from);
    var msg := Message(draft.toList, [], [], draft.toList, []);
    var st1 := st.(messages := st.messages + [msg]);
    assert Takers(st1, from) == takers by { assert forall sid :: Takes(st1, from, sid) == Takes(st, from, sid); }
    forall sid ensures ArrivalsOf([draft], m)(sid) == Arrival(draft, sid, m) { ArrivalsOfOne(draft, m, sid); }
    assert draft.toList[..|draft.toList|] == draft.toList;
    if draft.nonEmpty {
      OfferAllExact(st1, from, m, |draft.toList|);
      assert forall sid :: Copies(draft.toList, m)(sid) == Arrival(draft, sid, m);
      assert PartDealt(msg, |draft.toList|, takers) == Dealt(draft, takers);
      assert st1.messages[m := Dealt(draft, takers)] == st.messages + [Dealt(draft, takers)];
    } else {
      AllOutside(draft.toList);
      assert FailEmpty(msg) == Dealt(draft, takers);
      assert st1.messages[m := Dealt(draft, takers)] == st.messages + [Dealt(draft, takers)];
    }
  }

  lemma {:induction false} ArrivalsJoin(draft: Draft, rest: seq<Draft>, m: nat, sid: Sid)
    ensures Arrivals([draft] + rest, sid, m) == ArrivalsOf([draft], m)(sid) + ArrivalsOf(rest, m + 1)(sid)
  {
    ArrivalsOfOne(draft, m, sid);
    assert ([draft] + rest)[1..] == rest;
  }

  ghost predicate AllDealt(st: State, r: State, from: Sid, drafts: seq<Draft>) {
    && Queued(st, r, Takers(st, from), ArrivalsOf(drafts, |st.messages|))
    && |r.messages| == |st.messages| + |drafts|
    && (forall m :: 0 <= m < |st.messages| ==> r.messages[m] == st.messages[m])
    && (forall j :: 0 <= j < |drafts| ==> r.messages[|st.messages| + j] == Dealt(drafts[j], Takers(st, from)))
  }

  lemma {:induction false} DispatchAllExact(st: State, from: Sid, drafts: seq<Draft>)
    requires Indexed(st)
    ensures AllDealt(st, DispatchAll(st, from, drafts), from, drafts)
    decreases |drafts|
  {
    var m := |st.messages|;
    if |drafts| == 0 {
      assert forall sid :: ArrivalsOf(drafts, m)(sid) == [];
    } else {
      var st1 := Dispatch(st, from, drafts[0]);
      DispatchExact(st, from, drafts[0]);
      QueuedKeepsTakers(st, st1, from, ArrivalsOf([drafts[0]], m));
      DispatchAllExact(st1, from, drafts[1..]);
      DealtJoin(st, st1, DispatchAll(st1, from, drafts[1..]), from, drafts);
    }
  }

  lemma DispatchCompletes(st: State, from: Sid, draft: Draft, first: seq<nat>)
    requires Indexed(st)
    requires first == if Dealt(draft, Takers(st, from)).toList == [] then [|st.messages|] else []
    ensures var r := Dispatch(st, from, draft);
            r.completed == st.completed + first && Takers(r, from) == Takers(st, from)
  {
    DispatchExact(st, from, draft);
    QueuedKeepsTakers(st, Dispatch(st, from, draft), from, ArrivalsOf([draft], |st.messages|));
  }

  lemma {:induction false} DispatchAllCompletes(st: State, from: Sid, drafts: seq<Draft>)
    requires Indexed(st)
    ensures DispatchAll(st, from, drafts).completed
            == st.completed + Unwanted(drafts, Takers(st, from), |st.messages|)
    decreases |drafts|
  {
    var takers := Takers(st, from);
    if |drafts| == 0 {
      assert st.completed + [] == st.completed;
    } else {
      var st1 := Dispatch(st, from, drafts[0]);
      var first := if Dealt(drafts[0], takers).toList == [] then [|st.messages|] else [];
      DispatchCompletes(st, from, drafts[0], first);
      DispatchAllCompletes(st1, from, drafts[1..]);
      var rest := Unwanted(drafts[1..], takers, |st1.messages|);
      assert st.completed + (first + rest) == (st.completed + first) + rest;
      assert Unwanted(drafts, takers, |st.messages|) == first + rest;
    }
  }

  lemma DealtJoin(st: State, st1: State, r: State, from: Sid, drafts: seq<Draft>)
    requires |drafts| > 0 && Takers(st1, from) == Takers(st, from)
    requires Queued(st, st1, Takers(st, from), ArrivalsOf([drafts[0]], |st.messages|))
    requires st1.messages == st.messages + [Dealt(drafts[0], Takers(st, from))]
    requires AllDealt(st1, r, from, drafts[1..])
    ensures AllDealt(st, r, from, drafts)
  {
    var m := |st.messages|;
    assert drafts == [drafts[0]] + drafts[1..];
    forall sid
      ensures ArrivalsOf(drafts, m)(sid) == ArrivalsOf([drafts[0]], m)(sid) + ArrivalsOf(drafts[1..], m + 1)(sid)
    {
      ArrivalsJoin(drafts[0], drafts[1..], m, sid);
    }
    QueuedTwice(st, st1, r, Takers(st, from), ArrivalsOf([drafts[0]], m), ArrivalsOf(drafts[1..], m + 1),
                ArrivalsOf(drafts, m));
    forall j | 0 <= j < |drafts| ensures r.messages[m + j] == Dealt(drafts[j], Takers(st, from)) {
      if j > 0 { assert drafts[j] == drafts[1..][j - 1]; }
    }
  }

  // ----- the sender, and the sessions to be closed -----

  function Closed(c: Cell): Cell {
    c.(status := Exit, writing := true, writeReg := c.writeReg || !c.writing)
  }

  ghost predicate AllClosed(st: State, r: State, sids: seq<Sid>) {
    && r.cells.Keys == st.cells.Keys
    && forall sid :: sid in st.cells ==>
         r.cells[sid] == if st.cells[sid].managed && sid in sids then Closed(st.cells[sid]) else st.cells[sid]
  }

  lemma CloseOneExact(st: State, sid: Sid)
    requires Indexed(st)
    ensures AllClosed(st, CloseOne(st, sid), [sid])
  {
  }

  lemma AllClosedJoin(st: State, st1: State, r: State, sids: seq<Sid>)
    requires |sids| > 0 && AllClosed(st, st1, [sids[0]]) && AllClosed(st1, r, sids[1..])
    ensures AllClosed(st, r, sids)
  {
    assert forall sid :: sid in sids <==> sid in [sids[0]] || sid in sids[1..];
  }

  lemma {:induction false} CloseAllExact(st: State, sids: seq<Sid>)
    requires Indexed(st)
    ensures AllClosed(st, CloseAll(st, sids), sids)
    decreases |sids|
  {
    if |sids| > 0 {
      CloseOneExact(st, sids[0]);
      CloseAllExact(CloseOne(st, sids[0]), sids[1..]);
      AllClosedJoin(st, CloseOne(st, sids[0]), CloseAll(st, sids), sids);
    }
  }

  /** The response is the session's own, and the session is still there to hear of it. */
  predicate Sender(c: Cell, sid: Sid, from: Sid) {
    c.managed && sid == from && !IsSystemSid(from)
  }

  /** What becomes of one session: `sender` if the response is its own, `more` for what it gets
      queued, `closing` if it is among those to be closed. */
  ghost predicate CellAfter(c: Cell, c': Cell, sender: bool, more: seq<nat>, closing: bool) {
    && c'.outList == c.outList + more
    && c'.status == (if closing || (sender && c.status == WouldExit) then Exit else c.status)
    && c'.writing == (c.writing || sender || more != [] || closing)
    && c'.writeReg == (c.writeReg || (c'.writing && !c.writing))
    && c'.reading == (c.reading || sender)
    && c'.readReg == (if sender then !c.reading || (c.readReg && c.status == Normal) else c.readReg)
    && c'.alive == c.alive && c'.managed == c.managed && c'.running == c.running && c'.unread == c.unread
    && c'.tasks == c.tasks && c'.calls == c.calls
  }

  /** The sender's cell once it is answered. */
  function Told(c: Cell): Cell {
    c.(status := if c.status == WouldExit then Exit else c.status,
       writing := true, writeReg := c.writeReg || !c.writing,
       reading := true, readReg := !c.reading || (c.readReg && c.status == Normal))
  }

  lemma AnsweredIsTold(c: Cell)
    ensures Answered(c) == Told(c)
  {
  }

  ghost predicate SendersTold(st: State, r: State, from: Sid) {
    && r.cells.Keys == st.cells.Keys
    && forall sid :: sid in st.cells ==>
         r.cells[sid] == if Sender(st.cells[sid], sid, from) then Told(st.cells[sid]) else st.cells[sid]
  }

  lemma AnswerExact(st: State, from: Sid)
    requires Indexed(st)
    ensures var r := AnswerSender(st, from);
            SendersTold(st, r, from) && Takers(r, from) == Takers(st, from) && r.completed == st.completed
  {
    var r := AnswerSender(st, from);
    if from in st.cells { AnsweredIsTold(st.cells[from]); }
    assert forall sid :: Takes(r, from, sid) == Takes(st, from, sid);
  }

  lemma CellAfterQueue(c: Cell, sender: bool, more: seq<nat>)
    ensures CellAfter(c, Queue(if sender then Told(c) else c, more), sender, more, false)
  {
    assert c.outList + [] == c.outList;
  }

  lemma CellAfterClose(c: Cell, c': Cell, sender: bool, more: seq<nat>)
    requires CellAfter(c, c', sender, more, false)
    ensures CellAfter(c, Closed(c'), sender, more, true)
  {
  }

  /** One response, for every session and every message. */
  ghost predicate Delivered(st: State, r: State, response: Response) {
    var takers := Takers(st, response.from);
    var n := |st.messages|;
    && r.cells.Keys == st.cells.Keys
    && (forall sid :: sid in st.cells ==>
          var more := if sid in takers then Arrivals(response.body.drafts, sid, n) else [];
          CellAfter(st.cells[sid], r.cells[sid], Sender(st.cells[sid], sid, response.from), more,
                    st.cells[sid].managed && sid in response.body.toClose))
    && |r.messages| == n + |response.body.drafts|
    && (forall m :: 0 <= m < n ==> r.messages[m] == st.messages[m])
    && (forall j :: 0 <= j < |response.body.drafts| ==>
          r.messages[n + j] == Dealt(response.body.drafts[j], takers))
    && r.completed == st.completed + Unwanted(response.body.drafts, takers, n)
  }

  lemma ResponseIsDelivered(st: State)
    requires Indexed(st) && st.responses != []
    ensures Delivered(st, Step(st, Respond), st.responses[0])
    ensures Step(st, Respond).responses == st.responses[1..]
  {
    var from, drafts := st.responses[0].from, st.responses[0].body.drafts;
    var st0 := st.(responses := st.responses[1..]);
    var st1 := AnswerSender(st0, from);
    var st2 := DispatchAll(st1, from, drafts);
    AnswerExact(st0, from);
    assert Takers(st0, from) == Takers(st, from) by {
      assert forall sid :: Takes(st0, from, sid) == Takes(st, from, sid);
    }
    DispatchAllExact(st1, from, drafts);
    DispatchAllCompletes(st1, from, drafts);
    CloseAllExact(st2, st.responses[0].body.toClose);
    PartsDelivered(st, st1, st2, Step(st, Respond), st.responses[0]);
  }

  lemma PartsDelivered(st: State, st1: State, st2: State, r: State, response: Response)
    requires SendersTold(st, st1, response.from) && Takers(st1, response.from) == Takers(st, response.from)
    requires st1.messages == st.messages && st1.completed == st.completed
    requires AllDealt(st1, st2, response.from, response.body.drafts)
    requires st2.completed
      == st.completed + Unwanted(response.body.drafts, Takers(st, response.from), |st.messages|)
    requires AllClosed(st2, r, response.body.toClose) && r.messages == st2.messages && r.completed == st2.completed
    ensures Delivered(st, r, response)
  {
    var drafts := response.body.drafts;
    var takers := Takers(st, response.from);
    forall sid | sid in st.cells
      ensures CellAfter(st.cells[sid], r.cells[sid], Sender(st.cells[sid], sid, response.from),
                        if sid in takers then Arrivals(drafts, sid, |st.messages|) else [],
                        st.cells[sid].managed && sid in response.body.toClose)
    {
      var c := st.cells[sid];
      var sender := Sender(c, sid, response.from);
      var more := if sid in takers then Arrivals(drafts, sid, |st.messages|) else [];
      CellAfterQueue(c, sender, more);
      assert ArrivalsOf(drafts, |st.messages|)(sid) == Arrivals(drafts, sid, |st.messages|);
      assert st2.cells[sid] == Queue(st1.cells[sid], more);
      CellAfterClose(c, st2.cells[sid], sender, more);
    }
  }

  // ----- in what order and how often -----

  lemma CountJoin<T>(x: seq<T>, y: seq<T>, k: T)
    ensures Count(x + y, k) == Count(x, k) + Count(y, k)
  {
  }

  /** Message k is queued as often as the session is among its recipients. */
  lemma {:induction false} ArrivalsCount(drafts: seq<Draft>, sid: Sid, n: nat, k: nat)
    ensures Count(Arrivals(drafts, sid, n), k) ==
            if n <= k < n + |drafts| && drafts[k - n].nonEmpty then Count(drafts[k - n].toList, sid) else 0
    decreases |drafts|
  {
    if |drafts| > 0 {
      RepeatCount(n, Count(drafts[0].toList, sid), k);
      ArrivalsCount(drafts[1..], sid, n + 1, k);
      CountJoin(Arrival(drafts[0], sid, n), Arrivals(drafts[1..], sid, n + 1), k);
    }
  }

  lemma {:induction false} RepeatCount<T>(x: T, n: nat, y: T)
    ensures Count(Repeat(x, n), y) == if y == x then n else 0
  {
    if n > 0 {
      RepeatCount(x, n - 1, y);
      assert Repeat(x, n) == Repeat(x, n - 1) + [x];
      CountSnoc(Repeat(x, n - 1), x, y);
    }
  }

  predicate InOrder(list: seq<nat>, low: nat, high: nat) {
    && (forall i :: 0 <= i < |list| ==> low <= list[i] < high)
    && (forall i, j :: 0 <= i < j < |list| ==> list[i] <= list[j])
  }

  lemma InOrderJoin(x: seq<nat>, y: seq<nat>, n: nat, high: nat)
    requires InOrder(x, n, n + 1) && InOrder(y, n + 1, high) && n < high
    ensures InOrder(x + y, n, high)
  {
  }

  /** Messages are queued in the order of the response. */
  lemma {:induction false} ArrivalsInOrder(drafts: seq<Draft>, sid: Sid, n: nat)
    ensures InOrder(Arrivals(drafts, sid, n), n, n + |drafts|)
    decreases |drafts|
  {
    if |drafts| > 0 {
      ArrivalsInOrder(drafts[1..], sid, n + 1);
      InOrderJoin(Arrival(drafts[0], sid, n), Arrivals(drafts[1..], sid, n + 1), n, n + |drafts|);
    }
  }

  /** Of the recipients in the group none is lost and none of the others kept, and the order stays. */
  lemma {:induction false} AmongCount(list: seq<Sid>, group: set<Sid>, x: Sid)
    ensures Count(Among(list, group), x) == if x in group then Count(list, x) else 0
    ensures Count(Outside(list, group), x) == if x in group then 0 else Count(list, x)
  {
    if list != [] {
      assert list == [list[0]] + list[1..];
      AmongCount(list[1..], group, x);
    }
  }

  lemma {:induction false} ReverseAt(list: seq<Sid>, k: nat)
    requires k < |list|
    ensures |Reverse(list)| == |list| && Reverse(list)[k] == list[|list| - 1 - k]
  {
    if |list| > 1 {
      ReverseAt(list[1..], if k < |list| - 1 then k else 0);
    }
  }

  lemma {:induction false} ReverseCount(list: seq<Sid>, x: Sid)
    ensures Count(Reverse(list), x) == Count(list, x)
  {
    if list != [] {
      assert list == [list[0]] + list[1..];
      ReverseCount(list[1..], x);
    }
  }

  lemma {:induction false} UnwantedCount(drafts: seq<Draft>, takers: set<Sid>, n: nat, k: nat)
    ensures Count(Unwanted(drafts, takers, n), k) ==
            if n <= k < n + |drafts| && Dealt(drafts[k - n], takers).toList == [] then 1 else 0
    decreases |drafts|
  {
    if |drafts| > 0 {
      UnwantedCount(drafts[1..], takers, n + 1, k);
      var first := if Dealt(drafts[0], takers).toList == [] then [n] else [];
      CountJoin(first, Unwanted(drafts[1..], takers, n + 1), k);
    }
  }

  lemma {:induction false} AmongEmpty(list: seq<Sid>, group: set<Sid>)
    ensures Among(list, group) == [] <==> forall x :: x in list ==> x !in group
  {
    if list != [] {
      AmongEmpty(list[1..], group);
      assert forall x :: x in list <==> x == list[0] || x in list[1..];
    }
  }

  /** Nobody is left to be served exactly if the message is empty or none of its recipients can get it. */
  lemma DealtToNobody(draft: Draft, takers: set<Sid>)
    ensures Dealt(draft, takers).toList == [] <==>
            (draft.nonEmpty ==> forall x :: x in draft.toList ==> x !in takers)
  {
    AmongEmpty(draft.toList, if draft.nonEmpty then takers else {});
  }
}
