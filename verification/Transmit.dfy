/** The scatter-gather writer: it offers the head of a session's pending output to the socket as a
    vector of buffers, retires the messages that went out completely, remembers how far into the
    next one it got, and tries again while the socket keeps accepting. */
module Transmit {
  import opened Basics
  import opened SessionProtocol
  import EventLoop

  type byte = bv8

  /** The bytes of a message: its own buffer and the blocks that follow it. */
  datatype Payload = Payload(header: seq<byte>, blocks: seq<seq<byte>>)

  function Bytes(p: Payload): seq<byte> {
    p.header + Concat(p.blocks)
  }

  /** Everything queued in list, in order. */
  function ListBytes(payloads: seq<Payload>, list: seq<nat>): seq<byte>
    requires InRange(list, |payloads|)
  {
    if list == [] then [] else Bytes(payloads[list[0]]) + ListBytes(payloads, list[1..])
  }

  lemma {:induction false} ListBytesTake(payloads: seq<Payload>, list: seq<nat>, i: nat)
    requires InRange(list, |payloads|) && i <= |list|
    ensures ListBytes(payloads, list) == ListBytes(payloads, list[..i]) + ListBytes(payloads, list[i..])
  {
    if i == 0 {
      assert list[..0] == [] && list[0..] == list;
    } else {
      var front, tail := list[..i], list[1..];
      ListBytesTake(payloads, tail, i - 1);
      assert front[1..] == tail[..i - 1] && tail[i - 1..] == list[i..];
    }
  }

  lemma ListBytesSnoc(payloads: seq<Payload>, list: seq<nat>, m: nat)
    requires InRange(list + [m], |payloads|) && InRange(list, |payloads|) && m < |payloads|
    ensures ListBytes(payloads, list + [m]) == ListBytes(payloads, list) + Bytes(payloads[m])
  {
    ListBytesTake(payloads, list + [m], |list|);
    assert (list + [m])[..|list|] == list && (list + [m])[|list|..] == [m];
    assert ListBytes(payloads, [m]) == Bytes(payloads[m]) + ListBytes(payloads, []);
  }

  lemma ListBytesNext(payloads: seq<Payload>, list: seq<nat>, i: nat)
    requires InRange(list, |payloads|) && i < |list|
    ensures ListBytes(payloads, list[..i + 1]) == ListBytes(payloads, list[..i]) + Bytes(payloads[list[i]])
    ensures ListBytes(payloads, list[..i + 1]) <= ListBytes(payloads, list)
  {
    var front, next := list[..i], list[..i + 1];
    assert next == front + [list[i]];
    ListBytesSnoc(payloads, front, list[i]);
    ListBytesTake(payloads, list, i + 1);
  }

  lemma ListBytesHead(payloads: seq<Payload>, list: seq<nat>, offset: nat)
    requires InRange(list, |payloads|) && list != []
    requires |Bytes(payloads[list[0]])| <= offset <= |ListBytes(payloads, list)|
    ensures var rest := offset - |Bytes(payloads[list[0]])|;
            rest <= |ListBytes(payloads, list[1..])|
            && ListBytes(payloads, list)[offset..] == ListBytes(payloads, list[1..])[rest..]
  {
  }

  /** s without its first n bytes, empty if it has no more than n. */
  function DropTo(s: seq<byte>, n: nat): seq<byte> {
    if n <= |s| then s[n..] else []
  }

  /** A socket.  The script says what each writev will do: fail, or accept up to so many bytes. */
  class Wire {
    var script: seq<int>
    var written: seq<byte>

    constructor (script: seq<int>)
      ensures this.script == script && written == []
    {
      this.script := script;
      written := [];
    }

    method WriteVec(iov: seq<seq<byte>>) returns (n: int)
      modifies this
      ensures n <= |Concat(iov)|
      ensures written == old(written) + (if n > 0 then Concat(iov)[..n] else [])
    {
      n := -1;
      if |script| > 0 {
        n, script := script[0], script[1..];
      }
      if n > |Concat(iov)| {
        n := |Concat(iov)|;
      }
      if n > 0 {
        written := written + Concat(iov)[..n];
      }
    }
  }

  /** After the chunks in seen: what is in the vector and how much offset is left. */
  ghost predicate Gathered(seen: seq<byte>, offset: nat, left: nat, iov: seq<seq<byte>>) {
    && Concat(iov) == DropTo(seen, offset)
    && left == (if offset <= |seen| then 0 else offset - |seen|)
    && forall i :: 0 <= i < |iov| ==> iov[i] != []
  }

  /** The inner gathering loop: the blocks that follow a message's own buffer. */
  method AddBlocks(blocks: seq<seq<byte>>, iov: seq<seq<byte>>, left: nat, maxIov: nat, ghost seen: seq<byte>,
      ghost offset: nat)
    returns (iov': seq<seq<byte>>, left': nat, ghost taken: nat)
    requires Gathered(seen, offset, left, iov) && |iov| <= maxIov
    ensures taken <= |blocks| && Gathered(seen + Concat(blocks[..taken]), offset, left', iov')
    ensures |iov'| <= maxIov && (|iov'| < maxIov ==> taken == |blocks|)
  {
    iov', left' := iov, left;
    var j := 0;
    assert seen + Concat(blocks[..0]) == seen;
    while j < |blocks| && |iov'| < maxIov
      invariant 0 <= j <= |blocks| && |iov'| <= maxIov
      invariant Gathered(seen + Concat(blocks[..j]), offset, left', iov')
    {
      ConcatNext(blocks, j);
      iov', left' := Add(iov', left', blocks[j], seen + Concat(blocks[..j]), offset);
      assert seen + Concat(blocks[..j]) + blocks[j] == seen + Concat(blocks[..j + 1]);
      j := j + 1;
    }
    taken := j;
  }

  /** The body of both gathering loops: skip the chunk, or put the rest of it into the vector. */
  method Add(iov: seq<seq<byte>>, left: nat, chunk: seq<byte>, ghost seen: seq<byte>, ghost offset: nat)
    returns (iov': seq<seq<byte>>, left': nat)
    requires Gathered(seen, offset, left, iov)
    ensures Gathered(seen + chunk, offset, left', iov') && |iov'| <= |iov| + 1
  {
    if left >= |chunk| {
      iov', left' := iov, left - |chunk|;
      if |chunk| == 0 {
        assert seen + chunk == seen;
      }
    } else {
      ConcatSnoc(iov, chunk[left..]);
      iov', left' := iov + [chunk[left..]], 0;
    }
  }

  lemma PartOfMessage(p: Payload, taken: nat)
    requires taken <= |p.blocks|
    ensures p.header + Concat(p.blocks[..taken]) <= Bytes(p)
    ensures taken == |p.blocks| ==> p.header + Concat(p.blocks[..taken]) == Bytes(p)
  {
    ConcatSplit(p.blocks, taken);
    assert p.blocks[..|p.blocks|] == p.blocks;
  }

  /** The body of the outer loop: a message's own buffer and the blocks behind it; part is what has been seen of
      the message then. */
  method AddMessage(p: Payload, iov: seq<seq<byte>>, left: nat, maxIov: nat, ghost seen: seq<byte>, ghost offset: nat)
    returns (iov': seq<seq<byte>>, left': nat, ghost part: seq<byte>)
    requires Gathered(seen, offset, left, iov) && |iov| < maxIov
    ensures Gathered(seen + part, offset, left', iov') && part <= Bytes(p)
    ensures |iov'| <= maxIov && (|iov'| < maxIov ==> part == Bytes(p))
  {
    ghost var taken;
    iov', left' := Add(iov, left, p.header, seen, offset);
    iov', left', taken := AddBlocks(p.blocks, iov', left', maxIov, seen + p.header, offset);
    part := p.header + Concat(p.blocks[..taken]);
    assert seen + p.header + Concat(p.blocks[..taken]) == seen + part;
    PartOfMessage(p, taken);
  }

  /** The vector for the bytes of list from offset on: at most maxIov buffers, none of them empty. */
  method Gather(payloads: seq<Payload>, list: seq<nat>, offset: nat, maxIov: nat) returns (iov: seq<seq<byte>>)
    requires InRange(list, |payloads|) && maxIov > 0
    ensures |iov| <= maxIov
    ensures Concat(iov) <= DropTo(ListBytes(payloads, list), offset)
    ensures |iov| < maxIov ==> Concat(iov) == DropTo(ListBytes(payloads, list), offset)
    ensures forall i :: 0 <= i < |iov| ==> iov[i] != []
  {
    iov := [];
    var left := offset;
    ghost var all, seen := ListBytes(payloads, list), [];
    var i := 0;
    while i < |list| && |iov| < maxIov
      invariant 0 <= i <= |list| && |iov| <= maxIov
      invariant seen <= all && Gathered(seen, offset, left, iov)
      invariant |iov| < maxIov ==> seen == ListBytes(payloads, list[..i])
    {
      ListBytesNext(payloads, list, i);
      ghost var part;
      iov, left, part := AddMessage(payloads[list[i]], iov, left, maxIov, seen, offset);
      seen := seen + part;
      i := i + 1;
    }
    assert list[..|list|] == list;
  }

  predicate HasHead(st: State, sid: Sid) {
    Indexed(st) && sid in st.cells && st.cells[sid].outList != []
  }

  /** st with its head message retired, if it has one. */
  function Next(st: State, sid: Sid): State {
    if HasHead(st, sid) then SettleHead(st, sid) else st
  }

  /** s' is s after k steps, each of which was possible. */
  ghost predicate Iterated<S(!new)>(can: S -> bool, next: S -> S, s: S, s': S, k: nat)
    decreases k
  {
    if k == 0 then s' == s else can(s) && Iterated(can, next, next(s), s', k - 1)
  }

  lemma {:induction false} IteratedChain<S(!new)>(can: S -> bool, next: S -> S, s: S, s1: S, s2: S, j: nat, k: nat)
    requires Iterated(can, next, s, s1, j) && Iterated(can, next, s1, s2, k)
    ensures Iterated(can, next, s, s2, j + k)
    decreases j
  {
    if j > 0 {
      IteratedChain(can, next, next(s), s1, s2, j - 1, k);
    }
  }

  ghost function CanRetire(sid: Sid): State -> bool {
    (st: State) => HasHead(st, sid)
  }

  ghost function RetireNext(sid: Sid): State -> State {
    (st: State) => Next(st, sid)
  }

  /** st' is st with k of the session's queued messages retired, one after another. */
  ghost predicate Retired(st: State, st': State, sid: Sid, k: nat)
    decreases k
  {
    if k == 0 then st' == st else HasHead(st, sid) && Retired(Next(st, sid), st', sid, k - 1)
  }

  lemma {:induction false} RetiredIsIterated(st: State, st': State, sid: Sid, k: nat)
    ensures Retired(st, st', sid, k) <==> Iterated(CanRetire(sid), RetireNext(sid), st, st', k)
    decreases k
  {
    if k > 0 {
      RetiredIsIterated(Next(st, sid), st', sid, k - 1);
    }
  }

  /** That is what the protocol does when k messages have been sent. */
  lemma {:induction false} RetiredIsTransmit(st: State, st': State, sid: Sid, k: nat)
    requires Indexed(st) && sid in st.cells && k <= |st.cells[sid].outList|
    ensures Retired(st, st', sid, k) <==> st' == SessionProtocol.Transmit(st, sid, k)
    decreases k
  {
    if k == 0 {
      assert SessionProtocol.Transmit(st, sid, 0) == st;
    } else {
      RetiredIsTransmit(Next(st, sid), st', sid, k - 1);
    }
  }

  lemma RetiredChain(st: State, st1: State, st2: State, sid: Sid, j: nat, k: nat)
    requires Retired(st, st1, sid, j) && Retired(st1, st2, sid, k)
    ensures Retired(st, st2, sid, j + k)
  {
    RetiredIsIterated(st, st1, sid, j);
    RetiredIsIterated(st1, st2, sid, k);
    IteratedChain(CanRetire(sid), RetireNext(sid), st, st1, st2, j, k);
    RetiredIsIterated(st, st2, sid, j + k);
  }

  lemma RetiredOneMore(st: State, st': State, sid: Sid, k: nat)
    requires Retired(st, st', sid, k) && HasHead(st', sid)
    ensures Retired(st, Next(st', sid), sid, k + 1)
  {
    assert Retired(Next(st', sid), Next(st', sid), sid, 0);
    assert Retired(st', Next(st', sid), sid, 1);
    RetiredChain(st, st', Next(st', sid), sid, k, 1);
  }

  /** Retiring j messages and then k is retiring j + k. */
  lemma TransmitTwice(st: State, sid: Sid, j: nat, k: nat)
    requires Indexed(st) && sid in st.cells && j + k <= |st.cells[sid].outList|
    ensures SessionProtocol.Transmit(SessionProtocol.Transmit(st, sid, j), sid, k) ==
        SessionProtocol.Transmit(st, sid, j + k)
  {
    var st1 := SessionProtocol.Transmit(st, sid, j);
    var st2 := SessionProtocol.Transmit(st1, sid, k);
    RetiredIsTransmit(st, st1, sid, j);
    RetiredIsTransmit(st1, st2, sid, k);
    RetiredChain(st, st1, st2, sid, j, k);
    RetiredIsTransmit(st, st2, sid, j + k);
  }

  /** What the session has to send, what the socket has been given, and the protocol's state. */
  datatype View = View(st: State, pending: seq<byte>, written: seq<byte>)

  /** From v to w, the bytes in sent went out: they were the head of what was pending, and the k
      messages sent completely have been retired. */
  ghost predicate Progress(v: View, w: View, sid: Sid, sent: seq<byte>, k: nat) {
    && v.pending == sent + w.pending
    && w.written == v.written + sent
    && Retired(v.st, w.st, sid, k)
  }

  lemma ProgressChain(u: View, v: View, w: View, sid: Sid, first: seq<byte>, j: nat, second: seq<byte>, k: nat)
    requires Progress(u, v, sid, first, j) && Progress(v, w, sid, second, k)
    ensures Progress(u, w, sid, first + second, j + k)
  {
    RetiredChain(u.st, v.st, w.st, sid, j, k);
    assert first + (second + w.pending) == (first + second) + w.pending;
    assert u.written + first + second == u.written + (first + second);
  }

  /** The I/O channel of one session. */
  class Channel {
    const sid: Sid
    const maxIov: nat
    var outOffset: nat

    constructor (sid: Sid, maxIov: nat)
      ensures this.sid == sid && this.maxIov == maxIov && outOffset == 0
    {
      this.sid, this.maxIov := sid, maxIov;
      outOffset := 0;
    }

    ghost predicate Ready(loop: EventLoop.Loop, payloads: seq<Payload>)
      reads this, loop
    {
      && Indexed(loop.Abs()) && sid in loop.cells && |payloads| == |loop.messages| && maxIov > 0
      && outOffset <= |ListBytes(payloads, loop.cells[sid].outList)|
    }

    /** What the session has still to send. */
    ghost function Pending(loop: EventLoop.Loop, payloads: seq<Payload>): seq<byte>
      requires Ready(loop, payloads)
      reads this, loop
    {
      ListBytes(payloads, loop.cells[sid].outList)[outOffset..]
    }

    /** The offset lies strictly inside the head message, or nothing is queued and it is 0. */
    ghost predicate OffsetInHead(loop: EventLoop.Loop, payloads: seq<Payload>)
      requires Ready(loop, payloads)
      reads this, loop
    {
      var list := loop.cells[sid].outList;
      if list == [] then outOffset == 0 else outOffset < |Bytes(payloads[list[0]])|
    }

    /** Retires the messages covered by len more bytes; k is their number. */
    method RetireCovered(loop: EventLoop.Loop, payloads: seq<Payload>, len: nat) returns (ghost k: nat)
      requires Ready(loop, payloads) && len <= |Pending(loop, payloads)|
      modifies this`outOffset, loop`cells, loop`messages, loop`completed
      ensures Ready(loop, payloads) && OffsetInHead(loop, payloads)
      ensures Pending(loop, payloads) == old(Pending(loop, payloads))[len..]
      ensures Retired(old(loop.Abs()), loop.Abs(), sid, k)
    {
      var offset := outOffset + len;
      k := 0;
      ghost var rest := Pending(loop, payloads)[len..];
      while |loop.cells[sid].outList| > 0
        invariant Indexed(loop.Abs()) && sid in loop.cells && |payloads| == |loop.messages|
        invariant Retired(old(loop.Abs()), loop.Abs(), sid, k)
        invariant 0 <= offset <= |ListBytes(payloads, loop.cells[sid].outList)|
        invariant ListBytes(payloads, loop.cells[sid].outList)[offset..] == rest
        decreases |loop.cells[sid].outList|
      {
        var list := loop.cells[sid].outList;
        var size := |Bytes(payloads[list[0]])|;
        if offset >= size {
          RetiredOneMore(old(loop.Abs()), loop.Abs(), sid, k);
          ListBytesHead(payloads, list, offset);
          loop.RetireHead(sid);
          offset := offset - size;
          k := k + 1;
        } else {
          break;
        }
      }
      outOffset := offset;
    }

    ghost function Look(loop: EventLoop.Loop, payloads: seq<Payload>, wire: Wire): View
      requires Ready(loop, payloads)
      reads this, loop, wire
    {
      View(loop.Abs(), Pending(loop, payloads), wire.written)
    }

    /** One writev and what it completes. */
    method SendOnce(loop: EventLoop.Loop, payloads: seq<Payload>, wire: Wire)
      returns (len: int, ghost sent: seq<byte>, ghost k: nat)
      requires Ready(loop, payloads)
      modifies this`outOffset, loop`cells, loop`messages, loop`completed, wire
      ensures Ready(loop, payloads)
      ensures Progress(old(Look(loop, payloads, wire)), Look(loop, payloads, wire), sid, sent, k)
      ensures |sent| == if len > 0 then len else 0
      ensures len > 0 || old(OffsetInHead(loop, payloads)) ==> OffsetInHead(loop, payloads)
      ensures len <= 0 ==> outOffset == old(outOffset) && k == 0
    {
      ghost var before := Pending(loop, payloads);
      var iov := Gather(payloads, loop.cells[sid].outList, outOffset, maxIov);
      len := wire.WriteVec(iov);
      k := 0;
      sent := [];
      if len > 0 {
        sent := before[..len];
        assert Concat(iov)[..len] == sent;
        k := RetireCovered(loop, payloads, len);
        assert before == sent + before[len..];
      }
    }

    /** Sends as much as the socket takes: the bytes that went out followed by the bytes still
        pending are the bytes that were pending before. */
    method Transmit(loop: EventLoop.Loop, payloads: seq<Payload>, wire: Wire)
      returns (len: int, ghost sent: seq<byte>, ghost k: nat)
      requires Ready(loop, payloads)
      modifies this`outOffset, loop`cells, loop`messages, loop`completed, wire
      ensures Ready(loop, payloads)
      ensures Progress(old(Look(loop, payloads, wire)), Look(loop, payloads, wire), sid, sent, k)
      ensures |sent| == if len > 0 then len else 0
      ensures len > 0 || old(OffsetInHead(loop, payloads)) ==> OffsetInHead(loop, payloads)
      ensures len <= 0 ==> outOffset == old(outOffset) && k == 0
      decreases |Pending(loop, payloads)|, 1
    {
      ghost var start := Look(loop, payloads, wire);
      len, sent, k := SendOnce(loop, payloads, wire);
      if len > 0 && |loop.cells[sid].outList| > 0 {
        len, sent, k := SendRest(loop, payloads, wire, len, start, sent, k);
      }
    }

    /** The call of itself, when the socket has taken something and there is more. */
    method SendRest(loop: EventLoop.Loop, payloads: seq<Payload>, wire: Wire, sofar: int,
                    ghost start: View, ghost first: seq<byte>, ghost j: nat)
      returns (len: int, ghost sent: seq<byte>, ghost k: nat)
      requires Ready(loop, payloads) && sofar == |first| > 0 && OffsetInHead(loop, payloads)
      requires Progress(start, Look(loop, payloads, wire), sid, first, j)
      modifies this`outOffset, loop`cells, loop`messages, loop`completed, wire
      ensures Ready(loop, payloads) && OffsetInHead(loop, payloads)
      ensures Progress(start, Look(loop, payloads, wire), sid, sent, k)
      ensures |sent| == len > 0
      decreases |Pending(loop, payloads)|, 2
    {
      ghost var middle := Look(loop, payloads, wire);
      var tmpLen, more, m := Transmit(loop, payloads, wire);
      ProgressChain(start, middle, Look(loop, payloads, wire), sid, first, j, more, m);
      len := if tmpLen > 0 then sofar + tmpLen else sofar;
      sent, k := first + more, j + m;
    }
  }
}
