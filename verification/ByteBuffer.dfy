/** The byte buffer: an allocation whose live bytes begin some way in, so that bytes taken from the front cost
    nothing until the room is needed. */
module ByteBuffer {

  /** What can be done with a buffer, whatever its items are. */
  datatype Op<T> =
    | Add(data: seq<T>)
    | AddBuffer(data: seq<T>)   // another buffer with these contents
    | Drain(n: nat)
    | Remove(n: nat)
    | Truncate(n: nat)
    | Expand(n: nat)
    | GetBuffer

  function Least(a: nat, b: nat): nat {
    if a < b then a else b
  }

  function Apply<T>(content: seq<T>, op: Op<T>): seq<T> {
    match op
    case Add(data) => content + data
    case AddBuffer(data) => content + data
    case Drain(n) => content[Least(n, |content|)..]
    case Remove(n) => content[Least(n, |content|)..]
    case Truncate(n) => content[..Least(n, |content|)]
    case Expand(_) => content
    case GetBuffer => content
  }

  /** What an operation gives the buffer, takes from its front and cuts off at its end. */
  function GivenBy<T>(op: Op<T>): seq<T> {
    if op.Add? || op.AddBuffer? then op.data else []
  }

  function TakenBy<T>(content: seq<T>, op: Op<T>): seq<T> {
    if op.Drain? || op.Remove? then content[..Least(op.n, |content|)] else []
  }

  function CutBy<T>(content: seq<T>, op: Op<T>): seq<T> {
    if op.Truncate? then content[Least(op.n, |content|)..] else []
  }

  /** What the caller gets to see of what is taken. */
  function HandedBy<T>(content: seq<T>, op: Op<T>): seq<T> {
    if op.Remove? then TakenBy(content, op) else []
  }

  function After<T>(ops: seq<Op<T>>): seq<T> {
    if ops == [] then [] else Apply(After(ops[..|ops| - 1]), ops[|ops| - 1])
  }

  function Given<T>(ops: seq<Op<T>>): seq<T> {
    if ops == [] then [] else Given(ops[..|ops| - 1]) + GivenBy(ops[|ops| - 1])
  }

  function Taken<T>(ops: seq<Op<T>>): seq<T> {
    if ops == [] then []
    else Taken(ops[..|ops| - 1]) + TakenBy(After(ops[..|ops| - 1]), ops[|ops| - 1])
  }

  function CutOff<T>(ops: seq<Op<T>>): seq<T> {
    if ops == [] then []
    else CutOff(ops[..|ops| - 1]) + CutBy(After(ops[..|ops| - 1]), ops[|ops| - 1])
  }

  function Handed<T>(ops: seq<Op<T>>): seq<T> {
    if ops == [] then []
    else Handed(ops[..|ops| - 1]) + HandedBy(After(ops[..|ops| - 1]), ops[|ops| - 1])
  }

  lemma OneStep<T>(content: seq<T>, op: Op<T>)
    ensures content + GivenBy(op) == TakenBy(content, op) + Apply(content, op) + CutBy(content, op)
  {
  }

  lemma Balance<T>(given: seq<T>, taken: seq<T>, cut: seq<T>, left: seq<T>,
      more: seq<T>, front: seq<T>, end: seq<T>, left': seq<T>)
    requires multiset(given) == multiset(taken) + multiset(cut) + multiset(left) && left + more == front + left' + end
    ensures multiset(given + more) == multiset(taken + front) + multiset(cut + end) + multiset(left')
  {
    assert left + more == front + left' + end;
    assert multiset(left + more) == multiset(front + left') + multiset(end);
    assert multiset(left) + multiset(more) == multiset(front) + multiset(left') + multiset(end);
    assert multiset(given + more) == multiset(taken) + multiset(cut) + (multiset(left) + multiset(more));
  }

  /** Everything given has been taken, has been cut off or is still there. */
  lemma {:induction false} NothingIsLost<T>(ops: seq<Op<T>>)
    ensures multiset(Given(ops)) == multiset(Taken(ops)) + multiset(CutOff(ops)) + multiset(After(ops))
    decreases |ops|
  {
    if ops != [] {
      var before, op := ops[..|ops| - 1], ops[|ops| - 1];
      var content := After(before);
      NothingIsLost(before);
      OneStep(content, op);
      Balance(Given(before), Taken(before), CutOff(before), content,
              GivenBy(op), TakenBy(content, op), CutBy(content, op), Apply(content, op));
    }
  }

  // ----- which items stay, and in what order -----

  /** The numbers from k on. */
  function Numbers(k: nat, n: nat): seq<nat> {
    seq(n, i requires 0 <= i < n => k + i)
  }

  /** The same operation with the numbers from k on in place of the items it gives. */
  function WithNumbers<T>(op: Op<T>, k: nat): Op<nat> {
    match op
    case Add(data) => Op.Add(Numbers(k, |data|))
    case AddBuffer(data) => Op.AddBuffer(Numbers(k, |data|))
    case Drain(n) => Op.Drain(n)
    case Remove(n) => Op.Remove(n)
    case Truncate(n) => Op.Truncate(n)
    case Expand(n) => Op.Expand(n)
    case GetBuffer => Op.GetBuffer
  }

  /** The same operations on the places the items have among all that are given. */
  function Numbered<T>(ops: seq<Op<T>>): seq<Op<nat>> {
    if ops == [] then []
    else Numbered(ops[..|ops| - 1]) + [WithNumbers(ops[|ops| - 1], |Given(ops[..|ops| - 1])|)]
  }

  /** These are the items at those places. */
  ghost predicate Are<T>(items: seq<T>, all: seq<T>, places: seq<nat>) {
    |items| == |places| && forall i :: 0 <= i < |items| ==> places[i] < |all| && items[i] == all[places[i]]
  }

  predicate Increasing(places: seq<nat>) {
    forall i, j :: 0 <= i < j < |places| ==> places[i] < places[j]
  }

  lemma NumberedLast<T>(ops: seq<Op<T>>)
    requires ops != []
    ensures var n := |ops| - 1;
            && Numbered(ops)[..|Numbered(ops)| - 1] == Numbered(ops[..n]) && Numbered(ops) != []
            && Numbered(ops)[|Numbered(ops)| - 1] == WithNumbers(ops[n], |Given(ops[..n])|)
  {
  }

  lemma NumbersOn(k: nat, n: nat, m: nat)
    ensures Numbers(k, n) + Numbers(k + n, m) == Numbers(k, n + m)
  {
  }

  lemma {:induction false} GivenInOrder<T>(ops: seq<Op<T>>)
    ensures Given(Numbered(ops)) == Numbers(0, |Given(ops)|)
    decreases |ops|
  {
    if ops != [] {
      var before, op := ops[..|ops| - 1], ops[|ops| - 1];
      NumberedLast(ops);
      GivenInOrder(before);
      NumbersOn(0, |Given(before)|, |GivenBy(op)|);
    }
  }

  lemma AreMore<T>(items: seq<T>, all: seq<T>, places: seq<nat>, more: seq<T>)
    requires Are(items, all, places)
    ensures Are(items, all + more, places)
    ensures Are(items + more, all + more, places + Numbers(|all|, |more|))
  {
  }

  lemma ApplyKeepsPlaces<T>(content: seq<T>, all: seq<T>, places: seq<nat>, op: Op<T>)
    requires Are(content, all, places)
    ensures Are(Apply(content, op), all + GivenBy(op), Apply(places, WithNumbers(op, |all|)))
    ensures Are(TakenBy(content, op), all + GivenBy(op), TakenBy(places, WithNumbers(op, |all|)))
  {
    AreMore(content, all, places, GivenBy(op));
  }

  lemma AreBoth<T>(items: seq<T>, items': seq<T>, all: seq<T>, places: seq<nat>, places': seq<nat>)
    requires Are(items, all, places) && Are(items', all, places')
    ensures Are(items + items', all, places + places')
  {
  }

  /** What is taken, and what is still there, are the items given at the places the operations leave. */
  lemma {:induction false} PlacesTell<T>(ops: seq<Op<T>>)
    ensures Are(After(ops), Given(ops), After(Numbered(ops)))
    ensures Are(Taken(ops), Given(ops), Taken(Numbered(ops)))
    decreases |ops|
  {
    if ops != [] {
      var before, op := ops[..|ops| - 1], ops[|ops| - 1];
      var all := Given(before);
      NumberedLast(ops);
      PlacesTell(before);
      ApplyKeepsPlaces(After(before), all, After(Numbered(before)), op);
      AreMore(Taken(before), all, Taken(Numbered(before)), GivenBy(op));
      AreBoth(Taken(before), TakenBy(After(before), op), all + GivenBy(op), Taken(Numbered(before)),
              TakenBy(After(Numbered(before)), WithNumbers(op, |all|)));
    }
  }

  ghost predicate Below(places: seq<nat>, n: nat) {
    forall i :: 0 <= i < |places| ==> places[i] < n
  }

  lemma IncreasingMore(places: seq<nat>, n: nat, m: nat)
    requires Increasing(places) && Below(places, n)
    ensures Increasing(places + Numbers(n, m)) && Below(places + Numbers(n, m), n + m)
  {
  }

  lemma IncreasingFront(places: seq<nat>, k: nat, n: nat)
    requires Increasing(places) && Below(places, n) && k <= |places|
    ensures Increasing(places[..k]) && Below(places[..k], n)
  {
  }

  /** What is taken and left after an operation is the front of what there was and is given. */
  lemma FrontOfAll<T>(taken: seq<T>, content: seq<T>, op: Op<T>)
    ensures var all, after := taken + content + GivenBy(op), taken + TakenBy(content, op) + Apply(content, op);
            |after| <= |all| && after == all[..|after|]
  {
    var front, left, cut := TakenBy(content, op), Apply(content, op), CutBy(content, op);
    OneStep(content, op);
    assert taken + content + GivenBy(op) == taken + (front + left + cut);
    assert taken + (front + left + cut) == (taken + front + left) + cut;
  }

  lemma IncreasingOn(taken: seq<nat>, content: seq<nat>, op: Op<nat>, n: nat, m: nat)
    requires Increasing(taken + content) && Below(taken + content, n) && GivenBy(op) == Numbers(n, m)
    ensures Increasing(taken + TakenBy(content, op) + Apply(content, op))
    ensures Below(taken + TakenBy(content, op) + Apply(content, op), n + m)
  {
    IncreasingMore(taken + content, n, m);
    FrontOfAll(taken, content, op);
    IncreasingFront(taken + content + Numbers(n, m), |taken + TakenBy(content, op) + Apply(content, op)|, n + m);
  }

  /** Whatever is truncated in between, items leave in the order they were given in, those taken before those still
      there, and none twice. */
  lemma {:induction false} OrderIsKept<T>(ops: seq<Op<T>>)
    ensures Increasing(Taken(Numbered(ops)) + After(Numbered(ops)))
    ensures Below(Taken(Numbered(ops)) + After(Numbered(ops)), |Given(ops)|)
    decreases |ops|
  {
    if ops != [] {
      var before, op := ops[..|ops| - 1], ops[|ops| - 1];
      NumberedLast(ops);
      OrderIsKept(before);
      var n := |Given(before)|;
      IncreasingOn(Taken(Numbered(before)), After(Numbered(before)), WithNumbers(op, n), n, |GivenBy(op)|);
    }
  }

  /** Without truncation everything given is taken or still there. */
  lemma {:induction false} NothingIsCut<T>(ops: seq<Op<T>>)
    requires forall i :: 0 <= i < |ops| ==> !ops[i].Truncate?
    ensures Given(ops) == Taken(ops) + After(ops)
    decreases |ops|
  {
    if ops != [] {
      var before, op := ops[..|ops| - 1], ops[|ops| - 1];
      NothingIsCut(before);
      OneStep(After(before), op);
      Regroup(Taken(before), After(before), GivenBy(op), TakenBy(After(before), op), Apply(After(before), op));
    }
  }

  lemma Regroup<T>(taken: seq<T>, left: seq<T>, more: seq<T>, front: seq<T>, left': seq<T>)
    requires left + more == front + left' + []
    ensures taken + left + more == taken + front + left'
  {
    assert taken + left + more == taken + (left + more);
    assert taken + front + left' == taken + (front + left' + []);
  }

  class Buffer {
    var origBuffer: array<char>
    /** Where the live bytes begin in origBuffer. */
    var buffer: nat
    var misalign: nat
    var totallen: nat
    var off: nat

    ghost predicate Valid()
      reads this, origBuffer
    {
      buffer == misalign && misalign + off <= totallen == origBuffer.Length
    }

    ghost function Contents(): (s: seq<char>)
      requires Valid()
      reads this, origBuffer
      ensures |s| == off
    {
      origBuffer[buffer..buffer + off]
    }

    constructor ()
      ensures Valid() && Contents() == [] && fresh(origBuffer)
    {
      origBuffer := new char[0];
      buffer, misalign, totallen, off := 0, 0, 0, 0;
    }

    /** Moves the live bytes to the front of the allocation. */
    method Align()
      requires Valid()
      modifies this`buffer, this`misalign, origBuffer
      ensures Valid() && misalign == 0 && Contents() == old(Contents())
    {
      ghost var was := Contents();
      var i := 0;
      while i < off
        invariant 0 <= i <= off == |was| && Valid() && buffer == old(buffer)
        invariant forall k :: 0 <= k < i ==> origBuffer[k] == was[k]
        invariant forall k :: i <= k < off ==> origBuffer[buffer + k] == was[k]
      {
        origBuffer[i] := origBuffer[buffer + i];
        i := i + 1;
      }
      buffer, misalign := 0, 0;
      assert Contents() == was;
    }

    /** Makes room for datlen more bytes. */
    method Expand(datlen: nat)
      requires Valid()
      modifies this, origBuffer
      ensures Valid() && misalign + off + datlen <= totallen
      ensures Contents() == old(Contents()) && off == old(off)
      ensures origBuffer == old(origBuffer) || fresh(origBuffer)
    {
      var need := misalign + off + datlen;
      if totallen >= need {
        return;
      }
      if misalign >= datlen {
        Align();
      } else {
        var length := totallen;
        if length < 256 {
          length := 256;
        }
        while length < need
          invariant length >= 256 && length >= totallen
          decreases need - length
        {
          length := length * 2;
        }
        if buffer != 0 {
          Align();
        }
        var newbuf := new char[length];
        forall i | 0 <= i < off {
          newbuf[i] := origBuffer[i];
        }
        assert newbuf[..off] == origBuffer[..off];
        origBuffer, buffer := newbuf, 0;
        totallen := length;
      }
    }

    /** Writes the data behind the live bytes. */
    method Copy(data: seq<char>)
      requires Valid() && misalign + off + |data| <= totallen
      modifies origBuffer
      ensures Valid() && origBuffer[buffer..buffer + off + |data|] == old(Contents()) + data
    {
      ghost var was := Contents();
      forall i | 0 <= i < |data| {
        origBuffer[buffer + off + i] := data[i];
      }
      assert forall k :: 0 <= k < off ==> origBuffer[buffer + k] == was[k];
    }

    method Add(data: seq<char>)
      requires Valid()
      modifies this, origBuffer
      ensures Valid() && Contents() == Apply(old(Contents()), Op.Add(data))
      ensures origBuffer == old(origBuffer) || fresh(origBuffer)
    {
      var need := misalign + off + |data|;
      if totallen < need {
        Expand(|data|);
      }
      Copy(data);
      off := off + |data|;
    }

    /** Takes len bytes from the front, or all. */
    method Drain(len: nat)
      requires Valid()
      modifies this`buffer, this`misalign, this`off
      ensures Valid() && Contents() == Apply(old(Contents()), Op.Drain(len))
    {
      if len >= off {
        off := 0;
        buffer := 0;
        misalign := 0;
      } else {
        buffer := buffer + len;
        misalign := misalign + len;
        off := off - len;
      }
    }

    /** Takes up to datlen bytes from the front and gives them to the caller. */
    method Remove(datlen: nat) returns (data: seq<char>)
      requires Valid()
      modifies this`buffer, this`misalign, this`off
      ensures Valid() && data + Contents() == old(Contents()) && |data| == Least(datlen, |old(Contents())|)
    {
      var nread := datlen;
      if nread >= off {
        nread := off;
      }
      data := origBuffer[buffer..buffer + nread];
      Drain(nread);
    }

    /** Two buffers change places. */
    method ChangePlaces(inbuf: Buffer)
      requires Valid() && inbuf.Valid() && inbuf != this
      modifies this, inbuf
      ensures Valid() && inbuf.Valid() && origBuffer == old(inbuf.origBuffer) && inbuf.origBuffer == old(origBuffer)
      ensures Contents() == old(inbuf.Contents()) && inbuf.Contents() == old(Contents())
    {
      origBuffer, inbuf.origBuffer := inbuf.origBuffer, origBuffer;
      buffer, inbuf.buffer := inbuf.buffer, buffer;
      misalign, inbuf.misalign := inbuf.misalign, misalign;
      totallen, inbuf.totallen := inbuf.totallen, totallen;
      off, inbuf.off := inbuf.off, off;
    }

    /** Moves everything of another buffer to the end of this one; an empty buffer just changes places with it. */
    method AddBuffer(inbuf: Buffer)
      requires Valid() && inbuf.Valid() && inbuf != this && inbuf.origBuffer != origBuffer
      modifies this, origBuffer, inbuf
      ensures Valid() && inbuf.Valid() && inbuf.origBuffer != origBuffer
      ensures Contents() == old(Contents()) + old(inbuf.Contents()) && inbuf.Contents() == []
      ensures origBuffer == old(origBuffer) || origBuffer == old(inbuf.origBuffer) || fresh(origBuffer)
    {
      ghost var was, more := Contents(), inbuf.Contents();
      if off == 0 {
        ChangePlaces(inbuf);
        assert was + more == more;
      } else {
        Add(inbuf.origBuffer[inbuf.buffer..inbuf.buffer + inbuf.off]);
        inbuf.Drain(inbuf.off);
      }
    }

    /** Keeps the first len bytes; -1 if there are not more than that. */
    method Truncate(len: nat) returns (r: int)
      requires Valid()
      modifies this`off
      ensures Valid() && Contents() == Apply(old(Contents()), Op.Truncate(len))
      ensures r == if len < |old(Contents())| then 0 else -1
    {
      if len < off {
        off := len;
        return 0;
      }
      return -1;
    }

    /** Makes the live bytes a C string where they are. */
    method GetBuffer()
      requires Valid()
      modifies this, origBuffer
      ensures Valid() && Contents() == old(Contents()) && (origBuffer == old(origBuffer) || fresh(origBuffer))
      ensures buffer + off < origBuffer.Length && origBuffer[buffer + off] == '\0'
    {
      Expand(1);
      ghost var was := Contents();
      origBuffer[buffer + off] := '\0';
      assert Contents() == was;
    }

    /** Adds another buffer, which is filled first. */
    method AddFilled(data: seq<char>)
      requires Valid()
      modifies this, origBuffer
      ensures Valid() && (origBuffer == old(origBuffer) || fresh(origBuffer)) && Contents() == old(Contents()) + data
    {
      var other := new Buffer();
      other.Add(data);
      AddBuffer(other);
    }

    /** One operation on the buffer. */
    method Perform(op: Op<char>) returns (handed: seq<char>)
      requires Valid()
      modifies this, origBuffer
      ensures Valid() && (origBuffer == old(origBuffer) || fresh(origBuffer))
      ensures Contents() == Apply(old(Contents()), op) && handed == HandedBy(old(Contents()), op)
    {
      handed := [];
      match op {
        case Add(data) => Add(data);
        case AddBuffer(data) => AddFilled(data);
        case Drain(n) => Drain(n);
        case Remove(n) => handed := Remove(n);
        case Truncate(n) => var r := Truncate(n);
        case Expand(n) => Expand(n);
        case GetBuffer => GetBuffer();
      }
    }
  }

  /** Any operations, on a new buffer. */
  method PerformAll(ops: seq<Op<char>>) returns (b: Buffer, handed: seq<char>)
    ensures fresh(b) && b.Valid() && b.Contents() == After(ops) && handed == Handed(ops)
  {
    b := new Buffer();
    handed := [];
    var i := 0;
    while i < |ops|
      invariant 0 <= i <= |ops| && fresh(b) && b.Valid() && fresh(b.origBuffer)
      invariant b.Contents() == After(ops[..i]) && handed == Handed(ops[..i])
    {
      assert ops[..i + 1][..i] == ops[..i];
      var out := b.Perform(ops[i]);
      handed := handed + out;
      i := i + 1;
    }
    assert ops[..|ops|] == ops;
  }
}
