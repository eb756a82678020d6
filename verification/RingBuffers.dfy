/** The two growing ring buffers: the message queue's, masked by a power of two, and the C++
    queue's, reduced by remainder.  Both are first-in-first-out sequences across wrap and growth. */
module RingBuffers {
  import opened Bits

  /** The count entries from head on, going round at the end of the array. */
  ghost function Window<T>(entries: seq<T>, head: nat, count: nat): (r: seq<T>)
    requires head < |entries| && count <= |entries|
    ensures |r| == count
  {
    if head + count <= |entries| then entries[head..head + count]
    else entries[head..] + entries[..head + count - |entries|]
  }

  predicate RingFits(size: nat, head: nat, tail: nat, count: nat) {
    && head < size && tail < size && count <= size
    && tail == if head + count < size then head + count else head + count - size
  }

  /** Writing at the tail of a ring that is not full appends. */
  lemma WindowAppend<T>(entries: seq<T>, head: nat, tail: nat, count: nat, x: T)
    requires RingFits(|entries|, head, tail, count) && count < |entries|
    ensures Window(entries[tail := x], head, count + 1) == Window(entries, head, count) + [x]
  {
  }

  lemma WindowRest<T>(entries: seq<T>, head: nat, count: nat)
    requires head < |entries| && 0 < count <= |entries|
    ensures Window(entries, head, count) ==
              [entries[head]] + Window(entries, if head + 1 == |entries| then 0 else head + 1, count - 1)
  {
  }

  /** The remainder takes the next index round at the end. */
  lemma WrapByRemainder(x: nat, n: nat)
    requires 0 < n && x <= n
    ensures x % n == if x == n then 0 else x
  {
  }

  /** And so does masking with a power of two less one: the two rings go round alike. */
  lemma MaskNext(x: nat, n: nat)
    requires IsPow2(n) && x < n
    ensures And(x + 1, n - 1) == (x + 1) % n == if x + 1 == n then 0 else x + 1
  {
    var k: nat :| n == Pow2(k);
    MaskIsRemainder(x + 1, k);
    WrapByRemainder(x + 1, n);
  }

  /** What both grow operations copy: the head chunk, then the tail chunk. */
  lemma WindowChunks<T>(entries: seq<T>, head: nat, tail: nat, count: nat)
    requires RingFits(|entries|, head, tail, count) && count > 0
    ensures Window(entries, head, count) ==
        if head < tail then entries[head..tail] else entries[head..] + entries[..tail]
    ensures count == if head < tail then tail - head else |entries| - head + tail
  {
  }

  /** circqueue: a queue of at most maxEntries items, or an unbounded one if that is 0. */
  class CircQueue<T(0)> {
    var head: nat
    var tail: nat
    var count: nat
    var maxEntries: nat
    var arrayElements: nat
    var entries: array<T>

    ghost predicate Valid()
      reads this
    {
      && arrayElements == entries.Length && IsPow2(arrayElements)
      && RingFits(arrayElements, head, tail, count)
      && (maxEntries != 0 ==> count <= maxEntries <= arrayElements)
    }

    ghost function Contents(): seq<T>
      requires Valid()
      reads this, entries
    {
      Window(entries[..], head, count)
    }

    /** A size above 2^31 is excluded: NextPow2 has no answer for it and the array would be too small. */
    constructor (size: nat)
      requires size <= 0x8000_0000
      ensures Valid() && Contents() == [] && maxEntries == size && fresh(entries)
      ensures size == 0 ==> arrayElements == 1024
    {
      head, tail, count := 0, 0, 0;
      maxEntries := size;
      var elements := 1024;
      if size != 0 {
        elements := NextPow2(size);
      }
      assert size == 0 ==> 1024 == Pow2(10);
      arrayElements := elements;
      entries := new T[elements];
    }

    /** Doubling: the items move to the start of an array of twice the size. */
    method Grow()
      requires Valid() && count > 0
      modifies this
      ensures Valid() && Contents() == old(Contents()) && fresh(entries)
      ensures arrayElements == 2 * old(arrayElements) && count == old(count) && maxEntries == old(maxEntries)
    {
      ghost var was := Contents();
      WindowChunks(entries[..], head, tail, count);
      var newSize := arrayElements * 2;
      var newEntries := new T[newSize];
      var headChunk, tailChunk := 0, 0;
      if head < tail {
        headChunk := tail - head;
      } else {
        headChunk := arrayElements - head;
        tailChunk := tail;
      }
      forall i | 0 <= i < headChunk {
        newEntries[i] := entries[head + i];
      }
      forall i | 0 <= i < tailChunk {
        newEntries[headChunk + i] := entries[i];
      }
      assert newEntries[..count] == was;
      ghost var k: nat :| arrayElements == Pow2(k);
      assert newSize == Pow2(k + 1);
      head := 0;
      tail := headChunk + tailChunk;
      arrayElements := newSize;
      entries := newEntries;
    }

    /** Returns -1, changing nothing, if the queue is bounded and full. */
    method PushTail(elem: T) returns (r: int)
      requires Valid()
      modifies this, entries
      ensures Valid() && maxEntries == old(maxEntries) && (entries == old(entries) || fresh(entries))
      ensures r == if maxEntries != 0 && old(count) == maxEntries then -1 else 0
      ensures Contents() == if r == 0 then old(Contents()) + [elem] else old(Contents())
    {
      if maxEntries != 0 {
        if count == maxEntries {
          return -1;
        }
      } else if count == arrayElements {
        assert head == tail;
        Grow();
      }
      Store(elem);
      r := 0;
    }

    method Store(elem: T)
      requires Valid() && count < arrayElements && (maxEntries != 0 ==> count < maxEntries)
      modifies this`count, this`tail, entries
      ensures Valid() && Contents() == old(Contents()) + [elem]
    {
      WindowAppend(entries[..], head, tail, count, elem);
      MaskNext(tail, arrayElements);
      count := count + 1;
      entries[tail] := elem;
      tail := tail + 1;
      tail := And(tail, arrayElements - 1);
    }

    method PopHead() returns (found: bool, data: T)
      requires Valid()
      modifies this
      ensures Valid() && entries == old(entries) && maxEntries == old(maxEntries)
      ensures found == (old(Contents()) != [])
      ensures found ==> old(Contents()) == [data] + Contents()
      ensures !found ==> Contents() == old(Contents())
    {
      if count == 0 {
        data := *;
        return false, data;
      }
      WindowRest(entries[..], head, count);
      MaskNext(head, arrayElements);
      count := count - 1;
      data := entries[head];
      head := head + 1;
      head := And(head, arrayElements - 1);
      found := true;
    }
  }

  /** SP_CircleQueue: unbounded, growing by half. */
  class CircleQueue<T(0)> {
    var entries: array<T>
    var maxCount: nat
    var head: nat
    var tail: nat
    var count: nat

    ghost predicate Valid()
      reads this
    {
      maxCount == entries.Length && RingFits(maxCount, head, tail, count)
    }

    ghost function Contents(): seq<T>
      requires Valid()
      reads this, entries
    {
      Window(entries[..], head, count)
    }

    constructor ()
      ensures Valid() && Contents() == [] && fresh(entries)
    {
      maxCount := 8;
      entries := new T[8];
      head, tail, count := 0, 0, 0;
    }

    method Grow()
      requires Valid() && count > 0
      modifies this
      ensures Valid() && Contents() == old(Contents()) && fresh(entries)
      ensures maxCount == old(maxCount) * 3 / 2 + 1 > old(maxCount) && count == old(count)
    {
      ghost var was := Contents();
      WindowChunks(entries[..], head, tail, count);
      maxCount := maxCount * 3 / 2 + 1;
      var newEntries := new T[maxCount];
      var headLen, tailLen := 0, 0;
      if head < tail {
        headLen := tail - head;
      } else {
        headLen := count - tail;
        tailLen := tail;
      }
      forall i | 0 <= i < headLen {
        newEntries[i] := entries[head + i];
      }
      forall i | 0 <= i < tailLen {
        newEntries[headLen + i] := entries[i];
      }
      assert newEntries[..count] == was;
      head := 0;
      tail := headLen + tailLen;
      entries := newEntries;
    }

    method Push(item: T)
      requires Valid()
      modifies this, entries
      ensures Valid() && Contents() == old(Contents()) + [item]
      ensures entries == old(entries) || fresh(entries)
    {
      if count >= maxCount {
        assert head == tail;
        Grow();
      }
      Store(item);
    }

    method Store(item: T)
      requires Valid() && count < maxCount
      modifies this`tail, this`count, entries
      ensures Valid() && Contents() == old(Contents()) + [item]
    {
      WindowAppend(entries[..], head, tail, count, item);
      WrapByRemainder(tail + 1, maxCount);
      entries[tail] := item;
      tail := tail + 1;
      tail := tail % maxCount;
      count := count + 1;
    }

    method Pop() returns (found: bool, item: T)
      requires Valid()
      modifies this
      ensures Valid() && entries == old(entries)
      ensures found == (old(Contents()) != [])
      ensures found ==> old(Contents()) == [item] + Contents()
      ensures !found ==> Contents() == old(Contents())
    {
      found := count > 0;
      item := *;
      if found {
        WindowRest(entries[..], head, count);
        WrapByRemainder(head + 1, maxCount);
        item := entries[head];
        head := head + 1;
        head := head % maxCount;
        count := count - 1;
      }
    }
  }

  /** The array of a bounded queue holds the bound exactly for the sizes that a 32-bit power of two covers;
      above that it falls back to 1024 entries. */
  method ArraySize(size: nat) returns (elements: nat)
    requires size < WORD
    ensures size <= elements <==> size <= 0x8000_0000
  {
    elements := 0;
    if size != 0 {
      elements := NextPow2(size);
    }
    if elements == 0 {
      elements := 1024;
    }
  }
}
