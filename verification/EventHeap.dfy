/** The timer heap: a binary heap of event objects by deadline, in which every event knows its own
    index so that it can be erased from the middle. */
module EventHeap {
  import opened HeapOrder

  class Event {
    var deadline: Key
    /** Its index in the heap, or -1. */
    var heapIndex: int

    constructor (deadline: Key)
      ensures this.deadline == deadline && heapIndex == -1
    {
      this.deadline, heapIndex := deadline, -1;
    }
  }

  ghost predicate Timed(es: seq<Event>, ks: seq<Key>)
    reads es
  {
    |es| == |ks| && forall i :: 0 <= i < |es| ==> ks[i] == es[i].deadline
  }

  /** An event stands nowhere else than at i. */
  ghost predicate OnlyAt(es: seq<Event>, i: nat) {
    i < |es| && forall k :: 0 <= k < |es| && k != i ==> es[k] != es[i]
  }

  class EventHeap {
    var entries: array<Event?>
    var count: nat
    /** The events in the heap, in the order of the array. */
    ghost var events: seq<Event>

    /** The array begins with es, but for the hole, and those events know their index. */
    ghost predicate Stored(es: seq<Event>, hole: int)
      reads this, entries, es
    {
      && |es| <= entries.Length
      && forall i :: 0 <= i < |es| && i != hole ==> entries[i] == es[i] && es[i].heapIndex == i
    }

    ghost predicate Ordered()
      reads this, events
    {
      exists ks :: Timed(events, ks) && Heap(ks)
    }

    ghost predicate Valid()
      reads this, entries, events
    {
      && count == |events| && Stored(events, -1) && Ordered()
    }

    /** No event but a member is thought to be one. */
    ghost predicate Holds(e: Event)
      reads this, e
    {
      e.heapIndex != -1 ==> e in events
    }

    constructor ()
      ensures Valid() && events == [] && fresh(entries)
    {
      entries := new Event?[0];
      count := 0;
      events := [];
      new;
      assert Timed(events, []);
    }

    /** An event that stands in two places cannot know both of them. */
    lemma OncePerEvent(es: seq<Event>, item: Event)
      requires multiset(es) == multiset(events) + multiset{item} && Stored(es, -1)
      ensures item !in events
    {
      if item in events {
        assert multiset(es)[item] >= 2;
        TwoPlaces(es, item);
      }
    }

    /** The item belongs into the hole; ks are the deadlines of es. */
    ghost predicate Loose(es: seq<Event>, ks: seq<Key>, hole: nat, item: Event)
      reads this, entries, es
    {
      Stored(es, hole) && OnlyAt(es, hole) && es[hole] == item && Timed(es, ks)
    }

    /** The entry at `from` moves to the hole, which is then at `from`. */
    method Fill(hole: nat, from: nat, ghost moved: Event, ghost item: Event, ghost es: seq<Event>, ghost ks: seq<Key>)
      returns (ghost es': seq<Event>, ghost ks': seq<Key>)
      requires Loose(es, ks, hole, item) && from < |es| && from != hole && moved == es[from]
      modifies entries, moved`heapIndex
      ensures es' == Swap(es, hole, from) && ks' == Swap(ks, hole, from) && Loose(es', ks', from, item)
    {
      es', ks' := Swap(es, hole, from), Swap(ks, hole, from);
      entries[hole] := entries[from];
      entries[hole].heapIndex := hole;
    }

    /** The item comes to rest in the hole. */
    method Place(hole: nat, item: Event, ghost es: seq<Event>, ghost ks: seq<Key>)
      requires Loose(es, ks, hole, item)
      modifies entries, item`heapIndex
      ensures Stored(es, -1) && Timed(es, ks)
    {
      entries[hole] := item;
      item.heapIndex := hole;
    }

    /** The item moves up from the hole to its place. */
    method ShiftUp(start: nat, item: Event, ghost es: seq<Event>, ghost ks: seq<Key>)
      returns (ghost es': seq<Event>, ghost ks': seq<Key>)
      requires Loose(es, ks, start, item) && UpOk(ks, start)
      modifies entries, es`heapIndex
      ensures |es'| == |es| && multiset(es') == multiset(es) && Stored(es', -1) && Timed(es', ks') && Heap(ks')
      ensures start == 0 || !Greater(ks[Parent(start)], ks[start]) ==> es' == es && ks' == ks
    {
      var index := start;
      var parent := (index - 1) / 2;
      es', ks' := es, ks;
      while index != 0 && Greater(entries[parent].deadline, item.deadline)
        invariant 0 <= index < |es'| == |ks'| == |es| && parent == Parent(index)
        invariant multiset(es') == multiset(es)
        invariant Loose(es', ks', index, item) && UpOk(ks', index)
        invariant index == start || Greater(ks[Parent(start)], ks[start])
        invariant index == start ==> es' == es && ks' == ks
        decreases index
      {
        SwapUp(ks', index, parent);
        assert es'[parent] in multiset(es');
        es', ks' := Fill(index, parent, es'[parent], item, es', ks');
        index := parent;
        parent := (index - 1) / 2;
      }
      UpDone(ks', index);
      SameMembers(es', es);
      Place(index, item, es', ks');
    }

    /** The item moves down from the hole, or up, to its place. */
    method ShiftDown(start: nat, item: Event, ghost es: seq<Event>, ghost ks: seq<Key>)
      returns (ghost es': seq<Event>, ghost ks': seq<Key>)
      requires Loose(es, ks, start, item) && HoleOk(ks, start)
      requires count == |es| || (start == count && |es| == count + 1)
      modifies entries, es`heapIndex
      ensures |es'| == |es| && multiset(es') == multiset(es) && Stored(es', -1) && Timed(es', ks') && Heap(ks')
      ensures start == count && (start == 0 || !Greater(ks[Parent(start)], ks[start])) ==> es' == es && ks' == ks
    {
      var index := start;
      var minChild := 2 * (index + 1);
      es', ks' := es, ks;
      while minChild <= count
        invariant start <= index < |es'| == |ks'| == |es| && minChild == 2 * (index + 1)
        invariant multiset(es') == multiset(es)
        invariant Loose(es', ks', index, item) && HoleOk(ks', index)
        invariant start == count ==> es' == es && ks' == ks && index == start
        decreases |es| - index
      {
        if minChild == count || Greater(entries[minChild].deadline, entries[minChild - 1].deadline) {
          minChild := minChild - 1;
        }
        assert IsMinChild(ks', index, minChild);
        if !Greater(item.deadline, entries[minChild].deadline) {
          break;
        }
        SwapDown(ks', index, minChild);
        assert es'[minChild] in multiset(es');
        es', ks' := Fill(index, minChild, es'[minChild], item, es', ks');
        index := minChild;
        minChild := 2 * (index + 1);
      }
      DownDone(ks', index);
      SameMembers(es', es);
      es', ks' := ShiftUp(index, item, es', ks');
    }

    /** Makes room for n entries. */
    method Reserve(n: nat)
      requires Valid()
      modifies this`entries
      ensures Valid() && n <= entries.Length && (entries == old(entries) || fresh(entries))
    {
      if entries.Length < n {
        var maxCount := if entries.Length != 0 then entries.Length * 2 else 8;
        if maxCount < n {
          maxCount := n;
        }
        var p := new Event?[maxCount];
        forall i | 0 <= i < count {
          p[i] := entries[i];
        }
        entries := p;
      }
    }

    method Push(item: Event)
      requires Valid() && item !in events
      modifies this, entries, item`heapIndex, events`heapIndex
      ensures Valid() && multiset(events) == multiset(old(events)) + multiset{item}
      ensures entries == old(entries) || fresh(entries)
    {
      Reserve(count + 1);
      ghost var ks :| Timed(events, ks) && Heap(ks);
      Appended(ks, item.deadline);
      count := count + 1;
      ghost var ks';
      events, ks' := ShiftUp(count - 1, item, events + [item], ks + [item.deadline]);
      assert Stored(events, -1) && Timed(events, ks');
    }

    lemma RootIsMinimal()
      requires Valid() && count > 0
      ensures forall x :: x in events ==> !Greater(events[0].deadline, x.deadline)
    {
      var ks :| Timed(events, ks) && Heap(ks);
      forall i | 0 <= i < |events| ensures !Greater(events[0].deadline, events[i].deadline) {
        RootIsLeast(ks, i);
      }
    }

    /** An event with the earliest deadline, or null. */
    function Top(): (e: Event?)
      requires Valid()
      reads this, entries, events
      ensures e == null <==> events == []
      ensures e != null ==> e in events && forall x :: x in events ==> !Greater(e.deadline, x.deadline)
    {
      if count == 0 then null else
        RootIsMinimal();
        entries[0]
    }

    /** With the last event in the place of another, only that place is out of order. */
    lemma LastMoved(ks: seq<Key>, index: nat)
      requires Stored(events, -1) && Timed(events, ks) && Heap(ks) && index < |events| - 1
      ensures HoleOk(Without(ks, index), index)
      ensures Loose(Without(events, index), Without(ks, index), index, events[|events| - 1])
    {
    }

    /** Sifts the last event into the place of the one at index, which is then in no place. */
    method Replace(index: nat, item: Event, ghost ks: seq<Key>) returns (ghost es': seq<Event>, ghost ks': seq<Key>)
      requires Stored(events, -1) && Timed(events, ks) && Heap(ks)
      requires |events| == count + 1 && index < count && item == events[index]
      modifies entries, events`heapIndex
      ensures |es'| == count && multiset(es') == multiset(events) - multiset{item} && item !in es'
      ensures Stored(es', -1) && Timed(es', ks') && Heap(ks')
    {
      LastMoved(ks, index);
      ghost var es1 := Without(events, index);
      es', ks' := ShiftDown(index, entries[count], es1, Without(ks, index));
      SameMembers(es', es1);
    }

    /** Sifts the last event from the place after the last, where it stays. */
    method ReplaceLast(item: Event, ghost ks: seq<Key>) returns (ghost es': seq<Event>, ghost ks': seq<Key>)
      requires Stored(events, -1) && Timed(events, ks) && Heap(ks)
      requires |events| == count + 1 && item == events[count]
      modifies entries, events`heapIndex
      ensures es' == Without(events, count) && item !in es'
      ensures Stored(es', -1) && Timed(es', ks') && Heap(ks')
    {
      Replaced(ks, count, ks[count]);
      assert ks[count := ks[count]] == ks;
      es', ks' := ShiftDown(count, item, events, ks);
      es', ks' := es'[..count], ks'[..count];
    }

    /** Takes the event at index out; the last one fills its place. */
    method RemoveAt(index: nat, item: Event)
      requires Valid() && index < count && item == events[index]
      modifies this`count, this`events, entries, events`heapIndex
      ensures Valid() && multiset(events) == multiset(old(events)) - multiset{item} && item.heapIndex == -1
      ensures item !in events
    {
      ghost var ks :| Timed(events, ks) && Heap(ks);
      count := count - 1;
      if index == count {
        events, ks := ReplaceLast(entries[count], ks);
      } else {
        events, ks := Replace(index, item, ks);
      }
      item.heapIndex := -1;
      assert Stored(events, -1) && Timed(events, ks);
    }

    /** Takes out an event with the earliest deadline. */
    method Pop() returns (e: Event?)
      requires Valid()
      modifies this`count, this`events, entries, events`heapIndex
      ensures Valid() && (e == null <==> old(events) == []) && (e == null ==> events == [])
      ensures e != null ==>
                && e in old(events) && e !in events && multiset(events) == multiset(old(events)) - multiset{e}
                    && e.heapIndex == -1
                && forall x :: x in old(events) ==> !Greater(e.deadline, x.deadline)
    {
      if count == 0 {
        return null;
      }
      RootIsMinimal();
      e := entries[0];
      RemoveAt(0, e);
    }

    /** Takes out the given event, wherever it is; -1 if it is in no heap. */
    method Erase(item: Event) returns (r: int)
      requires Valid() && Holds(item)
      modifies this`count, this`events, entries, events`heapIndex
      ensures Valid() && multiset(events) == multiset(old(events)) - multiset{item} && item.heapIndex == -1
      ensures item !in events
      ensures r == if item in old(events) then 0 else -1
    {
      if item.heapIndex != -1 {
        RemoveAt(item.heapIndex, item);
        return 0;
      }
      return -1;
    }
  }

  lemma {:induction false} TwoPlaces<T>(s: seq<T>, x: T)
    requires multiset(s)[x] >= 2
    ensures exists i, j :: 0 <= i < j < |s| && s[i] == s[j] == x
    decreases |s|
  {
    var n := |s| - 1;
    assert s == s[..n] + [s[n]];
    if s[n] == x {
      assert x in multiset(s[..n]);
      var i :| 0 <= i < n && s[..n][i] == x;
      assert s[i] == s[n] == x;
    } else {
      TwoPlaces(s[..n], x);
      var i, j :| 0 <= i < j < n && s[..n][i] == s[..n][j] == x;
      assert s[i] == s[j] == x;
    }
  }

  /** With x gone for good, the others remain. */
  lemma Removed<T>(s: seq<T>, t: seq<T>, x: T)
    requires multiset(t) == multiset(s) - multiset{x} && x !in t
    ensures |t| == if x in s then |s| - 1 else |s|
    ensures forall y :: y in t <==> y in s && y != x
    ensures forall i :: 0 <= i < |t| ==> t[i] in s
  {
    assert |multiset(t)| == |t| && |multiset(s)| == |s|;
    assert x in s <==> x in multiset(s);
    forall y ensures y in t <==> y in s && y != x {
      assert y in s <==> y in multiset(s);
      assert y in t <==> y in multiset(t);
    }
  }

  lemma SameMembers<T>(s: seq<T>, t: seq<T>)
    requires multiset(s) == multiset(t)
    ensures forall x :: x in s <==> x in t
    ensures forall i :: 0 <= i < |s| ==> s[i] in t
  {
    forall x ensures x in s <==> x in t {
      assert x in s <==> x in multiset(s);
      assert x in t <==> x in multiset(t);
    }
  }

  /** The last element takes the place of the one at i. */
  function Without<T>(s: seq<T>, i: nat): (r: seq<T>)
    requires i < |s|
    ensures |r| == |s| - 1 && multiset(r) == multiset(s) - multiset{s[i]}
  {
    assert s == s[..|s| - 1] + [s[|s| - 1]];
    if i == |s| - 1 then s[..i] else s[..|s| - 1][i := s[|s| - 1]]
  }
}
