/** Heap order on a sequence of deadlines: what sifting an item up or down keeps. */
module HeapOrder {

  /** A deadline: seconds and microseconds. */
  datatype Key = Key(sec: int, usec: int)

  predicate Greater(a: Key, b: Key) {
    if a.sec == b.sec then a.usec > b.usec else a.sec > b.sec
  }

  /** The time itself, in microseconds. */
  function Micros(k: Key): int { 1000000 * k.sec + k.usec }

  /** What gettimeofday gives: less than a second of microseconds. */
  predicate IsTime(k: Key) { 0 <= k.usec < 1000000 }

  /** Of two times the greater is the later one. */
  lemma GreaterIsLater(a: Key, b: Key)
    requires IsTime(a) && IsTime(b)
    ensures Greater(a, b) <==> Micros(a) > Micros(b)
  {
  }

  function Parent(i: int): int { (i - 1) / 2 }

  ghost predicate Heap(ks: seq<Key>) {
    forall i {:trigger Parent(i)} :: 0 < i < |ks| ==> !Greater(ks[Parent(i)], ks[i])
  }

  /** A heap but for the item at h, which may be smaller than its ancestors. */
  ghost predicate UpOk(ks: seq<Key>, h: nat) {
    && h < |ks|
    && (forall i {:trigger Parent(i)} :: 0 < i < |ks| && i != h ==> !Greater(ks[Parent(i)], ks[i]))
    && (forall i {:trigger Parent(i)} :: 0 < i < |ks| && Parent(i) == h && 0 < h ==> !Greater(ks[Parent(h)], ks[i]))
  }

  /** A heap but for the item at h, which may be smaller than its ancestors or greater than its descendants. */
  ghost predicate HoleOk(ks: seq<Key>, h: nat) {
    && h < |ks|
    && (forall i {:trigger Parent(i)} :: 0 < i < |ks| && i != h && Parent(i) != h ==> !Greater(ks[Parent(i)], ks[i]))
    && (forall i {:trigger Parent(i)} :: 0 < i < |ks| && Parent(i) == h && 0 < h ==> !Greater(ks[Parent(h)], ks[i]))
  }

  function Swap<T>(s: seq<T>, i: nat, j: nat): (r: seq<T>)
    requires i < |s| && j < |s|
    ensures |r| == |s| && multiset(r) == multiset(s)
  {
    s[i := s[j]][j := s[i]]
  }

  lemma SwapUp(ks: seq<Key>, h: nat, p: nat)
    requires p == Parent(h) && UpOk(ks, h) && 0 < h && Greater(ks[p], ks[h])
    ensures UpOk(Swap(ks, h, p), p)
  {
  }

  lemma UpDone(ks: seq<Key>, h: nat)
    requires UpOk(ks, h) && (h == 0 || !Greater(ks[Parent(h)], ks[h]))
    ensures Heap(ks)
  {
  }

  /** c is the lesser child of h. */
  predicate IsMinChild(ks: seq<Key>, h: nat, c: nat) {
    && h < |ks| && c < |ks| && (c == 2 * h + 1 || c == 2 * h + 2)
    && (2 * h + 1 < |ks| ==> !Greater(ks[c], ks[2 * h + 1]))
    && (2 * h + 2 < |ks| ==> !Greater(ks[c], ks[2 * h + 2]))
  }

  lemma SwapDown(ks: seq<Key>, h: nat, c: nat)
    requires HoleOk(ks, h) && IsMinChild(ks, h, c)
    ensures Parent(c) == h && HoleOk(Swap(ks, h, c), c)
  {
  }

  lemma DownDone(ks: seq<Key>, h: nat)
    requires HoleOk(ks, h)
    requires 2 * h + 1 < |ks| ==> exists c: nat :: IsMinChild(ks, h, c) && !Greater(ks[h], ks[c])
    ensures UpOk(ks, h)
  {
  }

  /** Putting another item where one was leaves a heap but for that place. */
  lemma Replaced(ks: seq<Key>, h: nat, k: Key)
    requires Heap(ks) && h < |ks|
    ensures HoleOk(ks[h := k], h)
  {
  }

  lemma Appended(ks: seq<Key>, k: Key)
    requires Heap(ks)
    ensures UpOk(ks + [k], |ks|)
  {
  }

  lemma {:induction false} RootIsLeast(ks: seq<Key>, i: nat)
    requires Heap(ks) && i < |ks|
    ensures !Greater(ks[0], ks[i])
  {
    if i > 0 {
      RootIsLeast(ks, Parent(i));
    }
  }
}
