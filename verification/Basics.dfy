/** What several of the other modules use: a value that may be missing, and lists of pieces put together. */
module Basics {

  datatype Option<T> = None | Some(value: T)

  function Concat<T>(pieces: seq<seq<T>>): seq<T> {
    if pieces == [] then [] else pieces[0] + Concat(pieces[1..])
  }

  lemma {:induction false} ConcatSnoc<T>(pieces: seq<seq<T>>, last: seq<T>)
    ensures Concat(pieces + [last]) == Concat(pieces) + last
    decreases |pieces|
  {
    if pieces == [] {
      assert Concat([last]) == last + Concat([last][1..]);
    } else {
      assert (pieces + [last])[1..] == pieces[1..] + [last];
      ConcatSnoc(pieces[1..], last);
    }
  }

  lemma {:induction false} ConcatSplit<T>(pieces: seq<seq<T>>, j: nat)
    requires j <= |pieces|
    ensures Concat(pieces) == Concat(pieces[..j]) + Concat(pieces[j..])
    decreases j
  {
    if j == 0 {
      assert pieces[0..] == pieces;
    } else {
      ConcatSplit(pieces[1..], j - 1);
      assert pieces[..j][1..] == pieces[1..][..j - 1] && pieces[1..][j - 1..] == pieces[j..];
    }
  }

  lemma ConcatNext<T>(pieces: seq<seq<T>>, j: nat)
    requires j < |pieces|
    ensures Concat(pieces[..j + 1]) == Concat(pieces[..j]) + pieces[j]
  {
    assert pieces[..j + 1] == pieces[..j] + [pieces[j]];
    ConcatSnoc(pieces[..j], pieces[j]);
  }
}
