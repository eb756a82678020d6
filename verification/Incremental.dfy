/** Parsers that take what they can from the front of a buffer, one bite after another, and are given the
    rest again with more behind it. */
module Incremental {
  import opened Basics
  import opened HttpText

  /** What a parser becomes, and how many bytes it takes. */
  datatype Step<P> = Step(parser: P, taken: nat)

  type Bite<!P> = (P, string) -> Option<Step<P>>

  /** Every bite takes something or brings the parser nearer to its end. */
  ghost predicate Shrinks<P(!new)>(bite: Bite<P>, rank: P -> nat) {
    forall p, b :: bite(p, b).Some? ==>
      bite(p, b).value.taken <= |b| && (bite(p, b).value.taken > 0 || rank(bite(p, b).value.parser) < rank(p))
  }

  /** All the bites that can be taken from b. */
  function Run<P(!new)>(bite: Bite<P>, rank: P -> nat, p: P, b: string): (r: Step<P>)
    requires Shrinks(bite, rank)
    ensures r.taken <= |b|
    decreases |b|, rank(p)
  {
    var next := bite(p, b);
    if next.None? then Step(p, 0)
    else Further(next.value.taken, Run(bite, rank, next.value.parser, b[next.value.taken..]))
  }

  function Further<P>(n: nat, s: Step<P>): Step<P> {
    Step(s.parser, n + s.taken)
  }

  /** None of the bites taken from x would have been another with y behind it. */
  ghost predicate CutStands<P(!new)>(bite: Bite<P>, rank: P -> nat, p: P, x: string, y: string)
    requires Shrinks(bite, rank)
    decreases |x|, rank(p)
  {
    var next := bite(p, x);
    next.Some? ==> bite(p, x + y) == next && CutStands(bite, rank, next.value.parser, x[next.value.taken..], y)
  }

  /** Taking what can be taken from x, and then from the rest of it with y. */
  function Twice<P(!new)>(bite: Bite<P>, rank: P -> nat, p: P, x: string, y: string): Step<P>
    requires Shrinks(bite, rank)
  {
    var first := Run(bite, rank, p, x);
    Further(first.taken, Run(bite, rank, first.parser, x[first.taken..] + y))
  }

  /** Then the cut makes no difference. */
  lemma {:induction false} CutMakesNoDifference<P(!new)>(bite: Bite<P>, rank: P -> nat, p: P, x: string, y: string)
    requires Shrinks(bite, rank) && CutStands(bite, rank, p, x, y)
    ensures Run(bite, rank, p, x + y) == Twice(bite, rank, p, x, y)
    decreases |x|, rank(p)
  {
    var next := bite(p, x);
    assert x[0..] == x;
    if next.Some? {
      var n, q := next.value.taken, next.value.parser;
      assert (x + y)[n..] == x[n..] + y;
      CutMakesNoDifference(bite, rank, q, x[n..], y);
      var r := Run(bite, rank, q, x[n..]);
      assert x[n + r.taken..] == x[n..][r.taken..];
    }
  }

  /** A cut behind a first bite, the same with y behind it or not, matters exactly if it does without that bite. */
  lemma CutBehindFirst<P(!new)>(bite: Bite<P>, rank: P -> nat, p: P, q: P, x: string, y: string, n: nat)
    requires Shrinks(bite, rank) && n <= |x| && Run(bite, rank, p, x) == Further(n, Run(bite, rank, q, x[n..]))
    requires Run(bite, rank, p, x + y) == Further(n, Run(bite, rank, q, (x + y)[n..]))
    ensures Run(bite, rank, p, x + y) == Twice(bite, rank, p, x, y) <==>
            Run(bite, rank, q, x[n..] + y) == Twice(bite, rank, q, x[n..], y)
  {
    assert (x + y)[n..] == x[n..] + y;
    var k := Run(bite, rank, q, x[n..]).taken;
    assert x[n + k..] == x[n..][k..];
  }

  /** One run for each fragment, on what the runs before it did not take and the fragment. */
  function Feed<P(!new)>(bite: Bite<P>, rank: P -> nat, p: P, pending: string, fragments: seq<string>): Step<P>
    requires Shrinks(bite, rank)
    decreases |fragments|
  {
    if fragments == [] then Step(p, 0)
    else
      var b := pending + fragments[0];
      var r := Run(bite, rank, p, b);
      Further(r.taken, Feed(bite, rank, r.parser, b[r.taken..], fragments[1..]))
  }
}
