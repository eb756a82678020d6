/** Dot-stuffed text (section 4.5.2 of RFC 5321): finding the terminator, and taking the extra dots out. */
module DotText {

  const CRLF_DOT: string := "\r\n.\r\n"
  const LF_DOT: string := "\n.\n"

  predicate At(b: string, key: string, i: int) {
    0 <= i && i + |key| <= |b| && b[i..i + |key|] == key
  }

  /** The first place of the key from k on, or -1. */
  function First(b: string, key: string, k: nat): (i: int)
    ensures i >= -1 && (i >= 0 ==> k <= i && At(b, key, i))
    ensures forall j :: k <= j && (i < 0 || j < i) ==> !At(b, key, j)
    decreases |b| - k
  {
    if k + |key| > |b| then -1 else if At(b, key, k) then k else First(b, key, k + 1)
  }

  lemma FirstIs(b: string, key: string, i: nat)
    requires At(b, key, i) && forall j :: 0 <= j < i ==> !At(b, key, j)
    ensures First(b, key, 0) == i
  {
  }

  lemma FirstIsNone(b: string, key: string)
    requires forall j :: 0 <= j ==> !At(b, key, j)
    ensures First(b, key, 0) < 0
  {
  }

  /** Where the text ends: the first CR LF . CR LF, or if there is none the first LF . LF, or -1. */
  function Terminator(b: string): (i: int)
    ensures i >= 0 ==> At(b, CRLF_DOT, i) || At(b, LF_DOT, i)
    ensures i < 0 <==> First(b, CRLF_DOT, 0) < 0 && First(b, LF_DOT, 0) < 0
  {
    if First(b, CRLF_DOT, 0) >= 0 then First(b, CRLF_DOT, 0) else First(b, LF_DOT, 0)
  }

  function TerminatorLen(b: string, i: int): nat {
    if At(b, LF_DOT, i) then 3 else 5
  }

  /** Without the dots that follow an LF; prev is the character before s. */
  function Remove(prev: char, s: string): (r: string)
    ensures |r| <= |s|
    decreases |s|
  {
    if s == [] then []
    else if s[0] == '.' && prev == '\n' then Remove('.', s[1..])
    else [s[0]] + Remove(s[0], s[1..])
  }

  /** The text without the extra dots; one that begins the text stays. */
  function Unstuff(s: string): string {
    if s == [] then [] else [s[0]] + Remove(s[0], s[1..])
  }

  /** With a dot before every dot that follows an LF. */
  function Add(prev: char, s: string): (r: string)
    ensures |r| >= |s| && (s != [] ==> r != [] && r[0] == s[0])
    decreases |s|
  {
    if s == [] then []
    else if s[0] == '.' && prev == '\n' then ".." + Add('.', s[1..])
    else [s[0]] + Add(s[0], s[1..])
  }

  function Stuff(s: string): (r: string)
    ensures |r| >= |s| && (s != [] ==> r != [] && r[0] == s[0])
  {
    if s == [] then [] else [s[0]] + Add(s[0], s[1..])
  }

  lemma {:induction false} RemoveUndoesAdd(prev: char, s: string)
    ensures Remove(prev, Add(prev, s)) == s
    decreases |s|
  {
    if s != [] {
      var rest := Add(s[0], s[1..]);
      RemoveUndoesAdd(s[0], s[1..]);
      if s[0] == '.' && prev == '\n' {
        assert (".." + rest)[1..] == "." + rest;
        assert ("." + rest)[1..] == rest;
      } else {
        assert ([s[0]] + rest)[1..] == rest;
      }
    }
  }

  /** Taking the dots out undoes putting them in, for every text. */
  lemma UnstuffUndoesStuff(s: string)
    ensures Unstuff(Stuff(s)) == s
  {
    if s != [] {
      RemoveUndoesAdd(s[0], s[1..]);
      assert Stuff(s)[1..] == Add(s[0], s[1..]);
    }
  }

  /** As the standard has it, a dot that begins the first line is doubled too. */
  function StuffByStandard(s: string): string {
    if s != [] && s[0] == '.' then "." + Stuff(s) else Stuff(s)
  }

  /** That dot is not taken out again. */
  lemma UnstuffKeepsTheFirstDot(s: string)
    ensures Unstuff(StuffByStandard(s)) == s <==> !(s != [] && s[0] == '.')
  {
    UnstuffUndoesStuff(s);
    if s != [] && s[0] == '.' {
      var t := Stuff(s);
      assert ("." + t)[1..] == t;
      assert t[1..] == Add('.', s[1..]);
      RemoveUndoesAdd('.', s[1..]);
    }
  }

  // ----- a stuffed text contains no terminator -----

  predicate DotBehindLf(s: string, i: nat) {
    i + 1 < |s| && s[i] == '\n' && s[i + 1] == '.'
  }

  /** Every dot behind an LF has a dot behind it. */
  ghost predicate Stuffed(s: string) {
    forall i: nat {:trigger DotBehindLf(s, i)} :: DotBehindLf(s, i) ==> i + 2 < |s| && s[i + 2] == '.'
  }

  lemma {:induction false} AddIsStuffed(prev: char, s: string)
    ensures Stuffed([prev] + Add(prev, s))
    decreases |s|
  {
    if s != [] {
      var rest := Add(s[0], s[1..]);
      AddIsStuffed(s[0], s[1..]);
      var t := [s[0]] + rest;
      var u := [prev] + Add(prev, s);
      var k := if s[0] == '.' && prev == '\n' then 2 else 1;
      assert u == (if k == 2 then ['\n', '.'] else [prev]) + t;
      forall i: nat {:trigger DotBehindLf(u, i)} | DotBehindLf(u, i) ensures i + 2 < |u| && u[i + 2] == '.' {
        assert i >= k ==> DotBehindLf(t, i - k);
      }
    }
  }

  lemma StuffIsStuffed(s: string)
    ensures Stuffed(Stuff(s))
  {
    if s != [] {
      AddIsStuffed(s[0], s[1..]);
    }
  }

  lemma AtMeans(b: string, i: int)
    ensures At(b, LF_DOT, i) <==> 0 <= i && i + 3 <= |b| && b[i] == '\n' && b[i + 1] == '.' && b[i + 2] == '\n'
    ensures At(b, CRLF_DOT, i) <==>
              && 0 <= i && i + 5 <= |b|
              && b[i] == '\r' && b[i + 1] == '\n' && b[i + 2] == '.' && b[i + 3] == '\r' && b[i + 4] == '\n'
  {
  }

  /** In a stuffed text with its terminator, and whatever follows, there is no terminator before that. */
  lemma NoneBefore(t: string, rest: string, i: int)
    requires Stuffed(t) && 0 <= i < |t| + 3
    ensures !At(t + CRLF_DOT + rest, LF_DOT, i)
    ensures i != |t| ==> !At(t + CRLF_DOT + rest, CRLF_DOT, i)
  {
    var b := t + CRLF_DOT + rest;
    assert forall j :: 0 <= j < |t| ==> b[j] == t[j];
    assert b[|t|] == '\r' && b[|t| + 1] == '\n' && b[|t| + 2] == '.' && b[|t| + 3] == '\r' && b[|t| + 4] == '\n';
    AtMeans(b, i);
    assert DotBehindLf(t, i) || !DotBehindLf(t, i);
    assert DotBehindLf(t, i + 1) || !DotBehindLf(t, i + 1);
  }
}
