/** Text whose lines end with LF alone, so that its terminator is LF . LF: both decoders take it as well,
    unless CR LF . CR LF has arrived behind it, which they look for first. */
module DotLineFeeds {
  import opened Basics
  import opened HttpText
  import opened DotText
  import opened DotDecoders
  import opened DotRefinement

  lemma LfAtMeans(t: string, rest: string)
    ensures var b := t + LF_DOT + rest;
            && b[|t|] == '\n' && b[|t| + 1] == '.' && b[|t| + 2] == '\n' && At(b, LF_DOT, |t|)
            && b[..|t|] == t && b[|t| + 3..] == rest
  {
    var b := t + LF_DOT + rest;
    assert b[|t|..|t| + 3] == LF_DOT;
  }

  /** In a stuffed text with that terminator there is none of either kind before its own. */
  lemma NoneBeforeLf(t: string, rest: string, i: int)
    requires Stuffed(t) && 0 <= i < |t| + 3
    ensures !At(t + LF_DOT + rest, CRLF_DOT, i)
    ensures i < |t| ==> !At(t + LF_DOT + rest, LF_DOT, i)
  {
    var b := t + LF_DOT + rest;
    assert forall j :: 0 <= j < |t| ==> b[j] == t[j];
    LfAtMeans(t, rest);
    AtMeans(b, i);
    assert DotBehindLf(t, i) || !DotBehindLf(t, i);
    assert DotBehindLf(t, i + 1) || !DotBehindLf(t, i + 1);
  }

  lemma AtBehind(front: string, rest: string, key: string, i: int)
    requires i >= |front|
    ensures At(front + rest, key, i) <==> At(rest, key, i - |front|)
  {
    var b := front + rest;
    if i + |key| <= |b| {
      assert b[i..i + |key|] == rest[i - |front|..i - |front| + |key|];
    }
  }

  lemma CrLfBehind(t: string, rest: string, j: int)
    requires Stuffed(t) && 0 <= j
    ensures var n := |t| + 3;
            At(t + LF_DOT + rest, CRLF_DOT, j) <==> j >= n && At(rest, CRLF_DOT, j - n)
  {
    if j < |t| + 3 {
      NoneBeforeLf(t, rest, j);
    } else {
      AtBehind(t + LF_DOT, rest, CRLF_DOT, j);
    }
  }

  /** The terminator is found exactly if no CR LF . CR LF has arrived behind it. */
  lemma LfTerminator(t: string, rest: string)
    requires Stuffed(t)
    ensures var b := t + LF_DOT + rest;
            if First(rest, CRLF_DOT, 0) < 0 then Terminator(b) == |t| && TerminatorLen(b, |t|) == 3
            else Terminator(b) == |t| + 3 + First(rest, CRLF_DOT, 0) && TerminatorLen(b, Terminator(b)) == 5
  {
    var b, r := t + LF_DOT + rest, First(rest, CRLF_DOT, 0);
    if r < 0 {
      forall j | 0 <= j ensures !At(b, CRLF_DOT, j) { CrLfBehind(t, rest, j); }
      FirstIsNone(b, CRLF_DOT);
      LfIsFirst(t, rest);
    } else {
      var i := |t| + 3 + r;
      CrLfBehind(t, rest, i);
      forall j | 0 <= j < i ensures !At(b, CRLF_DOT, j) { CrLfBehind(t, rest, j); }
      FirstIs(b, CRLF_DOT, i);
      AtMeans(b, i);
    }
  }

  lemma LfIsFirst(t: string, rest: string)
    requires Stuffed(t)
    ensures First(t + LF_DOT + rest, LF_DOT, 0) == |t| && TerminatorLen(t + LF_DOT + rest, |t|) == 3
  {
    LfAtMeans(t, rest);
    forall j | 0 <= j < |t| ensures !At(t + LF_DOT + rest, LF_DOT, j) { NoneBeforeLf(t, rest, j); }
    FirstIs(t + LF_DOT + rest, LF_DOT, |t|);
  }

  /** Decoding gives a text without NUL back and leaves what follows, exactly if the text is not empty and no
      CR LF . CR LF has arrived behind it. */
  lemma DecodesWhatWasSentWithLf(s: string, rest: string)
    requires NulFree(s)
    ensures Decode(Stuff(s) + LF_DOT + rest) == Decoded(OK, s, rest) <==> s != [] && First(rest, CRLF_DOT, 0) < 0
  {
    var b := Stuff(s) + LF_DOT + rest;
    StuffIsStuffed(s);
    StuffIsSent(s, []);
    LfTerminator(Stuff(s), rest);
    LfAtMeans(Stuff(s), rest);
    SentIsRemovable(s);
    UnstuffUndoesStuff(s);
  }

  /** The decoder with chunks, when nothing has been moved aside: the same. */
  lemma ChunkDecodesLf(s: string, rest: string)
    requires NulFree(s) && s != []
    ensures DecodeChunk([], Stuff(s) + LF_DOT + rest) == ChunkStep(OK, [Stuff(s)], rest)
            <==> First(rest, CRLF_DOT, 0) < 0
    ensures TextOf(Concat([Stuff(s)])) == Text(s)
  {
    StuffIsStuffed(s);
    LfTerminator(Stuff(s), rest);
    LfAtMeans(Stuff(s), rest);
    StuffedText(s);
    ConcatSnoc([], Stuff(s));
    assert [] + [Stuff(s)] == [Stuff(s)] && [] + Stuff(s) == Stuff(s);
  }

  // ----- the terminator across the end of what has been moved aside -----

  /** What both ends show is a part of what is sent, and has all of the terminator in it. */
  lemma SeamShows(prev: string, b: string, t: string, rest: string, front: string)
    requires NulFree(t) && |prev| >= 5 && front + prev + b == t + LF_DOT + rest
    requires |t| < |front + prev| < |t| + 3
    ensures var base, seam := |front + prev| - 5, Seam(prev, b);
            && |t| + 3 <= base + |seam| <= |t + LF_DOT + rest|
            && seam == (t + LF_DOT + rest)[base..base + |seam|] && |seam| <= 10
  {
    var all, base, ends := t + LF_DOT + rest, |front + prev| - 5, BothEnds(prev, b);
    LfAtMeans(t, rest);
    assert ends == all[base..base + |ends|] by {
      assert forall j :: 0 <= j < |prev| ==> prev[j] == (front + prev + b)[|front| + j];
      assert forall j :: 0 <= j < |b| ==> b[j] == (front + prev + b)[|front| + |prev| + j];
    }
    var seam := Seam(prev, b);
    assert seam == ends[..|seam|];
    forall j | 0 <= j < |ends| && base + j < |t| + 3 ensures ends[j] != '\0' {
      assert ends[j] == (t + LF_DOT)[base + j];
    }
  }

  lemma NoneInSeam(t: string, rest: string, base: nat, hi: nat, key: string, j: int)
    requires Stuffed(t) && base <= hi <= |t + LF_DOT + rest| && 0 <= j && At((t + LF_DOT + rest)[base..hi], key, j)
    ensures key == CRLF_DOT ==> base + j >= |t| + 3
    ensures key == LF_DOT ==> base + j >= |t|
  {
    AtInside(t + LF_DOT + rest, base, hi, key, j);
    if base + j < |t| + 3 { NoneBeforeLf(t, rest, base + j); }
  }

  lemma LfInSeam(prev: string, b: string, t: string, rest: string, front: string)
    requires Stuffed(t) && NulFree(t) && |prev| >= 5 && front + prev + b == t + LF_DOT + rest
    requires |t| < |front + prev| < |t| + 3
    ensures var i := |t| - (|front + prev| - 5);
            Terminator(Seam(prev, b)) == i && At(Seam(prev, b), LF_DOT, i)
  {
    SeamShows(prev, b, t, rest, front);
    TerminatorInPart(t, rest, |front + prev| - 5, Seam(prev, b));
  }

  /** A part of at most ten characters that begins before the terminator and has all of it. */
  lemma TerminatorInPart(t: string, rest: string, base: nat, part: string)
    requires Stuffed(t) && base <= |t| < base + 5 && |part| <= 10
    requires |t| + 3 <= base + |part| <= |t + LF_DOT + rest|
    requires part == (t + LF_DOT + rest)[base..base + |part|] && base + |part| < |t| + 8
    ensures Terminator(part) == |t| - base && At(part, LF_DOT, |t| - base)
  {
    var all, hi, i := t + LF_DOT + rest, base + |part|, |t| - base;
    forall j | 0 <= j ensures !At(part, CRLF_DOT, j) {
      if At(part, CRLF_DOT, j) { NoneInSeam(t, rest, base, hi, CRLF_DOT, j); }
    }
    forall j | 0 <= j < i ensures !At(part, LF_DOT, j) {
      if At(part, LF_DOT, j) { NoneInSeam(t, rest, base, hi, LF_DOT, j); }
    }
    LfAtMeans(t, rest);
    assert part[i..i + 3] == all[|t|..|t| + 3];
    FirstIsNone(part, CRLF_DOT);
    FirstIs(part, LF_DOT, i);
  }

  lemma LfDoneAtSeam(list: seq<string>, b: string, seam: string, m: nat)
    requires Clean(list) && list != [] && Terminator(b) < 0 && b != []
    requires |list[|list| - 1]| >= 5 && seam == Seam(list[|list| - 1], b) && m < 3 && 3 - m <= |b|
    requires Terminator(seam) == 5 - m && At(seam, LF_DOT, 5 - m)
    ensures DecodeChunk(list, b) == ChunkStep(OK, Cut(list, m), b[3 - m..])
  {
  }

  /** It is taken out of the last chunk and of the buffer, and what is left is the text and what follows. */
  lemma ChunkDecodesLfAtSeam(list: seq<string>, b: string, t: string, rest: string)
    requires Clean(list) && list != [] && |list[|list| - 1]| >= 5 && NoTerminator(b)
    requires Stuffed(t) && NulFree(t) && Concat(list) + b == t + LF_DOT + rest
    requires |t| < |Concat(list)| < |t| + 3
    ensures var r := DecodeChunk(list, b);
            r.ret == OK && Concat(r.list) == t && r.rest == rest
  {
    var n, m := |list| - 1, |Concat(list)| - |t|;
    ConcatLast(list);
    LfInSeam(list[n], b, t, rest, Concat(list[..n]));
    AfterLf(Concat(list), b, t, rest, m);
    LfDoneAtSeam(list, b, Seam(list[n], b), m);
    ConcatEnd(list, m);
  }

  lemma AfterLf(aside: string, b: string, t: string, rest: string, m: nat)
    requires aside + b == t + LF_DOT + rest && m == |aside| - |t| && 0 < m < 3
    ensures |b| >= 3 - m && b[3 - m..] == rest && aside[..|aside| - m] == t
  {
    var all := t + LF_DOT + rest;
    LfAtMeans(t, rest);
    assert b == all[|aside|..] && aside == all[..|aside|];
  }
}
