/** Whatever pieces a dot-stuffed text with its terminator comes in, both decoders give the text back, on the same
    call; and if more follows, exactly when the decoder with chunks does. */
module DotRefinement {
  import opened Basics
  import opened HttpText
  import opened DotText
  import opened DotDecoders

  /** A text as it is sent. */
  function Sent(s: string): string {
    Stuff(s) + CRLF_DOT
  }

  /** What a call of a decoder tells its caller. */
  datatype Report = Nothing | Text(text: string) | RunsOver

  /** A call of the simple decoder, whose state is what is in the buffer, with a fragment. */
  function Call(b: string, f: string): (string, Report) {
    var r := Decode(b + f);
    match r.ret
    case OK => (r.rest, Text(r.text))
    case MoreData => (r.rest, Nothing)
    case Overrun => (r.rest, RunsOver)
  }

  function TextOf(t: string): Report {
    if StaysIn(t, 1) then Text(Unstuff(CString(t))) else RunsOver
  }

  /** A call of the decoder with chunks, which is asked for the message once it is done. */
  ghost function CallChunks(state: (seq<string>, string), f: string): ((seq<string>, string), Report) {
    if !Clean(state.0) then (state, Nothing) else
      var r := DecodeChunk(state.0, state.1 + f);
      match r.ret
      case OK => (([], r.rest), TextOf(Concat(r.list)))
      case MoreData => ((r.list, r.rest), Nothing)
      case Overrun => ((r.list, r.rest), RunsOver)
  }

  /** The state of a decoder after one call for each fragment. */
  function After<S>(call: (S, string) -> (S, Report), start: S, fragments: seq<string>): S {
    if fragments == [] then start
    else call(After(call, start, fragments[..|fragments| - 1]), fragments[|fragments| - 1]).0
  }

  /** What the call for fragment i tells. */
  function ReportOf<S>(call: (S, string) -> (S, Report), start: S, fragments: seq<string>, i: nat): Report
    requires i < |fragments|
  {
    call(After(call, start, fragments[..i]), fragments[i]).1
  }

  lemma AfterOne<S>(call: (S, string) -> (S, Report), start: S, fragments: seq<string>, i: nat)
    requires i < |fragments|
    ensures After(call, start, fragments[..i + 1]) == call(After(call, start, fragments[..i]), fragments[i]).0
  {
    assert fragments[..i + 1][..i] == fragments[..i];
  }

  // ----- terminators in what is sent -----

  lemma AtInside(b: string, lo: nat, hi: nat, key: string, i: int)
    requires lo <= hi <= |b| && At(b[lo..hi], key, i)
    ensures At(b, key, lo + i) && lo + i + |key| <= hi
  {
    var part := b[lo..hi];
    var inPart, inWhole := part[i..i + |key|], b[lo + i..lo + i + |key|];
    assert forall j :: 0 <= j < |key| ==> inPart[j] == inWhole[j];
  }

  predicate NulFree(s: string) {
    forall i :: 0 <= i < |s| ==> s[i] != '\0'
  }

  /** all is a stuffed text t without NUL, with its terminator and whatever follows. */
  ghost predicate IsSent(all: string, t: string) {
    Stuffed(t) && NulFree(t) && |t| + 5 <= |all| && all == t + CRLF_DOT + all[|t| + 5..]
  }

  /** No part of what is sent up to its terminator has a terminator in it, unless it has all of it. */
  lemma PartsHaveNone(all: string, t: string, lo: nat, hi: nat)
    requires IsSent(all, t) && lo <= hi && hi <= |t| + 5 && (hi < |t| + 5 || lo > |t|)
    ensures Terminator(all[lo..hi]) < 0
  {
    var rest := all[|t| + 5..];
    forall i | 0 <= i ensures !At(all[lo..hi], CRLF_DOT, i) && !At(all[lo..hi], LF_DOT, i) {
      if At(all[lo..hi], CRLF_DOT, i) {
        AtInside(all, lo, hi, CRLF_DOT, i);
        NoneBefore(t, rest, lo + i);
      }
      if At(all[lo..hi], LF_DOT, i) {
        AtInside(all, lo, hi, LF_DOT, i);
        NoneBefore(t, rest, lo + i);
      }
    }
    FirstIsNone(all[lo..hi], CRLF_DOT);
    FirstIsNone(all[lo..hi], LF_DOT);
  }

  /** A part that has the terminator in it has it as its first. */
  lemma TerminatorOfPart(all: string, t: string, lo: nat, hi: nat)
    requires IsSent(all, t) && lo <= |t| && |t| + 5 <= hi <= |all|
    ensures var part, n := all[lo..hi], |t| - lo;
            && Terminator(part) == n && TerminatorLen(part, n) == 5
            && part[..n] == t[lo..] && part[n + 5..] == all[|t| + 5..hi]
  {
    var part, n, rest := all[lo..hi], |t| - lo, all[|t| + 5..];
    assert all[|t|..|t| + 5] == CRLF_DOT && part[n..n + 5] == all[|t|..|t| + 5];
    forall j | 0 <= j < n ensures !At(part, CRLF_DOT, j) {
      if At(part, CRLF_DOT, j) {
        AtInside(all, lo, hi, CRLF_DOT, j);
        NoneBefore(t, rest, lo + j);
      }
    }
    FirstIs(part, CRLF_DOT, n);
    AtMeans(part, n);
  }

  lemma NoNulInStuff(prev: char, s: string)
    requires NulFree(s)
    ensures NulFree(Add(prev, s))
    decreases |s|
  {
  }

  lemma CStringIsAll(s: string)
    requires NulFree(s)
    ensures CString(s) == s
  {
  }

  lemma StuffIsSent(s: string, rest: string)
    requires NulFree(s)
    ensures IsSent(Sent(s) + rest, Stuff(s)) && CString(Stuff(s)) == Stuff(s)
    ensures (Sent(s) + rest)[|Sent(s)|..] == rest
  {
    StuffIsStuffed(s);
    if s != [] {
      NoNulInStuff(s[0], s[1..]);
    }
    CStringIsAll(Stuff(s));
  }

  /** Stuffed, every text but the empty one is one that taking the dots out does not run over the end of. */
  lemma SentIsRemovable(s: string)
    requires NulFree(s)
    ensures StaysIn(Stuff(s), 1) <==> s != []
  {
    StuffIsSent(s, []);
    StaysInIfRemovable(Stuff(s));
    var t := Stuff(s);
    assert |t| >= 2 ==> !DotBehindLf(t, |t| - 2);
  }

  lemma StuffedText(s: string)
    requires NulFree(s) && s != []
    ensures TextOf(Stuff(s)) == Text(s)
  {
    StuffIsSent(s, []);
    SentIsRemovable(s);
    UnstuffUndoesStuff(s);
  }

  /** The whole of what is sent, with whatever follows, decodes to the text and leaves what follows, exactly if the
      text is not empty. */
  lemma DecodesWhatWasSent(s: string, rest: string)
    requires NulFree(s)
    ensures Decode(Sent(s) + rest) == Decoded(OK, s, rest) <==> s != []
  {
    var b := Sent(s) + rest;
    StuffIsSent(s, rest);
    assert b == b[0..|b|];
    TerminatorOfPart(b, Stuff(s), 0, |b|);
    SentIsRemovable(s);
    UnstuffUndoesStuff(s);
  }

  // ----- fragments -----

  /** The call for fragment k is the one with which the terminator has arrived. */
  ghost predicate ArrivesWith(s: string, fragments: seq<string>, k: nat) {
    k < |fragments| && |Concat(fragments[..k])| < |Sent(s)| <= |Concat(fragments[..k + 1])|
  }

  lemma Front(fragments: seq<string>, i: nat)
    requires i <= |fragments|
    ensures var n := |Concat(fragments[..i])|;
            n <= |Concat(fragments)| && Concat(fragments[..i]) == Concat(fragments)[..n]
  {
    ConcatSplit(fragments, i);
  }

  /** What has come when fragment i comes, and with it, as parts of all. */
  lemma NextPart(fragments: seq<string>, i: nat)
    requires i < |fragments|
    ensures var all, n, n' := Concat(fragments), |Concat(fragments[..i])|, |Concat(fragments[..i + 1])|;
            n <= n' <= |all| && fragments[i] == all[n..n'] && Concat(fragments[..i + 1]) == all[..n']
  {
    Front(fragments, i);
    Front(fragments, i + 1);
    ConcatNext(fragments, i);
    var all, n, n' := Concat(fragments), |Concat(fragments[..i])|, |Concat(fragments[..i + 1])|;
    assert all[..n'][n..] == all[n..n'];
  }

  lemma {:induction false} SimpleHolds(s: string, rest: string, fragments: seq<string>, i: nat)
    requires NulFree(s) && Concat(fragments) == Sent(s) + rest
    requires i <= |fragments| && |Concat(fragments[..i])| < |Sent(s)|
    ensures After(Call, [], fragments[..i]) == Concat(fragments[..i])
    decreases i
  {
    if i > 0 {
      ConcatNext(fragments, i - 1);
      SimpleHolds(s, rest, fragments, i - 1);
      AfterOne(Call, [], fragments, i - 1);
      SimpleWaits(s, rest, fragments, i - 1);
    }
  }

  lemma SimpleWaits(s: string, rest: string, fragments: seq<string>, i: nat)
    requires NulFree(s) && Concat(fragments) == Sent(s) + rest
    requires i < |fragments| && |Concat(fragments[..i + 1])| < |Sent(s)|
    ensures Call(Concat(fragments[..i]), fragments[i]) == (Concat(fragments[..i + 1]), Nothing)
  {
    var all, n := Concat(fragments), |Concat(fragments[..i + 1])|;
    ConcatNext(fragments, i);
    Front(fragments, i + 1);
    StuffIsSent(s, rest);
    PartsHaveNone(all, Stuff(s), 0, n);
    assert all[0..n] == Concat(fragments[..i + 1]);
  }

  lemma {:induction false} FrontsGrow(fragments: seq<string>, i: nat, j: nat)
    requires i <= j <= |fragments|
    ensures |Concat(fragments[..i])| <= |Concat(fragments[..j])|
    decreases j
  {
    if i < j {
      ConcatNext(fragments, j - 1);
      FrontsGrow(fragments, i, j - 1);
    }
  }

  lemma SimpleNothing(s: string, rest: string, fragments: seq<string>, k: nat, i: nat)
    requires NulFree(s) && Concat(fragments) == Sent(s) + rest && ArrivesWith(s, fragments, k) && i < k
    ensures ReportOf(Call, [], fragments, i) == Nothing
  {
    FrontsGrow(fragments, i + 1, k);
    ConcatNext(fragments, i);
    SimpleHolds(s, rest, fragments, i);
    SimpleWaits(s, rest, fragments, i);
  }

  lemma SimpleGives(s: string, rest: string, fragments: seq<string>, k: nat)
    requires NulFree(s) && s != [] && Concat(fragments) == Sent(s) + rest && ArrivesWith(s, fragments, k)
    ensures Call(Concat(fragments[..k]), fragments[k]) == (Concat(fragments[..k + 1])[|Sent(s)|..], Text(s))
  {
    var b := Concat(fragments[..k + 1]);
    ConcatNext(fragments, k);
    Front(fragments, k + 1);
    SentFirst(s, rest, Concat(fragments), |b|);
    DecodesWhatWasSent(s, b[|Sent(s)|..]);
  }

  lemma SentFirst(s: string, rest: string, all: string, n: nat)
    requires all == Sent(s) + rest && |Sent(s)| <= n <= |all|
    ensures all[..n] == Sent(s) + all[..n][|Sent(s)|..]
  {
  }

  /** The simple decoder waits until the terminator has come, and then gives the text and keeps what follows. */
  lemma SimpleDecoder(s: string, rest: string, fragments: seq<string>, k: nat)
    requires NulFree(s) && s != [] && Concat(fragments) == Sent(s) + rest && ArrivesWith(s, fragments, k)
    ensures forall i :: 0 <= i < k ==> ReportOf(Call, [], fragments, i) == Nothing
    ensures ReportOf(Call, [], fragments, k) == Text(s)
    ensures After(Call, [], fragments[..k + 1]) == Concat(fragments[..k + 1])[|Sent(s)|..]
  {
    forall i | 0 <= i < k ensures ReportOf(Call, [], fragments, i) == Nothing {
      SimpleNothing(s, rest, fragments, k, i);
    }
    SimpleHolds(s, rest, fragments, k);
    AfterOne(Call, [], fragments, k);
    SimpleGives(s, rest, fragments, k);
  }

  // ----- the decoder with chunks -----

  /** Chunks that are moved aside while a text is still coming are full. */
  ghost predicate Chunks(list: seq<string>) {
    forall c :: c in list ==> |c| >= CHUNK && NoTerminator(c)
  }

  /** The chunks and the buffer are what has come of all so far, up to l and from there up to k. */
  ghost predicate Holds(list: seq<string>, b: string, all: string, l: nat, k: nat) {
    && Chunks(list) && l <= k <= |all| && Concat(list) == all[..l] && b == all[l..k]
  }

  lemma SplitEnd(front: string, prev: string, m: nat)
    requires m <= |prev|
    ensures var s := front + prev;
            s[|s| - |prev|..] == prev && s[..|s| - m] == front + prev[..|prev| - m]
  {
  }

  lemma ConcatLast(list: seq<string>)
    requires list != []
    ensures Concat(list) == Concat(list[..|list| - 1]) + list[|list| - 1]
  {
    ConcatSnoc(list[..|list| - 1], list[|list| - 1]);
    assert list == list[..|list| - 1] + [list[|list| - 1]];
  }

  /** The last chunk without its last m characters. */
  function Cut(list: seq<string>, m: nat): seq<string>
    requires list != [] && m <= |list[|list| - 1]|
  {
    var prev := list[|list| - 1];
    list[|list| - 1 := prev[..|prev| - m]]
  }

  lemma ConcatEnd(list: seq<string>, m: nat)
    requires list != [] && m <= |list[|list| - 1]|
    ensures var prev := list[|list| - 1];
            && |Concat(list)| >= |prev|
            && prev == Concat(list)[|Concat(list)| - |prev|..]
            && Concat(Cut(list, m)) == Concat(list)[..|Concat(list)| - m]
  {
    var n, prev := |list| - 1, list[|list| - 1];
    ConcatLast(list);
    ConcatLast(Cut(list, m));
    assert Cut(list, m)[..n] == list[..n];
    SplitEnd(Concat(list[..n]), prev, m);
  }

  /** The last characters before l and the first behind it. */
  lemma AroundSeam(all: string, l: nat, k: nat, prev: string, b: string)
    requires 5 <= |prev| <= l <= k <= |all| && prev == all[l - |prev|..l] && b == all[l..k]
    ensures BothEnds(prev, b) == all[l - 5..if |b| > 5 then l + 5 else k]
  {
  }

  /** The seam ends at a NUL, which can only come behind the terminator. */
  lemma SeamIs(all: string, t: string, l: nat, k: nat, prev: string, b: string) returns (hi: nat)
    requires IsSent(all, t) && l < |t| + 5
    requires 5 <= |prev| <= l <= k <= |all| && prev == all[l - |prev|..l] && b == all[l..k]
    ensures l <= hi <= k && Seam(prev, b) == all[l - 5..hi] && (k >= |t| + 5 && l > |t| ==> hi >= |t| + 5)
  {
    var end := if |b| > 5 then l + 5 else k;
    AroundSeam(all, l, k, prev, b);
    var both := all[l - 5..end];
    hi := l - 5 + Find(both, '\0');
    forall i | 0 <= i < |both| && l - 5 + i < |t| + 5 ensures both[i] != '\0' {
      assert both[i] == (t + CRLF_DOT)[l - 5 + i];
    }
    assert both[..hi - (l - 5)] == all[l - 5..hi];
  }

  lemma LastChunkEnds(list: seq<string>, b: string, all: string, l: nat, k: nat)
    requires Holds(list, b, all, l, k) && list != []
    ensures var prev := list[|list| - 1]; 5 <= |prev| <= l && prev == all[l - |prev|..l] && NoTerminator(prev)
  {
    ConcatEnd(list, 0);
    var prev := list[|list| - 1];
    assert all[..l][l - |prev|..] == all[l - |prev|..l];
  }

  lemma NoneAtSeam(list: seq<string>, b: string, all: string, t: string, l: nat, k: nat)
    requires IsSent(all, t) && Holds(list, b, all, l, k) && list != [] && k < |t| + 5
    ensures |list[|list| - 1]| >= 5 && Terminator(Seam(list[|list| - 1], b)) < 0
  {
    LastChunkEnds(list, b, all, l, k);
    var hi := SeamIs(all, t, l, k, list[|list| - 1], b);
    PartsHaveNone(all, t, l - 5, hi);
  }

  /** As long as something is missing the chunks and the buffer hold what has come. */
  lemma ChunkWaits(list: seq<string>, b: string, all: string, t: string, l: nat, k: nat)
    requires IsSent(all, t) && Holds(list, b, all, l, k) && k < |t| + 5
    ensures var r := DecodeChunk(list, b);
            r.ret == MoreData && Holds(r.list, r.rest, all, if |b| >= CHUNK then k else l, k)
  {
    PartsHaveNone(all, t, l, k);
    if b != [] && list != [] {
      NoneAtSeam(list, b, all, t, l, k);
    }
    ConcatSnoc(list, b);
    assert all[..l] + all[l..k] == all[..k];
    assert all[k..k] == [];
  }

  /** How much the decoder has moved aside after these fragments; their lengths alone decide. */
  function Aside(fragments: seq<string>): (l: nat)
    ensures l <= |Concat(fragments)|
  {
    if fragments == [] then 0
    else
      ConcatNext(fragments, |fragments| - 1);
      assert fragments[..|fragments|] == fragments;
      var l, n := Aside(fragments[..|fragments| - 1]), |Concat(fragments)|;
      if n - l >= CHUNK then n else l
  }

  lemma PartsJoin(all: string, l: nat, k: nat, k': nat)
    requires l <= k <= k' <= |all|
    ensures all[l..k] + all[k..k'] == all[l..k']
  {
  }

  lemma CallWaits(all: string, t: string, state: (seq<string>, string), l: nat, k: nat, k': nat)
    requires IsSent(all, t) && Holds(state.0, state.1, all, l, k) && k <= k' < |t| + 5
    ensures var r := CallChunks(state, all[k..k']);
            r.1 == Nothing && Holds(r.0.0, r.0.1, all, if k' - l >= CHUNK then k' else l, k')
  {
    PartsJoin(all, l, k, k');
    ChunkWaits(state.0, all[l..k'], all, t, l, k');
  }

  lemma {:induction false} ChunksHold(s: string, rest: string, fragments: seq<string>, i: nat)
    requires NulFree(s) && Concat(fragments) == Sent(s) + rest
    requires i <= |fragments| && |Concat(fragments[..i])| < |Sent(s)|
    ensures var st := After(CallChunks, ([], []), fragments[..i]);
            Holds(st.0, st.1, Concat(fragments), Aside(fragments[..i]), |Concat(fragments[..i])|)
    ensures i > 0 ==> ReportOf(CallChunks, ([], []), fragments, i - 1) == Nothing
    decreases i
  {
    if i > 0 {
      NextPart(fragments, i - 1);
      ChunksHold(s, rest, fragments, i - 1);
      AfterOne(CallChunks, ([], []), fragments, i - 1);
      StuffIsSent(s, rest);
      assert fragments[..i][..i - 1] == fragments[..i - 1];
      CallWaits(Concat(fragments), Stuff(s), After(CallChunks, ([], []), fragments[..i - 1]), Aside(fragments[..i - 1]),
                |Concat(fragments[..i - 1])|, |Concat(fragments[..i])|);
    }
  }

  /** On this call the decoder is done, with that text in its chunks and that left over. */
  ghost predicate Completes(list: seq<string>, b: string, t: string, rest: string)
    requires Clean(list)
  {
    match DecodeChunk(list, b)
    case ChunkStep(ret, list', left) => ret == OK && Concat(list') == t && left == rest
  }

  lemma ConcatWith(list: seq<string>, part: string)
    ensures Concat(if part != [] then list + [part] else list) == Concat(list) + part
  {
    ConcatSnoc(list, part);
  }

  /** A terminator in the buffer ends the text there. */
  lemma CompletesInBuffer(list: seq<string>, b: string)
    requires Clean(list) && Terminator(b) >= 0
    ensures var i := Terminator(b);
            Completes(list, b, Concat(list) + b[..i], b[i + TerminatorLen(b, i)..])
  {
    ConcatWith(list, b[..Terminator(b)]);
  }

  /** The whole terminator is in the buffer. */
  lemma TerminatorInBuffer(list: seq<string>, b: string, all: string, t: string, l: nat, k: nat)
    requires IsSent(all, t) && Holds(list, b, all, l, k) && l <= |t| && |t| + 5 <= k
    ensures Completes(list, b, t, all[|t| + 5..k])
  {
    TerminatorOfPart(all, t, l, k);
    CompletesInBuffer(list, b);
    assert all[..l] + t[l..] == t;
  }

  lemma DoneAtSeam(list: seq<string>, b: string, seam: string, i: nat, m: nat)
    requires Clean(list) && list != [] && Terminator(b) < 0 && b != []
    requires |list[|list| - 1]| >= 5 && seam == Seam(list[|list| - 1], b)
    requires Terminator(seam) == i && TerminatorLen(seam, i) == 5 && i <= |b| && m + i == 5
    ensures DecodeChunk(list, b) == ChunkStep(OK, Cut(list, m), b[i..])
  {
  }

  lemma SeamTerminator(prev: string, b: string, all: string, t: string, l: nat, k: nat)
    requires IsSent(all, t) && |t| < l < |t| + 5 <= k <= |all|
    requires 5 <= |prev| <= l && prev == all[l - |prev|..l] && b == all[l..k]
    ensures var i := |t| + 5 - l; Terminator(Seam(prev, b)) == i && TerminatorLen(Seam(prev, b), i) == 5
  {
    var hi := SeamIs(all, t, l, k, prev, b);
    TerminatorOfPart(all, t, l - 5, hi);
  }

  lemma CutAtText(list: seq<string>, all: string, t: string, l: nat)
    requires list != [] && l <= |all| && Concat(list) == all[..l] && |t| <= l && all[..|t|] == t
    requires l - |t| <= |list[|list| - 1]|
    ensures Concat(Cut(list, l - |t|)) == t
  {
    ConcatEnd(list, l - |t|);
    assert all[..l][..|t|] == t;
  }

  lemma SeamCompletes(list: seq<string>, b: string, i: nat, t: string, rest: string)
    requires Clean(list) && list != [] && |list[|list| - 1]| >= 5 && b != [] && Terminator(b) < 0
    requires var seam := Seam(list[|list| - 1], b); i <= 5 && Terminator(seam) == i && TerminatorLen(seam, i) == 5
    requires i <= |b| && Concat(Cut(list, 5 - i)) == t && b[i..] == rest
    ensures Completes(list, b, t, rest)
  {
    DoneAtSeam(list, b, Seam(list[|list| - 1], b), i, 5 - i);
  }

  lemma SplitAtSeam(list: seq<string>, b: string, all: string, t: string, l: nat, k: nat)
    requires IsSent(all, t) && Holds(list, b, all, l, k) && |t| < l < |t| + 5 <= k
    ensures list != [] && 5 <= |list[|list| - 1]| <= l && list[|list| - 1] == all[l - |list[|list| - 1]|..l]
    ensures Clean(list) && b != [] && |t| + 5 - l <= |b| && b[|t| + 5 - l..] == all[|t| + 5..k]
  {
    assert |all[..l]| > 0;
    LastChunkEnds(list, b, all, l, k);
  }

  /** The terminator has begun in the last chunk, and there is none in the buffer. */
  lemma TerminatorAtSeam(list: seq<string>, b: string, all: string, t: string, l: nat, k: nat)
    requires IsSent(all, t) && Holds(list, b, all, l, k) && |t| < l < |t| + 5 <= k && Terminator(b) < 0
    ensures Completes(list, b, t, all[|t| + 5..k])
  {
    SplitAtSeam(list, b, all, t, l, k);
    SeamTerminator(list[|list| - 1], b, all, t, l, k);
    CutAtText(list, all, t, l);
    SeamCompletes(list, b, |t| + 5 - l, t, all[|t| + 5..k]);
  }

  lemma RemoveOfSum(prev: char, s: string, x: string)
    requires x != [] && x[0] != '.'
    ensures |Remove(prev, s + x)| > |Remove(prev, s)|
    decreases |s|
  {
    if s == [] {
      assert s + x == x;
    } else {
      assert (s + x)[1..] == s[1..] + x;
      RemoveOfSum(s[0], s[1..], x);
    }
  }

  /** A text that goes on behind t, with a CR, is not taken for t. */
  lemma LongerIsOther(s: string, x: string)
    requires NulFree(s) && s != [] && x != [] && x[0] == '\r'
    ensures TextOf(Stuff(s) + x) != Text(s)
  {
    var t := Stuff(s);
    StuffIsSent(s, []);
    UnstuffUndoesStuff(s);
    var c := CString(t + x);
    var n := Find(t + x, '\0');
    assert (t + x)[|t|] == '\r' && forall i :: 0 <= i < |t| ==> (t + x)[i] == t[i];
    assert n > |t|;
    var y := c[|t|..];
    assert c == t + y && c[1..] == t[1..] + y;
    RemoveOfSum(t[0], t[1..], y);
  }

  lemma MoreThanText(s: string, all: string, l: nat, more: string)
    requires NulFree(s) && s != [] && IsSent(all, Stuff(s)) && |Stuff(s)| < l <= |all|
    ensures TextOf(all[..l] + more) != Text(s)
  {
    var t := Stuff(s);
    var x := all[|t|..l] + more;
    assert all[..l] + more == t + x && x[0] == all[|t|];
    LongerIsOther(s, x);
  }

  /** What the decoder has moved aside does not cut the terminator, or there is no terminator behind the cut. */
  ghost predicate SeamIsSafe(s: string, fragments: seq<string>, k: nat)
    requires k < |fragments|
  {
    var l, b := Aside(fragments[..k]), Concat(fragments[..k + 1]);
    l <= |Stuff(s)| || (l <= |b| && Terminator(b[l..]) < 0)
  }

  lemma CallCompletes(state: (seq<string>, string), f: string, b: string, t: string, rest: string)
    requires Clean(state.0) && state.1 + f == b && Completes(state.0, b, t, rest)
    ensures CallChunks(state, f) == (([], rest), TextOf(t))
  {
  }

  lemma TextCompletes(all: string, s: string, list: seq<string>, b: string, l: nat, k: nat)
    requires IsSent(all, Stuff(s)) && Holds(list, b, all, l, k) && l < |Sent(s)| <= k
    requires l <= |Stuff(s)| || Terminator(b) < 0
    ensures Completes(list, b, Stuff(s), all[|Sent(s)|..k])
  {
    if l <= |Stuff(s)| {
      TerminatorInBuffer(list, b, all, Stuff(s), l, k);
    } else {
      TerminatorAtSeam(list, b, all, Stuff(s), l, k);
    }
  }

  lemma RightCall(all: string, s: string, state: (seq<string>, string), l: nat, n: nat, n': nat)
    requires NulFree(s) && s != [] && IsSent(all, Stuff(s)) && Holds(state.0, state.1, all, l, n)
    requires n < |Sent(s)| <= n' <= |all| && (l <= |Stuff(s)| || Terminator(all[l..n']) < 0)
    ensures CallChunks(state, all[n..n']) == (([], all[|Sent(s)|..n']), Text(s))
  {
    PartsJoin(all, l, n, n');
    TextCompletes(all, s, state.0, all[l..n'], l, n');
    CallCompletes(state, all[n..n'], all[l..n'], Stuff(s), all[|Sent(s)|..n']);
    StuffedText(s);
  }

  lemma WrongCall(all: string, s: string, state: (seq<string>, string), l: nat, n: nat, n': nat)
    requires NulFree(s) && s != [] && IsSent(all, Stuff(s)) && Holds(state.0, state.1, all, l, n)
    requires n < |Sent(s)| <= n' <= |all| && l > |Stuff(s)| && Terminator(all[l..n']) >= 0
    ensures CallChunks(state, all[n..n']).1 != Text(s)
  {
    var b := all[l..n'];
    var i := Terminator(b);
    PartsJoin(all, l, n, n');
    CompletesInBuffer(state.0, b);
    CallCompletes(state, all[n..n'], b, all[..l] + b[..i], b[i + TerminatorLen(b, i)..]);
    MoreThanText(s, all, l, b[..i]);
  }

  /** The decoder with chunks waits until the terminator has come, and then gives the text and keeps what follows,
      exactly if the seam is safe. */
  lemma ChunkDecoder(s: string, rest: string, fragments: seq<string>, k: nat)
    requires NulFree(s) && s != [] && Concat(fragments) == Sent(s) + rest && ArrivesWith(s, fragments, k)
    ensures forall i :: 0 <= i < k ==> ReportOf(CallChunks, ([], []), fragments, i) == Nothing
    ensures ReportOf(CallChunks, ([], []), fragments, k) == Text(s) <==> SeamIsSafe(s, fragments, k)
    ensures SeamIsSafe(s, fragments, k) ==>
              After(CallChunks, ([], []), fragments[..k + 1]) == ([], Concat(fragments[..k + 1])[|Sent(s)|..])
  {
    forall i | 0 <= i < k ensures ReportOf(CallChunks, ([], []), fragments, i) == Nothing {
      FrontsGrow(fragments, i + 1, k);
      ChunksHold(s, rest, fragments, i + 1);
    }
    var all, l := Concat(fragments), Aside(fragments[..k]);
    var n, n' := |Concat(fragments[..k])|, |Concat(fragments[..k + 1])|;
    ChunksHold(s, rest, fragments, k);
    NextPart(fragments, k);
    AfterOne(CallChunks, ([], []), fragments, k);
    StuffIsSent(s, rest);
    if l <= |Stuff(s)| || Terminator(all[l..n']) < 0 {
      RightCall(all, s, After(CallChunks, ([], []), fragments[..k]), l, n, n');
    } else {
      WrongCall(all, s, After(CallChunks, ([], []), fragments[..k]), l, n, n');
    }
    assert all[..n'][l..] == all[l..n'] && all[..n'][|Sent(s)|..] == all[|Sent(s)|..n'];
  }

  /** However a text without NUL is cut up when it is sent, with empty pieces too and with whatever follows, both
      decoders wait for the call with which the terminator arrives. The simple one then gives the text; the one
      with chunks does exactly if the seam is safe, and then both keep the same input for the next text. */
  lemma DecodersAgree(s: string, rest: string, fragments: seq<string>, k: nat)
    requires NulFree(s) && s != [] && Concat(fragments) == Sent(s) + rest && ArrivesWith(s, fragments, k)
    ensures forall i :: 0 <= i < k ==>
              ReportOf(Call, [], fragments, i) == ReportOf(CallChunks, ([], []), fragments, i) == Nothing
    ensures ReportOf(Call, [], fragments, k) == Text(s)
    ensures ReportOf(CallChunks, ([], []), fragments, k) == Text(s) <==> SeamIsSafe(s, fragments, k)
    ensures SeamIsSafe(s, fragments, k) ==>
              After(CallChunks, ([], []), fragments[..k + 1]) == ([], After(Call, [], fragments[..k + 1]))
  {
    SimpleDecoder(s, rest, fragments, k);
    ChunkDecoder(s, rest, fragments, k);
  }

  /** If nothing has come behind the terminator yet, it is. */
  lemma SafeWithNothingBehind(s: string, rest: string, fragments: seq<string>, k: nat)
    requires NulFree(s) && Concat(fragments) == Sent(s) + rest && ArrivesWith(s, fragments, k)
    requires |Concat(fragments[..k + 1])| == |Sent(s)|
    ensures SeamIsSafe(s, fragments, k)
  {
    var l, n := Aside(fragments[..k]), |Sent(s)|;
    StuffIsSent(s, rest);
    NextPart(fragments, k);
    if l > |Stuff(s)| {
      PartsHaveNone(Concat(fragments), Stuff(s), l, n);
      assert Concat(fragments)[..n][l..] == Concat(fragments)[l..n];
    }
  }

  /** It is not if a long text is cut behind the CR of its terminator and another follows at once. */
  lemma NextTextIsSwallowed(s: string, next: string)
    requires NulFree(s) && NulFree(next) && |s| >= 61440
    ensures var n := |Stuff(s)| + 1;
            var fragments := [Sent(s)[..n], Sent(s)[n..] + Sent(next)];
            ArrivesWith(s, fragments, 1) && !SeamIsSafe(s, fragments, 1)
  {
    var n := |Stuff(s)| + 1;
    var fragments := [Sent(s)[..n], Sent(s)[n..] + Sent(next)];
    var b := Sent(s)[n..] + Sent(next);
    ConcatNext(fragments, 0);
    ConcatNext(fragments, 1);
    assert fragments[..1][..0] == [] && Aside(fragments[..1]) == n;
    var all := Concat(fragments[..2]);
    assert all[n..] == b;
    var i := 4 + |Stuff(next)|;
    assert b[i..i + 5] == CRLF_DOT;
    assert At(b, CRLF_DOT, i);
  }
}
