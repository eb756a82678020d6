/** Cutting the input of the HTTP parser into fragments: when that makes no difference. */
module HttpFragments {
  import opened Basics
  import opened HttpText
  import opened Incremental
  import opened HttpParsing

  /** The header lines in b end with an incomplete one that begins with CR. */
  ghost predicate HeadersCutAtCr(reading: Reading, b: string)
    decreases |b|
  {
    var n := LineLen(b);
    if n == 0 then b != [] && b[0] == '\r'
    else !reading.readLine(b[..n]).BadLine? && !IsEol(b[0]) && HeadersCutAtCr(reading, b[n..])
  }

  /** The parser reaches the end of x in a header line of which only a CR and no LF has arrived. */
  ghost predicate CutAtCr(p: Parser, x: string) {
    || (p.status.Header? && HeadersCutAtCr(p.reading, x))
    || (p.status.StartLine? && LineLen(x) > 0 && HeadersCutAtCr(p.reading, x[LineLen(x)..]))
  }

  lemma StartBiteStands(p: Parser, x: string, y: string)
    requires StartBite(p, x).Some?
    ensures StartBite(p, x + y) == StartBite(p, x)
  {
    LineStands(x, y);
  }

  lemma HeaderBiteStands(p: Parser, m: Message, x: string, y: string)
    requires HeaderBite(p, m, x).Some? && LineLen(x) > 0
    ensures HeaderBite(p, m, x + y) == HeaderBite(p, m, x)
  {
    LineStands(x, y);
  }

  lemma NextChunkStands(sizeOf: string -> int, x: string, y: string)
    requires !NextChunk(sizeOf, x).Partial?
    ensures NextChunk(sizeOf, x + y) == NextChunk(sizeOf, x)
    ensures var c := NextChunk(sizeOf, x);
            c.Whole? ==> (x + y)[c.start..c.start + c.size] == x[c.start..c.start + c.size]
  {
    LineStands(x, y);
    var n := LineLen(x);
    var size := sizeOf(x[..n]);
    if size > 0 {
      LineEndStands(x, y, n + size);
    }
  }

  lemma ChunkBiteStands(p: Parser, m: Message, x: string, y: string)
    requires ChunkBite(p, m, x).Some?
    ensures ChunkBite(p, m, x + y) == ChunkBite(p, m, x)
  {
    NextChunkStands(p.reading.sizeOf, x, y);
  }

  lemma PlainBiteStands(p: Parser, m: Message, x: string, y: string)
    requires PlainBite(p, m, x).Some? && m.content == []
    ensures PlainBite(p, m, x + y) == PlainBite(p, m, x)
  {
    var size := p.reading.lengthOf(m.headers);
    assert size > 0 ==> (x + y)[..size] == x[..size];
  }

  /** Before the content no content has been collected, unless it comes in chunks. */
  ghost predicate Sound(p: Parser) {
    && (p.status.StartLine? <==> p.message.None?)
    && (p.status.Header? ==> p.message.value.content == [])
    && (p.status.Content? && !p.reading.isChunked(p.message.value.headers) ==> p.message.value.content == [])
  }

  /** The parser is in a body that comes in chunks and is not ignored. */
  ghost predicate InChunks(p: Parser, m: Message) {
    && p.status == Content && p.message == Some(m) && p.reading.isChunked(m.headers)
    && !(m.kind.Response? && p.ignoreContent)
  }

  lemma BiteIsSound(p: Parser, b: string)
    requires Sound(p) && HttpBite(p, b).Some?
    ensures Sound(HttpBite(p, b).value.parser) && HttpBite(p, b).value.parser.reading == p.reading
  {
  }

  lemma {:induction false} AppendIsSound(p: Parser, b: string)
    requires Sound(p)
    ensures Sound(Append(p, b).parser) && Append(p, b).parser.reading == p.reading
    decreases |b|, Rank(p)
  {
    if HttpBite(p, b).Some? {
      var s := HttpBite(p, b).value;
      AppendStep(p, b, HttpBite(p, b).value);
      BiteIsSound(p, b);
      AppendIsSound(s.parser, b[s.taken..]);
    } else {
      AppendStops(p, b);
    }
  }

  lemma BiteStands(p: Parser, x: string, y: string)
    requires Sound(p) && !CutAtCr(p, x) && HttpBite(p, x).Some?
    ensures HttpBite(p, x + y) == HttpBite(p, x)
    ensures var s := HttpBite(p, x).value; s.taken <= |x| && !CutAtCr(s.parser, x[s.taken..])
  {
    match p.status
    case StartLine => StartBiteStands(p, x, y);
    case Header => HeaderBiteStands(p, p.message.value, x, y);
    case Content =>
      var m := p.message.value;
      if m.kind.Response? && p.ignoreContent {
      } else if p.reading.isChunked(m.headers) {
        ChunkBiteStands(p, m, x, y);
      } else {
        PlainBiteStands(p, m, x, y);
      }
  }

  lemma {:induction false} CutNotAtCrStands(p: Parser, x: string, y: string)
    requires Sound(p) && !CutAtCr(p, x)
    ensures Shrinks(HttpBite, Rank) && CutStands(HttpBite, Rank, p, x, y)
    decreases |x|, Rank(p)
  {
    BitesShrink();
    if HttpBite(p, x).Some? {
      var s := HttpBite(p, x).value;
      BiteStands(p, x, y);
      BiteIsSound(p, x);
      CutNotAtCrStands(s.parser, x[s.taken..], y);
    }
  }

  /** Giving y after what was not taken of x. */
  function Continue(p: Parser, x: string, y: string): Step<Parser> {
    var first := Append(p, x);
    Further(first.taken, Append(first.parser, x[first.taken..] + y))
  }

  /** Unless the cut comes in a header line that begins with CR it makes no difference: the parser comes to
      the same message and status, and takes as much in all. */
  lemma CutMakesNoDifference(p: Parser, x: string, y: string)
    requires Sound(p) && !CutAtCr(p, x)
    ensures Append(p, x + y) == Continue(p, x, y)
  {
    CutNotAtCrStands(p, x, y);
    Incremental.CutMakesNoDifference(HttpBite, Rank, p, x, y);
  }

  // ----- the cut that does make a difference -----

  /** Input that goes on behind a cut without a line end, or a cut elsewhere, does no harm. */
  ghost predicate Harmless(p: Parser, x: string, y: string) {
    CutAtCr(p, x) ==> LineLen(y) == 0
  }

  lemma LineLenOver(x: string, y: string)
    requires LineLen(x) == 0
    ensures LineLen(x + y) == if LineLen(y) == 0 then 0 else |x| + LineLen(y)
  {
    assert (x + y)[|x|..] == y;
    LineEndOver(x, y, 0);
    LineLenBehind(x + y, |x|);
  }

  lemma {:induction false} LineEndOver(x: string, y: string, k: nat)
    requires k <= |x| && LineEnd(x, k) == 0
    ensures LineEnd(x + y, k) == LineEnd(x + y, |x|)
    decreases |x| - k
  {
    if k < |x| {
      LineEndOver(x, y, k + 1);
    }
  }

  /** Once the headers are over they stay as they are, and the parser meets no null pointer. */
  lemma {:induction false} ContentKeepsHeaders(p: Parser, m: Message, b: string)
    requires p.status == Content && p.message == Some(m)
    ensures var r := Append(p, b).parser;
            (r.status.Content? || r.status.Completed?) && r.message.Some? && r.message.value.headers == m.headers
    decreases |b|
  {
    if HttpBite(p, b).Some? {
      var s := HttpBite(p, b).value;
      AppendStep(p, b, s);
      if s.parser.status.Completed? {
        AppendStops(s.parser, b[s.taken..]);
      } else {
        ContentKeepsHeaders(s.parser, s.parser.message.value, b[s.taken..]);
      }
    } else {
      AppendStops(p, b);
    }
  }

  function LineEnds(s: string): nat {
    multiset(s)['\n']
  }

  lemma LineEndsAdd(s: string, t: string)
    ensures LineEnds(s + t) == LineEnds(s) + LineEnds(t)
  {
  }

  lemma OneLineEnd(s: string, k: nat, n: nat)
    requires k < n <= |s| && s[n - 1] == '\n' && forall j :: k <= j < n - 1 ==> s[j] != '\n'
    ensures LineEnds(s[k..n]) == 1
  {
    var front := s[k..n - 1];
    assert s[k..n] == front + ['\n'];
    assert '\n' !in front;
  }

  lemma WholeLineEnds(b: string, start: nat, size: nat, taken: nat)
    requires 0 < start && start + size < taken <= |b| && b[start - 1] == '\n' && b[taken - 1] == '\n'
    requires forall j :: 0 <= j < start - 1 ==> b[j] != '\n'
    requires forall j :: start + size <= j < taken - 1 ==> b[j] != '\n'
    ensures LineEnds(b[..taken]) == 2 + LineEnds(b[start..start + size])
  {
    var line, data, end := b[0..start], b[start..start + size], b[start + size..taken];
    assert b[..taken] == line + (data + end);
    OneLineEnd(b, 0, start);
    OneLineEnd(b, start + size, taken);
    LineEndsAdd(line, data + end);
    LineEndsAdd(data, end);
  }

  /** A chunk has two line ends besides those of its data, the last line has one. */
  lemma ChunkLineEnds(sizeOf: string -> int, b: string)
    ensures var c := NextChunk(sizeOf, b);
            && (c.Whole? ==> LineEnds(b[..c.taken]) == 2 + LineEnds(b[c.start..c.start + c.size]))
            && (c.Last? ==> LineEnds(b[..c.taken]) == 1)
  {
    match NextChunk(sizeOf, b)
    case Whole(start, size, taken) => WholeLineEnds(b, start, size, taken);
    case Last(taken) => OneLineEnd(b, 0, taken);
    case Partial =>
  }

  /** Of the line ends taken, those that have not become content are even in number while the body goes on, and
      odd once it is complete. */
  predicate Paired(taken: string, before: Message, after: Parser) {
    after.message.Some? &&
    (LineEnds(taken) + LineEnds(before.content) + LineEnds(after.message.value.content)) % 2 ==
      if after.status.Completed? then 1 else 0
  }

  lemma WholeIsPaired(m: Message, b: string, c: Chunk, after: Parser)
    requires c.Whole? && c.start + c.size < c.taken <= |b|
    requires LineEnds(b[..c.taken]) == 2 + LineEnds(b[c.start..c.start + c.size])
    requires after.message == Some(m.(content := m.content + b[c.start..c.start + c.size]))
    requires !after.status.Completed?
    ensures Paired(b[..c.taken], m, after)
  {
    var data := b[c.start..c.start + c.size];
    LineEndsAdd(m.content, data);
    assert 2 + LineEnds(data) + LineEnds(m.content) + (LineEnds(m.content) + LineEnds(data))
           == 2 * (1 + LineEnds(data) + LineEnds(m.content));
  }

  lemma BiteIsPaired(p: Parser, m: Message, b: string)
    requires InChunks(p, m) && HttpBite(p, b).Some?
    ensures var s := HttpBite(p, b).value;
            && s.taken <= |b| && Paired(b[..s.taken], m, s.parser)
            && (s.parser.status.Completed? || InChunks(s.parser, s.parser.message.value))
  {
    ChunkLineEnds(p.reading.sizeOf, b);
    var c := NextChunk(p.reading.sizeOf, b);
    if c.Whole? {
      WholeIsPaired(m, b, c, HttpBite(p, b).value.parser);
    }
  }

  lemma PairedAfter(s: string, t: string, m: Message, q: Parser, r: Parser)
    requires q.message.Some? && !q.status.Completed? && Paired(s, m, q) && Paired(t, q.message.value, r)
    ensures Paired(s + t, m, r)
  {
    LineEndsAdd(s, t);
  }

  lemma PairedFurther(b: string, n: nat, m: Message, q: Parser, r: Step<Parser>, all: Step<Parser>)
    requires n <= |b| && r.taken <= |b| - n && all == Further(n, r)
    requires q.message.Some? && !q.status.Completed? && Paired(b[..n], m, q)
    requires Paired(b[n..][..r.taken], q.message.value, r.parser)
    ensures Paired(b[..all.taken], m, all.parser)
  {
    assert b[..n + r.taken] == b[..n] + b[n..][..r.taken];
    PairedAfter(b[..n], b[n..][..r.taken], m, q, r.parser);
  }

  lemma LastIsPaired(p: Parser, m: Message, b: string)
    requires InChunks(p, m) && (HttpBite(p, b).None? || HttpBite(p, b).value.parser.status.Completed?)
    ensures Paired(b[..Append(p, b).taken], m, Append(p, b).parser)
  {
    if HttpBite(p, b).None? {
      AppendStops(p, b);
    } else {
      var s := HttpBite(p, b).value;
      AppendStep(p, b, s);
      BiteIsPaired(p, m, b);
      AppendStops(s.parser, b[s.taken..]);
    }
  }

  lemma {:induction false} ChunksArePaired(p: Parser, m: Message, b: string)
    requires InChunks(p, m)
    ensures Paired(b[..Append(p, b).taken], m, Append(p, b).parser)
    decreases |b|
  {
    if HttpBite(p, b).None? || HttpBite(p, b).value.parser.status.Completed? {
      LastIsPaired(p, m, b);
    } else {
      var s := HttpBite(p, b).value;
      AppendStep(p, b, s);
      BiteIsPaired(p, m, b);
      ChunksArePaired(s.parser, s.parser.message.value, b[s.taken..]);
      PairedFurther(b, s.taken, m, s.parser, Append(s.parser, b[s.taken..]), Append(p, b));
    }
  }

  lemma PlainAlone(p: Parser, m: Message, b: string)
    requires p.status == Content && p.message == Some(m)
    requires !p.reading.isChunked(m.headers) || (m.kind.Response? && p.ignoreContent)
    ensures Append(p, b) == if ContentBite(p, m, b).Some? then ContentBite(p, m, b).value else Step(p, 0)
  {
    if HttpBite(p, b).Some? {
      var s := HttpBite(p, b).value;
      AppendStep(p, b, s);
      AppendStops(s.parser, b[s.taken..]);
    } else {
      AppendStops(p, b);
    }
  }

  lemma NotPairedBoth(line: string, s: string, m: Message, r: Parser)
    requires LineEnds(line) == 1
    ensures !(Paired(s, m, r) && Paired(line + s, m, r))
  {
    LineEndsAdd(line, s);
  }

  lemma LineIsNoChunk(q: Parser, m: Message, b: string, n: nat)
    requires InChunks(q, m) && 0 < n <= |b|
    requires b[n - 1] == '\n' && forall j :: 0 <= j < n - 1 ==> b[j] != '\n'
    ensures Append(q, b) != Further(n, Append(q, b[n..]))
  {
    ChunksArePaired(q, m, b);
    ChunksArePaired(q, m, b[n..]);
    OneLineEnd(b, 0, n);
    NotFurther(m, b, n, Append(q, b), Append(q, b[n..]));
  }

  lemma NotFurther(m: Message, b: string, n: nat, all: Step<Parser>, r: Step<Parser>)
    requires n <= |b| && LineEnds(b[0..n]) == 1 && all.taken <= |b| && r.taken <= |b| - n
    requires Paired(b[..all.taken], m, all.parser) && Paired(b[n..][..r.taken], m, r.parser)
    ensures all != Further(n, r)
  {
    assert b[..n + r.taken] == b[0..n] + b[n..][..r.taken];
    NotPairedBoth(b[0..n], b[n..][..r.taken], m, r.parser);
  }

  /** Reading a line as the last of the headers is never the same as leaving it to the content. */
  lemma LineIsNotContent(q: Parser, m: Message, b: string, n: nat)
    requires q.status == Content && q.message == Some(m) && m.content == [] && 0 < n <= |b| && b[0] != '\n'
    requires b[n - 1] == '\n' && forall j :: 0 <= j < n - 1 ==> b[j] != '\n'
    ensures Append(q, b) != Further(n, Append(q, b[n..]))
  {
    if q.reading.isChunked(m.headers) && !(m.kind.Response? && q.ignoreContent) {
      LineIsNoChunk(q, m, b, n);
    } else {
      PlainAlone(q, m, b);
      PlainAlone(q, m, b[n..]);
    }
  }

  lemma CutLineMatters(p: Parser, m: Message, x: string, y: string)
    requires p.status == Header && p.message == Some(m) && m.content == []
    requires LineLen(x) == 0 && x != [] && x[0] == '\r'
    ensures Append(p, x + y) == Continue(p, x, y) <==> LineLen(y) == 0
  {
    var q := p.(status := Content);
    var b := x + y;
    LineLenOver(x, y);
    AppendStep(p, x, Step(q, 0));
    assert x[0..] == x && b[0..] == b;
    assert Continue(p, x, y) == Append(q, b) by {
      CutMakesNoDifference(q, x, y);
    }
    AppendStep(p, b, HttpBite(p, b).value);
    if LineLen(y) > 0 {
      var n := LineLen(b);
      ContentKeepsHeaders(q, m, b);
      match p.reading.readLine(b[..n])
      case BadLine => AppendStops(p.(status := Fault), b);
      case NoHeader => LineIsNotContent(q, m, b, n);
      case Field(name, value) =>
        var m' := AddLine(m, Field(name, value));
        ContentKeepsHeaders(q.(message := Some(m')), m', b[n..]);
    }
  }

  lemma FirstBiteOfCut(p: Parser, x: string, y: string)
    requires Sound(p) && CutAtCr(p, x) && (p.status.StartLine? || LineLen(x) > 0)
    ensures HttpBite(p, x).Some? && HttpBite(p, x).value.taken > 0 && HttpBite(p, x + y) == HttpBite(p, x)
    ensures var s := HttpBite(p, x).value; CutAtCr(s.parser, x[s.taken..])
  {
    LineStands(x, y);
  }

  /** Cutting the input makes a difference exactly if the cut comes in a header line that begins with CR and the
      rest of that line arrives behind it. */
  lemma {:induction false} CutMattersExactly(p: Parser, x: string, y: string)
    requires Sound(p)
    ensures Append(p, x + y) == Continue(p, x, y) <==> Harmless(p, x, y)
    decreases |x|
  {
    if !CutAtCr(p, x) {
      CutMakesNoDifference(p, x, y);
    } else if p.status.StartLine? || LineLen(x) > 0 {
      FirstBiteOfCut(p, x, y);
      BiteIsSound(p, x);
      var s := HttpBite(p, x).value;
      AppendStep(p, x, s);
      AppendStep(p, x + y, s);
      BitesShrink();
      CutBehindFirst(HttpBite, Rank, p, s.parser, x, y, s.taken);
      CutMattersExactly(s.parser, x[s.taken..], y);
    } else {
      CutLineMatters(p, p.message.value, x, y);
    }
  }

  // ----- any number of fragments -----

  lemma BiteKeepsCut(p: Parser, x: string, y: string)
    requires Sound(p) && !CutAtCr(p, x) && HttpBite(p, x).Some?
    ensures var s := HttpBite(p, x).value;
            s.taken <= |x| && (CutAtCr(s.parser, x[s.taken..] + y) <==> CutAtCr(p, x + y))
  {
    BiteStands(p, x, y);
    var s := HttpBite(p, x).value;
    assert (x + y)[s.taken..] == x[s.taken..] + y;
    if p.status.StartLine? || p.status.Header? {
      LineStands(x, y);
    }
  }

  lemma CutFurther(p: Parser, q: Parser, x: string, y: string, n: nat, r: Step<Parser>, all: Step<Parser>)
    requires n <= |x| && r.taken <= |x| - n && all == Further(n, r)
    requires CutAtCr(r.parser, x[n..][r.taken..] + y) <==> CutAtCr(q, x[n..] + y)
    requires CutAtCr(q, x[n..] + y) <==> CutAtCr(p, x + y)
    ensures CutAtCr(all.parser, x[all.taken..] + y) <==> CutAtCr(p, x + y)
  {
    assert x[n + r.taken..] == x[n..][r.taken..];
  }

  /** Whether a later cut comes in such a line can be told from the input alone. */
  lemma {:induction false} AppendKeepsCut(p: Parser, x: string, y: string)
    requires Sound(p) && !CutAtCr(p, x)
    ensures var r := Append(p, x); CutAtCr(r.parser, x[r.taken..] + y) <==> CutAtCr(p, x + y)
    decreases |x|, Rank(p)
  {
    if HttpBite(p, x).Some? {
      var s := HttpBite(p, x).value;
      AppendStep(p, x, s);
      BiteKeepsCut(p, x, y);
      BiteStands(p, x, y);
      BiteIsSound(p, x);
      AppendKeepsCut(s.parser, x[s.taken..], y);
      CutFurther(p, s.parser, x, y, s.taken, Append(s.parser, x[s.taken..]), Append(p, x));
    } else {
      AppendStops(p, x);
      assert x[0..] == x;
    }
  }

  lemma {:induction false} HeadersAreOver(p: Parser, b: string)
    requires p.status.Content? || p.status.Completed? || p.status.Fault?
    ensures !Append(p, b).parser.status.Header? && !Append(p, b).parser.status.StartLine?
    decreases |b|, Rank(p)
  {
    if HttpBite(p, b).Some? {
      var s := HttpBite(p, b).value;
      AppendStep(p, b, s);
      HeadersAreOver(s.parser, b[s.taken..]);
    } else {
      AppendStops(p, b);
    }
  }

  lemma {:induction false} CutAtCrEndsHeaders(p: Parser, x: string)
    requires Sound(p) && CutAtCr(p, x)
    ensures var r := Append(p, x).parser; !r.status.Header? && !r.status.StartLine?
    decreases |x|, Rank(p)
  {
    var s := HttpBite(p, x).value;
    AppendStep(p, x, s);
    BiteIsSound(p, x);
    if s.parser.status.Header? {
      CutAtCrEndsHeaders(s.parser, x[s.taken..]);
    } else {
      HeadersAreOver(s.parser, x[s.taken..]);
    }
  }

  /** The cut behind the first j fragments does no harm. */
  ghost predicate HarmlessAt(p: Parser, pending: string, fragments: seq<string>, j: nat)
    requires j <= |fragments|
  {
    Harmless(p, pending + Concat(fragments[..j]), Concat(fragments[j..]))
  }

  ghost predicate AllHarmless(p: Parser, pending: string, fragments: seq<string>) {
    forall j :: 0 < j < |fragments| ==> HarmlessAt(p, pending, fragments, j)
  }

  lemma FirstCut(p: Parser, pending: string, fragments: seq<string>)
    requires fragments != []
    ensures Concat(fragments[..1]) == fragments[0]
    ensures |fragments| > 1 ==>
              (HarmlessAt(p, pending, fragments, 1) <==> Harmless(p, pending + fragments[0], Concat(fragments[1..])))
  {
    assert fragments[..1][1..] == [];
    assert Concat(fragments[..1]) == fragments[0] + Concat(fragments[..1][1..]);
  }

  lemma LaterCut(p: Parser, pending: string, fragments: seq<string>, j: nat)
    requires 0 < j < |fragments| - 1 && Sound(p) && !CutAtCr(p, pending + fragments[0])
    ensures var b := pending + fragments[0];
            var r := Append(p, b);
            HarmlessAt(r.parser, b[r.taken..], fragments[1..], j) <==> HarmlessAt(p, pending, fragments, j + 1)
  {
    var b := pending + fragments[0];
    var y := Concat(fragments[1..][..j]);
    assert fragments[..j + 1][1..] == fragments[1..][..j] && fragments[1..][j..] == fragments[j + 1..];
    assert pending + Concat(fragments[..j + 1]) == b + y;
    AppendKeepsCut(p, b, y);
  }

  lemma LineEndBefore(s: string, k: nat, j: nat)
    requires k <= j <= |s| && LineEnd(s, j) > 0
    ensures LineEnd(s, k) > 0
  {
    assert s[LineEnd(s, j) - 1] == '\n';
  }

  lemma {:induction false} LineEndInAll(fragments: seq<string>, j: nat)
    requires j <= |fragments| && LineLen(Concat(fragments[j..])) > 0
    ensures LineLen(Concat(fragments)) > 0
    decreases j
  {
    assert fragments[0..] == fragments;
    if j > 0 {
      assert fragments[1..][j - 1..] == fragments[j..];
      LineEndInAll(fragments[1..], j - 1);
      var all, k := Concat(fragments), |fragments[0]|;
      assert all[k..] == Concat(fragments[1..]);
      LineLenBehind(all, k);
      LineEndBefore(all, 0, k);
    }
  }

  lemma AfterACutAtCr(p: Parser, pending: string, fragments: seq<string>)
    requires |fragments| > 1 && Sound(p) && CutAtCr(p, pending + fragments[0])
    ensures AllHarmless(p, pending, fragments) <==> LineLen(Concat(fragments[1..])) == 0
  {
    FirstCut(p, pending, fragments);
    if LineLen(Concat(fragments[1..])) == 0 {
      forall j | 0 < j < |fragments| ensures HarmlessAt(p, pending, fragments, j) {
        assert fragments[1..][j - 1..] == fragments[j..];
        if LineLen(Concat(fragments[j..])) > 0 {
          LineEndInAll(fragments[1..], j - 1);
        }
      }
    } else {
      assert !HarmlessAt(p, pending, fragments, 1);
    }
  }

  lemma BeforeACutAtCr(p: Parser, pending: string, fragments: seq<string>)
    requires |fragments| > 1 && Sound(p) && !CutAtCr(p, pending + fragments[0])
    ensures var b := pending + fragments[0];
            var r := Append(p, b);
            AllHarmless(r.parser, b[r.taken..], fragments[1..]) <==> AllHarmless(p, pending, fragments)
  {
    var b := pending + fragments[0];
    var r := Append(p, b);
    FirstCut(p, pending, fragments);
    forall j | 0 < j < |fragments| - 1
      ensures HarmlessAt(r.parser, b[r.taken..], fragments[1..], j) <==> HarmlessAt(p, pending, fragments, j + 1)
    {
      LaterCut(p, pending, fragments, j);
    }
    if AllHarmless(r.parser, b[r.taken..], fragments[1..]) {
      forall j | 0 < j < |fragments| ensures HarmlessAt(p, pending, fragments, j) {
        assert j > 1 ==> HarmlessAt(r.parser, b[r.taken..], fragments[1..], j - 1);
      }
    }
  }

  lemma {:induction false} FragmentsWithPending(p: Parser, pending: string, fragments: seq<string>)
    requires Sound(p) && fragments != []
    ensures Shrinks(HttpBite, Rank)
    ensures Feed(HttpBite, Rank, p, pending, fragments) == Append(p, pending + Concat(fragments)) <==>
            AllHarmless(p, pending, fragments)
    decreases |fragments|
  {
    BitesShrink();
    var b := pending + fragments[0];
    var r := Append(p, b);
    if |fragments| == 1 {
      assert Concat(fragments[1..]) == [] && pending + Concat(fragments) == b;
      assert Feed(HttpBite, Rank, r.parser, b[r.taken..], fragments[1..]) == Step(r.parser, 0);
    } else {
      var y := Concat(fragments[1..]);
      assert pending + Concat(fragments) == b + y;
      AppendIsSound(p, b);
      FragmentsWithPending(r.parser, b[r.taken..], fragments[1..]);
      CutMattersExactly(p, b, y);
      if CutAtCr(p, b) {
        CutAtCrEndsHeaders(p, b);
        AfterACutAtCr(p, pending, fragments);
      } else {
        BeforeACutAtCr(p, pending, fragments);
      }
    }
  }

  /** Calling append for each fragment, with what was left of those before it. */
  function AppendAll(p: Parser, fragments: seq<string>): Step<Parser> {
    BitesShrink();
    Feed(HttpBite, Rank, p, [], fragments)
  }

  /** That comes to what one call on everything comes to, exactly if no cut comes in a header line that begins with
      CR and ends later. */
  lemma FragmentationMakesNoDifference(p: Parser, fragments: seq<string>)
    requires Sound(p) && fragments != []
    ensures AppendAll(p, fragments) == Append(p, Concat(fragments)) <==>
            forall j :: 0 < j < |fragments| ==> Harmless(p, Concat(fragments[..j]), Concat(fragments[j..]))
  {
    FragmentsWithPending(p, [], fragments);
    forall j | 0 < j < |fragments| ensures [] + Concat(fragments[..j]) == Concat(fragments[..j]) {
    }
    assert [] + Concat(fragments) == Concat(fragments);
    if AllHarmless(p, [], fragments) {
      forall j | 0 < j < |fragments| ensures Harmless(p, Concat(fragments[..j]), Concat(fragments[j..])) {
        assert HarmlessAt(p, [], fragments, j);
      }
    }
  }

  /** A cut between CR and LF of the line that ends the headers, wherever that stands in the input. */
  lemma BlankLineMustNotBeCut(p: Parser, w: string, y: string)
    requires Sound(p) && Append(p, w).parser.status.Header? && Append(p, w).taken == |w|
    requires y != [] && y[0] == '\n'
    ensures Append(p, w + "\r" + y) != Continue(p, w + "\r", y)
  {
    if CutAtCr(p, w) {
      CutAtCrEndsHeaders(p, w);
    }
    AppendKeepsCut(p, w, "\r");
    assert w[|w|..] + "\r" == "\r";
    CutMattersExactly(p, w + "\r", y);
  }
}
