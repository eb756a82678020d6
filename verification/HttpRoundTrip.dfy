/** Writing an HTTP message and parsing it gives the message back. */
module HttpRoundTrip {
  import opened Basics
  import opened HttpText
  import opened Numerals
  import opened Incremental
  import opened HttpParsing
  import opened HttpHeaders
  import opened HttpFragments
  import opened HttpChunks

  // ----- chunks as the standard writes them -----

  function SizeLine(n: nat): string {
    Numeral(n, true) + "\r\n"
  }

  function StandardPiece(data: string): Piece {
    Piece(SizeLine(|data|), data, "\r\n")
  }

  lemma NumeralIsPlain(n: nat, hex: bool)
    ensures forall i :: 0 <= i < |Numeral(n, hex)| ==>
              var c := Numeral(n, hex)[i]; c != '\n' && c != '\r' && c != '\0' && !IsSpace(c)
  {
  }

  lemma SizeLineIsRead(n: nat)
    requires n < 0x8000_0000
    ensures IsLine(SizeLine(n)) && SizeOf(SizeLine(n)) == n
  {
    NumeralIsPlain(n, true);
    assert n < Pow16(8) by {
      assert Pow16(4) == 65536;
      assert Pow16(6) == 256 * Pow16(4);
      assert Pow16(8) == 256 * Pow16(6);
    }
    NumeralIsShort(n, 8);
    NoneMissing(SizeLine(n), '\0');
    assert CString(SizeLine(n)) == SizeLine(n);
    assert SizeLine(n)[0] == Numeral(n, true)[0];
    UpToEolStops(Numeral(n, true), "\r\n");
    assert ShortLine(SizeLine(n)) == Numeral(n, true) + [];
    ReadBack(n, true, []);
  }

  /** Any data shorter than 2^31 bytes can be written in chunks with hexadecimal size lines. */
  lemma StandardPieces(cs: seq<Piece>)
    requires forall c :: c in cs ==> 0 < |c.data| < 0x8000_0000 && c == StandardPiece(c.data)
    ensures (forall c :: c in cs ==> IsPiece(SizeOf, c)) && IsLast(SizeOf, SizeLine(0))
  {
    SizeLineIsRead(0);
    forall c | c in cs ensures IsPiece(SizeOf, c) {
      SizeLineIsRead(|c.data|);
    }
  }

  // ----- headers -----

  /** A header that can be written on a line of its own and read back. */
  predicate IsField(h: (string, string)) {
    && (forall i :: 0 <= i < |h.0| ==> h.0[i] != ':' && !IsEol(h.0[i]) && h.0[i] != '\0')
    && (forall i :: 0 <= i < |h.1| ==> !IsEol(h.1[i]) && h.1[i] != '\0')
    && h.1 != [] && h.1[0] != ' '
  }

  function FieldLine(h: (string, string)): string {
    h.0 + ": " + h.1 + "\r\n"
  }

  function FieldLines(hs: seq<(string, string)>): string {
    if hs == [] then [] else FieldLine(hs[0]) + FieldLines(hs[1..])
  }

  lemma {:induction false} UpToEolStops(s: string, t: string)
    requires (forall i :: 0 <= i < |s| ==> !IsEol(s[i])) && t != [] && IsEol(t[0])
    ensures UpToEol(s + t) == s
    decreases |s|
  {
    if s == [] {
      assert s + t == t;
    } else {
      assert (s + t)[1..] == s[1..] + t;
      UpToEolStops(s[1..], t);
    }
  }

  lemma FieldLineIsRead(h: (string, string))
    requires IsField(h)
    ensures IsLine(FieldLine(h)) && ReadLine(FieldLine(h)) == Field(h.0, h.1)
  {
    var s := FieldLine(h);
    NoneMissing(s, '\0');
    assert CString(s) == s;
    FindIs(s, ':', |h.0|);
    var after := " " + h.1 + "\r\n";
    assert s[|h.0| + 1..] == after;
    assert s[..|h.0|] == h.0;
    assert SkipEols(after) == after;
    assert UpToEol(after) == " " + h.1 by {
      assert after == (" " + h.1) + "\r\n";
      UpToEolStops(" " + h.1, "\r\n");
    }
    assert SkipBlanks(" " + h.1) == h.1 by {
      assert (" " + h.1)[1..] == h.1;
    }
  }

  function WithHeaders(m: Message, hs: seq<(string, string)>): Message {
    m.(headers := m.headers + hs)
  }

  lemma TakeField(p: Parser, m: Message, h: (string, string), rest: string)
    requires p.status == Header && p.message == Some(m) && p.reading == SourceReading() && IsField(h)
    ensures Append(p, FieldLine(h) + rest) ==
              Further(|FieldLine(h)|, Append(p.(message := Some(WithHeaders(m, [h]))), rest))
  {
    FieldLineIsRead(h);
    LineIsTaken(FieldLine(h), rest);
    AppendStep(p, FieldLine(h) + rest, HttpBite(p, FieldLine(h) + rest).value);
  }

  lemma TakeBlankLine(p: Parser, m: Message, rest: string)
    requires p.status == Header && p.message == Some(m) && p.reading == SourceReading()
    ensures Append(p, "\r\n" + rest) == Further(2, Append(p.(status := Content), rest))
  {
    assert ReadLine("\r\n") == NoHeader by { assert CString("\r\n") == "\r\n"; }
    LineIsTaken("\r\n", rest);
    AppendStep(p, "\r\n" + rest, HttpBite(p, "\r\n" + rest).value);
  }

  lemma FirstField(m: Message, hs: seq<(string, string)>, rest: string)
    requires hs != []
    ensures FieldLines(hs) + rest == FieldLine(hs[0]) + (FieldLines(hs[1..]) + rest)
    ensures |FieldLines(hs)| == |FieldLine(hs[0])| + |FieldLines(hs[1..])|
    ensures WithHeaders(WithHeaders(m, [hs[0]]), hs[1..]) == WithHeaders(m, hs)
  {
    assert (m.headers + [hs[0]]) + hs[1..] == m.headers + hs;
  }

  lemma {:induction false} TakeFields(p: Parser, m: Message, hs: seq<(string, string)>, rest: string)
    requires p.status == Header && p.message == Some(m) && p.reading == SourceReading()
    requires forall h :: h in hs ==> IsField(h)
    ensures Append(p, FieldLines(hs) + rest) ==
              Further(|FieldLines(hs)|, Append(p.(message := Some(WithHeaders(m, hs))), rest))
    decreases |hs|
  {
    if hs == [] {
      assert FieldLines(hs) + rest == rest;
      assert WithHeaders(m, hs) == m;
    } else {
      FirstField(m, hs, rest);
      TakeField(p, m, hs[0], FieldLines(hs[1..]) + rest);
      var m' := WithHeaders(m, [hs[0]]);
      TakeFields(p.(message := Some(m')), m', hs[1..], rest);
    }
  }

  /** The start line, the headers and the blank line. */
  function Head(start: string, hs: seq<(string, string)>): string {
    start + (FieldLines(hs) + "\r\n")
  }

  /** The parser before it is given anything. */
  function New(ignoreContent: bool): Parser {
    Parser(StartLine, ignoreContent, None, SourceReading())
  }

  /** A message with that start line, those headers and that content. */
  function Written(start: string, hs: seq<(string, string)>, content: string): Message {
    NewMessage(SourceReading(), start).(headers := hs, content := content)
  }

  function With(status: Status, ignoreContent: bool, m: Message): Parser {
    Parser(status, ignoreContent, Some(m), SourceReading())
  }

  lemma StartIsTaken(ignoreContent: bool, start: string, tail: string)
    requires IsLine(start)
    ensures Append(New(ignoreContent), start + tail) ==
              Further(|start|, Append(With(Header, ignoreContent, NewMessage(SourceReading(), start)), tail))
  {
    LineIsTaken(start, tail);
    AppendStep(New(ignoreContent), start + tail, HttpBite(New(ignoreContent), start + tail).value);
  }

  lemma HeadIsTaken(ignoreContent: bool, start: string, hs: seq<(string, string)>, rest: string)
    requires IsLine(start) && forall h :: h in hs ==> IsField(h)
    ensures Append(New(ignoreContent), Head(start, hs) + rest) ==
              Further(|Head(start, hs)|, Append(With(Content, ignoreContent, Written(start, hs, [])), rest))
  {
    var m := NewMessage(SourceReading(), start);
    var tail := FieldLines(hs) + ("\r\n" + rest);
    assert Head(start, hs) + rest == start + tail;
    StartIsTaken(ignoreContent, start, tail);
    TakeFields(With(Header, ignoreContent, m), m, hs, "\r\n" + rest);
    assert WithHeaders(m, hs) == Written(start, hs, []);
    TakeBlankLine(With(Header, ignoreContent, Written(start, hs, [])), Written(start, hs, []), rest);
  }

  lemma LengthIsRead(n: nat)
    requires n < 0x8000_0000
    ensures Atoi(Numeral(n, false)) == n
  {
    NumeralIsPlain(n, false);
    NoneMissing(Numeral(n, false), '\0');
    assert CString(Numeral(n, false)) == Numeral(n, false) + [];
    ReadBack(n, false, []);
  }

  /** A message whose headers give the length of its content. */
  ghost predicate IsPlain(ignoreContent: bool, start: string, hs: seq<(string, string)>, content: string) {
    && IsLine(start) && (forall h :: h in hs ==> IsField(h))
    && |content| < 0x8000_0000 && GivesLength(hs, |content|)
    && !Says(hs, "Transfer-Encoding", "chunked") && !(BeginsWithHttp(start) && ignoreContent)
  }

  lemma PlainIsRead(ignoreContent: bool, start: string, hs: seq<(string, string)>, content: string)
    requires IsPlain(ignoreContent, start, hs, content)
    ensures LengthOf(hs) == |content| && !IsChunked(hs) && !(KindOf(start).Response? && ignoreContent)
  {
    IsChunkedExactly(hs);
    KindExactly(start);
    LengthIsGiven(hs, |content|);
    LengthIsRead(|content|);
  }

  lemma PlainContent(ignoreContent: bool, start: string, hs: seq<(string, string)>, content: string, b: string)
    requires IsPlain(ignoreContent, start, hs, content)
    requires |b| < |content| || b == content + b[|content|..]
    ensures Append(With(Content, ignoreContent, Written(start, hs, [])), b) ==
              if |b| < |content| then Step(With(Content, ignoreContent, Written(start, hs, [])), 0)
              else Step(With(Completed, ignoreContent, Written(start, hs, content)), |content|)
  {
    var p := With(Content, ignoreContent, Written(start, hs, []));
    PlainIsRead(ignoreContent, start, hs, content);
    assert [] + b[..0] == [];
    if |b| < |content| {
      AppendStops(p, b);
    } else {
      assert b[..|content|] == content && [] + content == content;
      AppendStep(p, b, HttpBite(p, b).value);
      AppendStops(HttpBite(p, b).value.parser, b[|content|..]);
    }
  }

  lemma PlainMessageIsReadBack(ignoreContent: bool, start: string, hs: seq<(string, string)>, content: string,
      rest: string)
    requires IsPlain(ignoreContent, start, hs, content)
    ensures Append(New(ignoreContent), Head(start, hs) + (content + rest)) ==
              Step(With(Completed, ignoreContent, Written(start, hs, content)), |Head(start, hs)| + |content|)
  {
    HeadIsTaken(ignoreContent, start, hs, content + rest);
    assert (content + rest)[|content|..] == rest;
    PlainContent(ignoreContent, start, hs, content, content + rest);
  }

  /** A message that ends with its head: a response whose content is to be ignored, or one whose headers
      speak neither of chunks nor of a length. */
  ghost predicate IsHeadOnly(ignoreContent: bool, start: string, hs: seq<(string, string)>) {
    && IsLine(start) && (forall h :: h in hs ==> IsField(h))
    && ((BeginsWithHttp(start) && ignoreContent)
        || (!Says(hs, "Transfer-Encoding", "chunked") && Lacks(hs, "Content-Length")))
  }

  /** It is complete without any content, whatever follows. */
  lemma HeadOnlyIsReadBack(ignoreContent: bool, start: string, hs: seq<(string, string)>, rest: string)
    requires IsHeadOnly(ignoreContent, start, hs)
    ensures Append(New(ignoreContent), Head(start, hs) + rest) ==
              Step(With(Completed, ignoreContent, Written(start, hs, [])), |Head(start, hs)|)
  {
    var p := With(Content, ignoreContent, Written(start, hs, []));
    HeadIsTaken(ignoreContent, start, hs, rest);
    IsChunkedExactly(hs);
    KindExactly(start);
    if Lacks(hs, "Content-Length") { NoLengthIsZero(hs); }
    assert [] + rest[..0] == [] && rest[0..] == rest;
    AppendStep(p, rest, HttpBite(p, rest).value);
    AppendStops(HttpBite(p, rest).value.parser, rest);
  }

  /** Whatever the length says, with no chunks: nothing to wait for if it is zero, nothing ever if it is negative,
      and otherwise that much all at once. */
  lemma LengthIsObeyed(ignoreContent: bool, start: string, hs: seq<(string, string)>, b: string)
    requires !Says(hs, "Transfer-Encoding", "chunked") && !(BeginsWithHttp(start) && ignoreContent)
    ensures var m, n := Written(start, hs, []), LengthOf(hs);
            Append(With(Content, ignoreContent, m), b) ==
              if n == 0 then Step(With(Completed, ignoreContent, m), 0)
              else if n < 0 || |b| < n then Step(With(Content, ignoreContent, m), 0)
              else Step(With(Completed, ignoreContent, Written(start, hs, b[..n])), n)
  {
    var p, n := With(Content, ignoreContent, Written(start, hs, [])), LengthOf(hs);
    IsChunkedExactly(hs);
    KindExactly(start);
    assert [] + b[..0] == [] && b[0..] == b;
    if n < 0 || |b| < n {
      AppendStops(p, b);
    } else {
      assert [] + b[..n] == b[..n];
      AppendStep(p, b, HttpBite(p, b).value);
      AppendStops(HttpBite(p, b).value.parser, b[n..]);
    }
  }

  /** A message whose content comes in chunks. */
  ghost predicate IsInChunks(ignoreContent: bool, start: string, hs: seq<(string, string)>, cs: seq<Piece>,
      last: string) {
    && IsLine(start) && (forall h :: h in hs ==> IsField(h))
    && (forall c :: c in cs ==> IsPiece(SizeOf, c)) && IsLast(SizeOf, last)
    && Says(hs, "Transfer-Encoding", "chunked") && !(BeginsWithHttp(start) && ignoreContent)
  }

  lemma ChunksAreRead(ignoreContent: bool, start: string, hs: seq<(string, string)>)
    requires Says(hs, "Transfer-Encoding", "chunked") && !(BeginsWithHttp(start) && ignoreContent)
    ensures IsChunked(hs) && !(KindOf(start).Response? && ignoreContent)
  {
    IsChunkedExactly(hs);
    KindExactly(start);
  }

  lemma ChunkedMessageIsReadBack(ignoreContent: bool, start: string, hs: seq<(string, string)>, cs: seq<Piece>,
      last: string, rest: string)
    requires IsInChunks(ignoreContent, start, hs, cs, last)
    ensures Append(New(ignoreContent), Head(start, hs) + (Encode(cs) + (last + rest))) ==
              Step(With(Completed, ignoreContent, Written(start, hs, Body(cs))),
                   |Head(start, hs)| + |Encode(cs)| + |last|)
  {
    HeadIsTaken(ignoreContent, start, hs, Encode(cs) + (last + rest));
    var m := Written(start, hs, []);
    ChunksAreRead(ignoreContent, start, hs);
    DecodesWhatWasEncoded(With(Content, ignoreContent, m), m, cs, last, rest);
    assert m.content + Body(cs) == Body(cs);
  }

  /** A chunk with a negative size is never taken, and nothing behind it. */
  lemma NegativeSizeIsStuck(ignoreContent: bool, start: string, hs: seq<(string, string)>, line: string, rest: string)
    requires IsLine(start) && (forall h :: h in hs ==> IsField(h)) && IsLine(line) && SizeOf(line) < 0
    requires Says(hs, "Transfer-Encoding", "chunked") && !(BeginsWithHttp(start) && ignoreContent)
    ensures Append(New(ignoreContent), Head(start, hs) + (line + rest)) ==
              Step(With(Content, ignoreContent, Written(start, hs, [])), |Head(start, hs)|)
  {
    HeadIsTaken(ignoreContent, start, hs, line + rest);
    ChunksAreRead(ignoreContent, start, hs);
    LineIsTaken(line, rest);
    AppendStops(With(Content, ignoreContent, Written(start, hs, [])), line + rest);
  }

  // ----- any fragments -----

  /** All header lines, and the blank line behind them. */
  function Lines(hs: seq<(string, string)>, tail: string): string {
    FieldLines(hs) + ("\r\n" + tail)
  }

  lemma FirstLine(hs: seq<(string, string)>, tail: string, n: nat)
    requires hs != [] && IsField(hs[0]) && n <= |Lines(hs, tail)|
    ensures var line, b := FieldLine(hs[0]), Lines(hs, tail)[..n];
            && IsLine(line) && line[0] != '\r' && line[0] != '\n' && ReadLine(line).Field?
            && (n < |line| ==> b == line[..n])
            && (n >= |line| ==> n - |line| <= |Lines(hs[1..], tail)| && b == line + Lines(hs[1..], tail)[..n - |line|])
  {
    FieldLineIsRead(hs[0]);
    FirstField(NewMessage(SourceReading(), []), hs, "\r\n" + tail);
    assert FieldLine(hs[0])[0] == if hs[0].0 == [] then ':' else hs[0].0[0];
  }

  lemma NoCutInField(reading: Reading, line: string, n: nat)
    requires IsLine(line) && line[0] != '\r' && n < |line|
    ensures !HeadersCutAtCr(reading, line[..n])
  {
    LineIsAwaited(line, n);
  }

  lemma NoCutUpToField(reading: Reading, line: string, rest: string)
    requires IsLine(line) && !IsEol(line[0]) && reading.readLine(line).Field?
    ensures HeadersCutAtCr(reading, line + rest) <==> HeadersCutAtCr(reading, rest)
  {
    LineIsTaken(line, rest);
  }

  lemma CutInBlankLine(reading: Reading, tail: string, n: nat)
    requires n <= |"\r\n" + tail|
    ensures HeadersCutAtCr(reading, ("\r\n" + tail)[..n]) <==> n == 1
  {
    var b := ("\r\n" + tail)[..n];
    if n >= 2 {
      assert b == "\r\n" + tail[..n - 2];
      LineIsTaken("\r\n", tail[..n - 2]);
    } else {
      assert b == "\r\n"[..n];
      LineIsAwaited("\r\n", n);
    }
  }

  lemma CutInFields(reading: Reading, hs: seq<(string, string)>, tail: string, n: nat)
    requires hs != [] && IsField(hs[0]) && n <= |Lines(hs, tail)| && reading.readLine(FieldLine(hs[0])).Field?
    ensures var k := |FieldLine(hs[0])|;
            && (n >= k ==> n - k <= |Lines(hs[1..], tail)|)
            && (HeadersCutAtCr(reading, Lines(hs, tail)[..n]) <==>
                n >= k && HeadersCutAtCr(reading, Lines(hs[1..], tail)[..n - k]))
  {
    var line := FieldLine(hs[0]);
    FirstLine(hs, tail, n);
    if n < |line| {
      NoCutInField(reading, line, n);
    } else {
      NoCutUpToField(reading, line, Lines(hs[1..], tail)[..n - |line|]);
    }
  }

  /** The only cut among the header lines that comes behind a CR at the beginning of a line is that in the blank
      line. */
  lemma {:induction false} OnlyCutAtCr(reading: Reading, hs: seq<(string, string)>, tail: string, n: nat)
    requires (forall h :: h in hs ==> IsField(h) && reading.readLine(FieldLine(h)).Field?) && n <= |Lines(hs, tail)|
    ensures HeadersCutAtCr(reading, Lines(hs, tail)[..n]) <==> n == |FieldLines(hs)| + 1
    decreases |hs|
  {
    if hs == [] {
      assert Lines(hs, tail) == "\r\n" + tail;
      CutInBlankLine(reading, tail, n);
    } else {
      var k := |FieldLine(hs[0])|;
      CutInFields(reading, hs, tail, n);
      if n >= k {
        OnlyCutAtCr(reading, hs[1..], tail, n - k);
      }
    }
  }

  lemma FieldsAreCut(hs: seq<(string, string)>, tail: string, n: nat)
    requires (forall h :: h in hs ==> IsField(h)) && n <= |Lines(hs, tail)|
    ensures HeadersCutAtCr(SourceReading(), Lines(hs, tail)[..n]) <==> n == |FieldLines(hs)| + 1
  {
    forall h | h in hs ensures ReadLine(FieldLine(h)).Field? {
      FieldLineIsRead(h);
    }
    OnlyCutAtCr(SourceReading(), hs, tail, n);
  }

  lemma CutBehindStart(p: Parser, start: string, lines: string)
    requires IsLine(start) && p.status.StartLine?
    ensures CutAtCr(p, start + lines) <==> HeadersCutAtCr(p.reading, lines)
  {
    LineIsTaken(start, lines);
  }

  lemma StartIsCut(ignoreContent: bool, start: string, hs: seq<(string, string)>, tail: string, n: nat)
    requires IsLine(start) && (forall h :: h in hs ==> IsField(h)) && n <= |Head(start, hs) + tail|
    ensures CutAtCr(New(ignoreContent), (Head(start, hs) + tail)[..n]) <==> n == |Head(start, hs)| - 1
  {
    var all := start + Lines(hs, tail);
    assert Head(start, hs) + tail == all;
    if n < |start| {
      assert all[..n] == start[..n];
      LineIsAwaited(start, n);
    } else {
      var k := n - |start|;
      assert all[..n] == start + Lines(hs, tail)[..k];
      CutBehindStart(New(ignoreContent), start, Lines(hs, tail)[..k]);
      FieldsAreCut(hs, tail, k);
    }
  }

  /** No cut comes between the CR and the LF of the blank line. */
  ghost predicate BlankLineIsWhole(start: string, hs: seq<(string, string)>, fragments: seq<string>) {
    forall j :: 0 < j < |fragments| ==> |Concat(fragments[..j])| != |Head(start, hs)| - 1
  }

  lemma HarmlessExactly(ignoreContent: bool, start: string, hs: seq<(string, string)>, tail: string,
      fragments: seq<string>, j: nat)
    requires IsLine(start) && (forall h :: h in hs ==> IsField(h))
    requires Concat(fragments) == Head(start, hs) + tail && 0 < j < |fragments|
    ensures Harmless(New(ignoreContent), Concat(fragments[..j]), Concat(fragments[j..])) <==>
            |Concat(fragments[..j])| != |Head(start, hs)| - 1
  {
    var all, n := Head(start, hs) + tail, |Concat(fragments[..j])|;
    ConcatSplit(fragments, j);
    assert all[..n] == Concat(fragments[..j]) && all[n..] == Concat(fragments[j..]);
    StartIsCut(ignoreContent, start, hs, tail, n);
    if n == |Head(start, hs)| - 1 {
      assert all[n..][0] == '\n';
    }
  }

  /** Cutting a message makes no difference exactly if the blank line is not cut. */
  lemma MessageInFragments(ignoreContent: bool, start: string, hs: seq<(string, string)>, tail: string,
      fragments: seq<string>)
    requires IsLine(start) && (forall h :: h in hs ==> IsField(h))
    requires fragments != [] && Concat(fragments) == Head(start, hs) + tail
    ensures (AppendAll(New(ignoreContent), fragments) ==
               Append(New(ignoreContent), Head(start, hs) + tail)) <==> BlankLineIsWhole(start, hs, fragments)
  {
    FragmentationMakesNoDifference(New(ignoreContent), fragments);
    forall j | 0 < j < |fragments|
      ensures Harmless(New(ignoreContent), Concat(fragments[..j]), Concat(fragments[j..])) <==>
              |Concat(fragments[..j])| != |Head(start, hs)| - 1
    {
      HarmlessExactly(ignoreContent, start, hs, tail, fragments, j);
    }
  }

  /** A message with its length is read back from its fragments exactly if the blank line is not cut; */
  lemma PlainMessageInFragments(ignoreContent: bool, start: string, hs: seq<(string, string)>, content: string,
      rest: string, fragments: seq<string>)
    requires IsPlain(ignoreContent, start, hs, content)
    requires fragments != [] && Concat(fragments) == Head(start, hs) + (content + rest)
    ensures (AppendAll(New(ignoreContent), fragments) ==
               Step(With(Completed, ignoreContent, Written(start, hs, content)), |Head(start, hs)| + |content|)) <==>
            BlankLineIsWhole(start, hs, fragments)
  {
    PlainMessageIsReadBack(ignoreContent, start, hs, content, rest);
    MessageInFragments(ignoreContent, start, hs, content + rest, fragments);
  }

  /** and so is a message in chunks. */
  lemma ChunkedMessageInFragments(ignoreContent: bool, start: string, hs: seq<(string, string)>, cs: seq<Piece>,
      last: string, rest: string, fragments: seq<string>)
    requires IsInChunks(ignoreContent, start, hs, cs, last)
    requires fragments != [] && Concat(fragments) == Head(start, hs) + (Encode(cs) + (last + rest))
    ensures (AppendAll(New(ignoreContent), fragments) ==
               Step(With(Completed, ignoreContent, Written(start, hs, Body(cs))),
                    |Head(start, hs)| + |Encode(cs)| + |last|)) <==>
            BlankLineIsWhole(start, hs, fragments)
  {
    ChunkedMessageIsReadBack(ignoreContent, start, hs, cs, last, rest);
    MessageInFragments(ignoreContent, start, hs, Encode(cs) + (last + rest), fragments);
  }

  // ----- when it is complete -----

  /** The message is complete after that input. */
  ghost predicate Completes(p: Parser, b: string) {
    match Append(p, b)
    case Step(q, _) => q.status.Completed?
  }

  /** Or after those fragments. */
  ghost predicate CompletesIn(p: Parser, fragments: seq<string>) {
    match AppendAll(p, fragments)
    case Step(q, _) => q.status.Completed?
  }

  predicate InHead(s: Status) { s.StartLine? || s.Header? }

  lemma StillInHeaders(p: Parser, m: Message, h: (string, string), rest: string)
    requires p.status == Header && p.message == Some(m) && p.reading == SourceReading() && IsField(h)
    requires Append(p.(message := Some(WithHeaders(m, [h]))), rest).parser.status.Header?
    ensures Append(p, FieldLine(h) + rest).parser.status.Header?
  {
    TakeField(p, m, h, rest);
  }

  lemma FieldIsAwaited(p: Parser, m: Message, h: (string, string), n: nat)
    requires p.status == Header && p.message == Some(m) && IsField(h) && n < |FieldLine(h)|
    ensures Append(p, FieldLine(h)[..n]).parser.status.Header?
  {
    FieldLineIsRead(h);
    LineIsAwaited(FieldLine(h), n);
    assert FieldLine(h)[0] == if h.0 == [] then ':' else h.0[0];
    AppendStops(p, FieldLine(h)[..n]);
  }

  lemma FirstFieldIsAwaited(p: Parser, m: Message, hs: seq<(string, string)>, n: nat)
    requires p.status == Header && p.message == Some(m) && hs != [] && IsField(hs[0]) && n < |FieldLine(hs[0])|
    requires n <= |Lines(hs, [])|
    ensures Append(p, Lines(hs, [])[..n]).parser.status.Header?
  {
    FirstLine(hs, [], n);
    FieldIsAwaited(p, m, hs[0], n);
  }

  lemma LaterFieldIsAwaited(p: Parser, m: Message, hs: seq<(string, string)>, n: nat)
    requires p.status == Header && p.message == Some(m) && p.reading == SourceReading() && hs != [] && IsField(hs[0])
    requires |FieldLine(hs[0])| <= n <= |Lines(hs, [])|
    requires var k := n - |FieldLine(hs[0])|;
             && k <= |Lines(hs[1..], [])|
             && Append(p.(message := Some(WithHeaders(m, [hs[0]]))), Lines(hs[1..], [])[..k]).parser.status.Header?
    ensures Append(p, Lines(hs, [])[..n]).parser.status.Header?
  {
    FirstLine(hs, [], n);
    StillInHeaders(p, m, hs[0], Lines(hs[1..], [])[..n - |FieldLine(hs[0])|]);
  }

  lemma {:induction false} FieldsAreAwaited(p: Parser, m: Message, hs: seq<(string, string)>, n: nat)
    requires p.status == Header && p.message == Some(m) && p.reading == SourceReading()
    requires (forall h :: h in hs ==> IsField(h)) && n <= |FieldLines(hs)|
    ensures Append(p, Lines(hs, [])[..n]).parser.status.Header?
    decreases |hs|
  {
    if hs == [] {
      assert Lines(hs, [])[..n] == [];
      AppendStops(p, []);
    } else {
      var k := |FieldLine(hs[0])|;
      FirstField(m, hs, []);
      if n < k {
        FirstFieldIsAwaited(p, m, hs, n);
      } else {
        var m' := WithHeaders(m, [hs[0]]);
        FieldsAreAwaited(p.(message := Some(m')), m', hs[1..], n - k);
        LaterFieldIsAwaited(p, m, hs, n);
      }
    }
  }

  lemma HeadIsAwaited(ignoreContent: bool, start: string, hs: seq<(string, string)>, n: nat)
    requires IsLine(start) && (forall h :: h in hs ==> IsField(h)) && n < |Head(start, hs)| - 1
    ensures InHead(Append(New(ignoreContent), Head(start, hs)[..n]).parser.status)
  {
    var p, b := New(ignoreContent), Head(start, hs)[..n];
    assert Head(start, hs) == start + Lines(hs, []) by { assert "\r\n" + [] == "\r\n"; }
    if n < |start| {
      assert b == start[..n];
      LineIsAwaited(start, n);
      AppendStops(p, b);
    } else {
      var k := n - |start|;
      assert b == start + Lines(hs, [])[..k];
      LineIsTaken(start, Lines(hs, [])[..k]);
      AppendStep(p, b, HttpBite(p, b).value);
      var m := NewMessage(SourceReading(), start);
      FieldsAreAwaited(With(Header, ignoreContent, m), m, hs, k);
    }
  }

  lemma UpTo(ignoreContent: bool, start: string, hs: seq<(string, string)>, tail: string, fragments: seq<string>,
      j: nat)
    requires IsLine(start) && (forall h :: h in hs ==> IsField(h))
    requires 0 < j <= |fragments| && Concat(fragments) == Head(start, hs) + tail
    requires BlankLineIsWhole(start, hs, fragments)
    ensures |Concat(fragments[..j])| <= |Head(start, hs) + tail|
    ensures AppendAll(New(ignoreContent), fragments[..j]) ==
              Append(New(ignoreContent), (Head(start, hs) + tail)[..|Concat(fragments[..j])|])
  {
    var n := |Concat(fragments[..j])|;
    var front := fragments[..j];
    ConcatSplit(fragments, j);
    assert (Head(start, hs) + tail)[..n] == Concat(front);
    FragmentationMakesNoDifference(New(ignoreContent), front);
    forall i | 0 < i < j ensures Harmless(New(ignoreContent), Concat(front[..i]), Concat(front[i..])) {
      assert front[..i] == fragments[..i];
      HarmlessExactly(ignoreContent, start, hs, tail, fragments, i);
      assert !CutAtCr(New(ignoreContent), Concat(fragments[..i])) by {
        ConcatSplit(fragments, i);
        assert Concat(fragments[..i]) == (Head(start, hs) + tail)[..|Concat(fragments[..i])|];
        StartIsCut(ignoreContent, start, hs, tail, |Concat(fragments[..i])|);
      }
    }
  }

  lemma HeadOrMore(ignoreContent: bool, start: string, hs: seq<(string, string)>, tail: string, n: nat)
    requires IsLine(start) && (forall h :: h in hs ==> IsField(h))
    requires n <= |Head(start, hs) + tail| && n != |Head(start, hs)| - 1
    ensures var h := |Head(start, hs)|;
            if n < h then InHead(Append(New(ignoreContent), (Head(start, hs) + tail)[..n]).parser.status)
            else Append(New(ignoreContent), (Head(start, hs) + tail)[..n]) ==
                   Further(h, Append(With(Content, ignoreContent, Written(start, hs, [])), tail[..n - h]))
  {
    var h := |Head(start, hs)|;
    if n < h {
      assert (Head(start, hs) + tail)[..n] == Head(start, hs)[..n];
      HeadIsAwaited(ignoreContent, start, hs, n);
    } else {
      assert (Head(start, hs) + tail)[..n] == Head(start, hs) + tail[..n - h];
      HeadIsTaken(ignoreContent, start, hs, tail[..n - h]);
    }
  }

  lemma HeadComplete(ignoreContent: bool, start: string, hs: seq<(string, string)>, tail: string, n: nat)
    requires IsLine(start) && (forall h :: h in hs ==> IsField(h))
    requires n <= |Head(start, hs) + tail| && n != |Head(start, hs)| - 1
    ensures var h := |Head(start, hs)|;
            Completes(New(ignoreContent), (Head(start, hs) + tail)[..n]) <==>
            n >= h && Completes(With(Content, ignoreContent, Written(start, hs, [])), tail[..n - h])
  {
    HeadOrMore(ignoreContent, start, hs, tail, n);
  }

  lemma FragmentsComplete(ignoreContent: bool, start: string, hs: seq<(string, string)>, tail: string,
      fragments: seq<string>, j: nat)
    requires IsLine(start) && (forall h :: h in hs ==> IsField(h)) && 0 < j <= |fragments|
    requires Concat(fragments) == Head(start, hs) + tail && BlankLineIsWhole(start, hs, fragments)
    ensures var n := |Concat(fragments[..j])|;
            && n <= |Head(start, hs) + tail| && n != |Head(start, hs)| - 1
            && (CompletesIn(New(ignoreContent), fragments[..j]) <==>
                Completes(New(ignoreContent), (Head(start, hs) + tail)[..n]))
  {
    UpTo(ignoreContent, start, hs, tail, fragments, j);
    assert j == |fragments| ==> fragments[..j] == fragments;
  }

  /** If the content is complete when size bytes of it have arrived, so is the message. */
  lemma CompleteBehindHead(ignoreContent: bool, start: string, hs: seq<(string, string)>, tail: string, size: nat,
      fragments: seq<string>, j: nat)
    requires IsLine(start) && (forall h :: h in hs ==> IsField(h)) && 0 < j <= |fragments|
    requires Concat(fragments) == Head(start, hs) + tail && BlankLineIsWhole(start, hs, fragments)
    requires var p := With(Content, ignoreContent, Written(start, hs, []));
             forall k :: 0 <= k <= |tail| ==> (Completes(p, tail[..k]) <==> k >= size)
    ensures CompletesIn(New(ignoreContent), fragments[..j]) <==>
            |Concat(fragments[..j])| >= |Head(start, hs)| + size
  {
    FragmentsComplete(ignoreContent, start, hs, tail, fragments, j);
    HeadComplete(ignoreContent, start, hs, tail, |Concat(fragments[..j])|);
  }

  lemma PlainContentComplete(ignoreContent: bool, start: string, hs: seq<(string, string)>, content: string,
      rest: string, k: nat)
    requires IsPlain(ignoreContent, start, hs, content) && k <= |content + rest|
    ensures k >= |content| <==>
            Completes(With(Content, ignoreContent, Written(start, hs, [])), (content + rest)[..k])
  {
    var b := (content + rest)[..k];
    assert |b| >= |content| ==> b == content + b[|content|..];
    PlainContent(ignoreContent, start, hs, content, b);
  }

  lemma ContentStanding(ignoreContent: bool, start: string, hs: seq<(string, string)>, cs: seq<Piece>,
      last: string, rest: string, k: nat)
    requires IsInChunks(ignoreContent, start, hs, cs, last) && k <= |Encode(cs) + (last + rest)|
    ensures var m := Written(start, hs, []);
            Append(With(Content, ignoreContent, m), (Encode(cs) + (last + rest))[..k]) ==
              Standing(With(Content, ignoreContent, m), m, cs, last, k)
  {
    var m := Written(start, hs, []);
    ChunksAreRead(ignoreContent, start, hs);
    StandingAfter(With(Content, ignoreContent, m), m, cs, last, rest, k);
  }

  lemma ChunkedContentComplete(ignoreContent: bool, start: string, hs: seq<(string, string)>, cs: seq<Piece>,
      last: string, rest: string, k: nat)
    requires IsInChunks(ignoreContent, start, hs, cs, last) && k <= |Encode(cs) + (last + rest)|
    ensures var all, p := Encode(cs) + (last + rest), With(Content, ignoreContent, Written(start, hs, []));
            Completes(p, all[..k]) <==> k >= |Encode(cs)| + |last|
  {
    ContentStanding(ignoreContent, start, hs, cs, last, rest, k);
  }

  /** After the first j fragments a message with its length is complete exactly if it has arrived whole. */
  lemma PlainCompleteWhenWhole(ignoreContent: bool, start: string, hs: seq<(string, string)>, content: string,
      rest: string, fragments: seq<string>, j: nat)
    requires IsPlain(ignoreContent, start, hs, content) && 0 < j <= |fragments|
    requires Concat(fragments) == Head(start, hs) + (content + rest) && BlankLineIsWhole(start, hs, fragments)
    ensures CompletesIn(New(ignoreContent), fragments[..j]) <==>
            |Concat(fragments[..j])| >= |Head(start, hs)| + |content|
  {
    var p := With(Content, ignoreContent, Written(start, hs, []));
    forall k | 0 <= k <= |content + rest| ensures Completes(p, (content + rest)[..k]) <==> k >= |content| {
      PlainContentComplete(ignoreContent, start, hs, content, rest, k);
    }
    CompleteBehindHead(ignoreContent, start, hs, content + rest, |content|, fragments, j);
  }

  /** And one in chunks exactly if its zero-size line has. */
  lemma ChunkedCompleteWhenWhole(ignoreContent: bool, start: string, hs: seq<(string, string)>, cs: seq<Piece>,
      last: string, rest: string, fragments: seq<string>, j: nat)
    requires IsInChunks(ignoreContent, start, hs, cs, last) && 0 < j <= |fragments|
    requires Concat(fragments) == Head(start, hs) + (Encode(cs) + (last + rest))
    requires BlankLineIsWhole(start, hs, fragments)
    ensures CompletesIn(New(ignoreContent), fragments[..j]) <==>
            |Concat(fragments[..j])| >= |Head(start, hs)| + |Encode(cs)| + |last|
  {
    var p, tail := With(Content, ignoreContent, Written(start, hs, [])), Encode(cs) + (last + rest);
    forall k | 0 <= k <= |tail| ensures Completes(p, tail[..k]) <==> k >= |Encode(cs)| + |last| {
      ChunkedContentComplete(ignoreContent, start, hs, cs, last, rest, k);
    }
    CompleteBehindHead(ignoreContent, start, hs, tail, |Encode(cs)| + |last|, fragments, j);
  }

  lemma BehindHead(ignoreContent: bool, start: string, hs: seq<(string, string)>, tail: string,
      fragments: seq<string>, j: nat, k: nat, r: Step<Parser>)
    requires IsLine(start) && (forall h :: h in hs ==> IsField(h)) && 0 < j <= |fragments|
    requires Concat(fragments) == Head(start, hs) + tail && BlankLineIsWhole(start, hs, fragments)
    requires |Concat(fragments[..j])| == |Head(start, hs)| + k && k <= |tail|
    requires Append(With(Content, ignoreContent, Written(start, hs, [])), tail[..k]) == r
    ensures AppendAll(New(ignoreContent), fragments[..j]) == Further(|Head(start, hs)|, r)
  {
    UpTo(ignoreContent, start, hs, tail, fragments, j);
    HeadOrMore(ignoreContent, start, hs, tail, |Concat(fragments[..j])|);
  }

  /** And once the head has arrived, what has been taken behind it is exactly the chunks that are whole. */
  lemma ChunkedAfterEachFragment(ignoreContent: bool, start: string, hs: seq<(string, string)>, cs: seq<Piece>,
      last: string, rest: string, fragments: seq<string>, j: nat)
    requires IsInChunks(ignoreContent, start, hs, cs, last) && 0 < j <= |fragments|
    requires Concat(fragments) == Head(start, hs) + (Encode(cs) + (last + rest))
    requires BlankLineIsWhole(start, hs, fragments)
    ensures var h, n, m := |Head(start, hs)|, |Concat(fragments[..j])|, Written(start, hs, []);
            n >= h ==> AppendAll(New(ignoreContent), fragments[..j]) ==
                         Further(h, Standing(With(Content, ignoreContent, m), m, cs, last, n - h))
  {
    var all, h, n := Encode(cs) + (last + rest), |Head(start, hs)|, |Concat(fragments[..j])|;
    ConcatSplit(fragments, j);
    if n >= h {
      var m := Written(start, hs, []);
      ContentStanding(ignoreContent, start, hs, cs, last, rest, n - h);
      BehindHead(ignoreContent, start, hs, all, fragments, j, n - h,
                 Standing(With(Content, ignoreContent, m), m, cs, last, n - h));
    }
  }
}
