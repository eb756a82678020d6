/** The HTTP message parser as the object the source has, with its loops over the buffer. */
module HttpMsgParser {
  import opened Basics
  import opened HttpText
  import opened Incremental
  import opened HttpParsing
  import opened HttpFragments

  /** Append, as a function, comes to r. */
  ghost predicate Gives(p: Parser, b: string, r: Step<Parser>) {
    match Append(p, b)
    case Step(q, k) => q == r.parser && k == r.taken
  }

  /** From p, n bytes into b, append comes to what it comes to from p0 at the beginning of b. */
  ghost predicate OnTheWay(p0: Parser, b: string, p: Parser, n: nat) {
    n <= |b| && Sound(p) && forall r {:trigger Gives(p, b[n..], r)} :: Gives(p, b[n..], r) ==>
        Gives(p0, b, Further(n, r))
  }

  lemma Start(p: Parser, b: string)
    requires Sound(p)
    ensures OnTheWay(p, b, p, 0)
  {
  }

  lemma Advance(p0: Parser, b: string, p: Parser, n: nat, s: Step<Parser>)
    requires OnTheWay(p0, b, p, n) && HttpBite(p, b[n..]) == Some(s)
    ensures OnTheWay(p0, b, s.parser, n + s.taken)
  {
    AppendStep(p, b[n..], s);
    BiteIsSound(p, b[n..]);
    var rest := b[n + s.taken..];
    assert b[n..][s.taken..] == rest;
    forall r | Gives(s.parser, rest, r) ensures Gives(p0, b, Further(n + s.taken, r)) {
      assert Gives(p, b[n..], Further(s.taken, r));
    }
  }

  lemma AdvanceIf(p0: Parser, b: string, p: Parser, n: nat, s: Step<Parser>)
    requires OnTheWay(p0, b, p, n)
    requires if s.taken == 0 then s.parser == p else HttpBite(p, b[n..]) == Some(s)
    ensures OnTheWay(p0, b, s.parser, n + s.taken)
  {
    if s.taken > 0 {
      Advance(p0, b, p, n, s);
    }
  }

  lemma AdvanceFar(p0: Parser, b: string, p: Parser, n: nat, q: Parser, k: nat)
    requires OnTheWay(p0, b, p, n) && OnTheWay(p, b[n..], q, k)
    ensures OnTheWay(p0, b, q, n + k)
  {
    var rest := b[n + k..];
    assert b[n..][k..] == rest;
    forall r | Gives(q, rest, r) ensures Gives(p0, b, Further(n + k, r)) {
      assert Gives(p, b[n..], Further(k, r));
      assert Further(n, Further(k, r)) == Further(n + k, r);
    }
  }

  lemma Arrive(p0: Parser, b: string, p: Parser, n: nat)
    requires OnTheWay(p0, b, p, n) && HttpBite(p, b[n..]).None?
    ensures Gives(p0, b, Step(p, n))
  {
    AppendStops(p, b[n..]);
    assert Gives(p, b[n..], Step(p, 0));
  }

  lemma ArriveFar(p0: Parser, b: string, p: Parser, n: nat, r: Step<Parser>)
    requires OnTheWay(p0, b, p, n) && Gives(p, b[n..], r)
    ensures Gives(p0, b, Further(n, r))
  {
  }

  lemma GivesNothing(p: Parser, b: string)
    requires HttpBite(p, b).None?
    ensures Gives(p, b, Step(p, 0))
  {
  }

  // ----- the tokenizers -----

  /** The text up to the first of those characters, and what is behind it if there is one. */
  method StrSep(s: string, del: char) returns (token: string, rest: Option<string>)
    ensures var i := Find(s, del); token == s[..i] && rest == if i < |s| then Some(s[i + 1..]) else None
  {
    var i := 0;
    while i < |s| && s[i] != del
      invariant i <= |s| && forall j :: 0 <= j < i ==> s[j] != del
    {
      i := i + 1;
    }
    if i < |s| {
      FindIs(s, del, i);
      return s[..i], Some(s[i + 1..]);
    }
    return s, None;
  }

  lemma SkipEolsFrom(s: string, i: nat)
    requires i < |s| && IsEol(s[i])
    ensures SkipEols(s[i..]) == SkipEols(s[i + 1..])
  {
    assert s[i..][1..] == s[i + 1..];
  }

  lemma UpToEolFrom(s: string, i: nat, token: string)
    requires i < |s| && !IsEol(s[i])
    ensures token + UpToEol(s[i..]) == (token + [s[i]]) + UpToEol(s[i + 1..])
  {
    assert s[i..][1..] == s[i + 1..];
  }

  /** The first token between line ends: where it begins, and the token; none if there is nothing else. */
  method StrTok(s: string) returns (start: nat, token: Option<string>)
    ensures start <= |s| && s[start..] == SkipEols(s)
    ensures token == if SkipEols(s) == [] then None else Some(UpToEol(SkipEols(s)))
  {
    start := 0;
    assert s[0..] == s;
    while start < |s| && IsEol(s[start])
      invariant start <= |s| && SkipEols(s[start..]) == SkipEols(s)
    {
      SkipEolsFrom(s, start);
      start := start + 1;
    }
    if start == |s| {
      return start, None;
    }
    var i, text := start, [];
    while i < |s| && !IsEol(s[i])
      invariant start <= i <= |s| && text + UpToEol(s[i..]) == UpToEol(s[start..])
    {
      UpToEolFrom(s, i, text);
      text := text + [s[i]];
      i := i + 1;
    }
    assert text + [] == text;
    return start, Some(text);
  }

  /** How many blanks the text begins with. */
  method StrSpn(s: string) returns (n: nat)
    ensures n <= |s| && s[n..] == SkipBlanks(s)
  {
    n := 0;
    assert s[0..] == s;
    while n < |s| && s[n] == ' '
      invariant n <= |s| && SkipBlanks(s[n..]) == SkipBlanks(s)
    {
      assert s[n..][1..] == s[n + 1..];
      n := n + 1;
    }
  }

  /** What they make of a header line. */
  method SplitLine(line: string) returns (field: HeaderLine)
    ensures field == ReadLine(line)
  {
    var name, pos := StrSep(CString(line), ':');
    if pos.None? {
      return NoHeader;
    }
    var start, token := StrTok(pos.value);
    if token.None? {
      return BadLine;
    }
    var n := StrSpn(token.value);
    return Field(name, token.value[n..]);
  }

  /** The length of the line at the front of the buffer, and its first bytes up to the line end. */
  method GetLine(buffer: string, size: nat) returns (lineLen: nat, line: string)
    requires size == 32
    ensures lineLen == LineLen(buffer) && line == if lineLen > 0 then ShortLine(buffer[..lineLen]) else []
  {
    lineLen, line := LineLen(buffer), [];
    if lineLen > 0 {
      var realLen := size - 1;
      realLen := if realLen > lineLen then lineLen else realLen;
      line := CString(buffer[..realLen]);
      assert buffer[..realLen] == if lineLen > 31 then buffer[..lineLen][..31] else buffer[..lineLen];
      var start, token := StrTok(line);
      assert line[..start] == line[..|line| - |SkipEols(line)|];
      if token.Some? {
        line := line[..start] + token.value;
      }
    }
  }

  /** The length of the line at the front, and the size it gives. */
  method ReadSize(buffer: string) returns (lineLen: nat, contentLen: int)
    ensures lineLen == LineLen(buffer) && contentLen == if lineLen > 0 then SizeOf(buffer[..lineLen]) else 0
  {
    var chunkSize;
    lineLen, chunkSize := GetLine(buffer, 32);
    contentLen := ToInt(Strtol(chunkSize, true));
  }

  // ----- one bite -----

  lemma NothingToTake(p: Parser, rest: string)
    requires p.status.Header? && rest == []
    ensures HttpBite(p, rest) == None
  {
  }

  ghost predicate InMessage(p: Parser) {
    p.message.Some? && (p.status.Header? || p.status.Content? || p.status.Fault?)
  }

  ghost predicate InPlainContent(p: Parser) {
    && p.status.Content? && p.message.Some? && !p.reading.isChunked(p.message.value.headers)
        && p.message.value.content == []
    && !(p.message.value.kind.Response? && p.ignoreContent)
  }

  ghost predicate InChunkedContent(p: Parser) {
    p.message.Some? && InChunks(p, p.message.value)
  }

  lemma ChunkIsBite(p: Parser, rest: string, s: Step<Parser>)
    requires InChunkedContent(p)
    requires var c, m := NextChunk(p.reading.sizeOf, rest), p.message.value;
             match c
             case Whole(start, size, taken) =>
               s == Step(p.(message := Some(m.(content := m.content + rest[start..start + size]))), taken)
             case Last(taken) => s == Step(p.(status := Completed), taken)
             case Partial => s == Step(p, 0)
    ensures HttpBite(p, rest) == if NextChunk(p.reading.sizeOf, rest).Partial? then None else Some(s)
    ensures s.parser.status.Completed? || InChunkedContent(s.parser)
  {
  }

  lemma ChunkAtFront(sizeOf: string -> int, rest: string, size: int, emptyLen: nat)
    requires size == if LineLen(rest) > 0 then sizeOf(rest[..LineLen(rest)]) else 0
    requires var k := LineLen(rest) + size;
             emptyLen == if size > 0 && |rest| > k then LineLen(rest[k..]) else 0
    ensures emptyLen > 0 ==> size > 0 && LineLen(rest) + size + emptyLen <= |rest|
    ensures NextChunk(sizeOf, rest) ==
              if emptyLen > 0 then Whole(LineLen(rest), size, LineLen(rest) + size + emptyLen)
              else if size == 0 && LineLen(rest) > 0 then Last(LineLen(rest))
              else Partial
  {
    if size > 0 && |rest| > LineLen(rest) + size {
      LineLenBehind(rest, LineLen(rest) + size);
    }
  }

  /** Lines are read by the tokenizers. */
  ghost predicate ReadsAsSource(r: Reading) {
    match r
    case Reading(_, readLine, _, _, sizeOf) => readLine == ReadLine && sizeOf == SizeOf
  }

  class HttpMsgParser {
    var status: Status
    var ignoreContent: bool
    var message: Option<Message>
    /** How lines and values are read: as SourceReading says. */
    const reading: Reading

    ghost function State(): Parser
      reads this
    {
      Parser(status, ignoreContent, message, reading)
    }

    constructor ()
      ensures State() == Parser(StartLine, false, None, SourceReading()) && Sound(State()) && ReadsAsSource(reading)
    {
      status, ignoreContent, message := StartLine, false, None;
      reading := SourceReading();
    }

    /** The message the start line begins, if that line is complete. */
    method ParseStartLine(buffer: string) returns (lineLen: nat)
      modifies this`message
      ensures lineLen == LineLen(buffer)
      ensures message == if lineLen > 0 then Some(NewMessage(reading, buffer[..lineLen])) else old(message)
    {
      lineLen := LineLen(buffer);
      if lineLen > 0 {
        message := Some(NewMessage(reading, buffer[..lineLen]));
      }
    }

    method SizeAtFront(rest: string) returns (lineLen: nat, contentLen: int)
      requires ReadsAsSource(reading)
      ensures lineLen == LineLen(rest)
      ensures contentLen == if lineLen > 0 then reading.sizeOf(rest[..lineLen]) else 0
    {
      lineLen, contentLen := ReadSize(rest);
    }

    method LineAtFront(rest: string, lineLen: nat) returns (line: HeaderLine)
      requires lineLen <= |rest| && ReadsAsSource(reading)
      ensures line == reading.readLine(rest[..lineLen])
    {
      line := SplitLine(rest[..lineLen]);
    }

    /** One line of the headers; bad if the source would follow a null pointer. */
    method ParseHeader(buffer: string) returns (lineLen: nat, bad: bool)
      requires message.Some? && ReadsAsSource(reading)
      modifies this`message
      ensures lineLen == LineLen(buffer) && (bad <==> lineLen > 0 && reading.readLine(buffer[..lineLen]).BadLine?)
      ensures message == if lineLen > 0 then Some(AddLine(old(message).value, reading.readLine(buffer[..lineLen])))
                         else old(message)
    {
      lineLen, bad := LineLen(buffer), false;
      if lineLen > 0 {
        var line := LineAtFront(buffer, lineLen);
        bad := line.BadLine?;
        message := Some(AddLine(message.value, line));
      }
    }

    /** The chunk at the front: the lengths of its size line, of its data, and of the line end behind it. */
    method ScanChunk(rest: string) returns (lineLen: nat, contentLen: int, emptyLen: nat)
      requires ReadsAsSource(reading)
      ensures emptyLen > 0 ==> contentLen > 0 && lineLen + contentLen + emptyLen <= |rest|
      ensures NextChunk(reading.sizeOf, rest) ==
                if emptyLen > 0 then Whole(lineLen, contentLen, lineLen + contentLen + emptyLen)
                else if contentLen == 0 && lineLen > 0 then Last(lineLen)
                else Partial
    {
      emptyLen := 0;
      lineLen, contentLen := SizeAtFront(rest);
      if contentLen > 0 && |rest| > contentLen + lineLen {
        var end;
        emptyLen, end := GetLine(rest[lineLen + contentLen..], 32);
      }
      ChunkAtFront(reading.sizeOf, rest, contentLen, emptyLen);
    }

    /** One turn of the loop over the chunks. */
    method TakeChunk(rest: string) returns (taken: nat, hasChunk: bool)
      requires InChunkedContent(State()) && ReadsAsSource(reading)
      modifies this`status, this`message
      ensures InChunkedContent(State()) || status.Completed?
      ensures HttpBite(old(State()), rest) == if taken == 0 then None else Some(Step(State(), taken))
      ensures taken == 0 ==> State() == old(State())
      ensures hasChunk <==> taken > 0 && !status.Completed?
    {
      ghost var p := State();
      taken, hasChunk := 0, false;
      var m := message.value;
      var lineLen, contentLen, emptyLen := ScanChunk(rest);
      if emptyLen > 0 {
        taken := lineLen;
        message := Some(m.(content := m.content + rest[taken..taken + contentLen]));
        taken := taken + contentLen + emptyLen;
        hasChunk := true;
      }
      if contentLen == 0 && lineLen > 0 {
        taken := taken + lineLen;
        status := Completed;
      }
      ChunkIsBite(p, rest, Step(State(), taken));
    }

    method TakeChunkAt(ghost p0: Parser, buffer: string, at: nat) returns (taken: nat, hasChunk: bool)
      requires OnTheWay(p0, buffer, State(), at) && InChunkedContent(State()) && ReadsAsSource(reading)
      modifies this`status, this`message
      ensures OnTheWay(p0, buffer, State(), at + taken) && (hasChunk ==> taken > 0)
      ensures status.Completed? || InChunkedContent(State())
      ensures !hasChunk && !status.Completed? ==> taken == 0 && HttpBite(State(), buffer[at..]).None?
    {
      ghost var p := State();
      taken, hasChunk := TakeChunk(buffer[at..]);
      AdvanceIf(p0, buffer, p, at, Step(State(), taken));
    }

    method ParseChunked(buffer: string) returns (parsedLen: nat)
      requires InChunkedContent(State()) && Sound(State()) && ReadsAsSource(reading)
      modifies this`status, this`message
      ensures Gives(old(State()), buffer, Step(State(), parsedLen))
    {
      ghost var p0 := State();
      parsedLen := 0;
      var hasChunk := true;
      Start(p0, buffer);
      while hasChunk && !status.Completed?
        invariant parsedLen <= |buffer| && OnTheWay(p0, buffer, State(), parsedLen)
        invariant status.Completed? || InChunkedContent(State())
        invariant !hasChunk && !status.Completed? ==> HttpBite(State(), buffer[parsedLen..]).None?
        decreases |buffer| - parsedLen, hasChunk
      {
        var taken;
        taken, hasChunk := TakeChunkAt(p0, buffer, parsedLen);
        parsedLen := parsedLen + taken;
      }
      Arrive(p0, buffer, State(), parsedLen);
    }

    method ParseContent(buffer: string) returns (parsedLen: nat)
      requires InPlainContent(State()) && Sound(State()) && ReadsAsSource(reading)
      modifies this`status, this`message
      ensures Gives(old(State()), buffer, Step(State(), parsedLen))
    {
      ghost var p := State();
      parsedLen := 0;
      var m := message.value;
      var contentLen := reading.lengthOf(m.headers);
      if contentLen > 0 && |buffer| >= contentLen {
        m := m.(content := m.content + buffer[..contentLen]);
        message := Some(m);
        parsedLen := contentLen;
      }
      assert m.content + buffer[..0] == m.content;
      if contentLen == |m.content| {
        status := Completed;
        Start(p, buffer);
        Advance(p, buffer, p, 0, Step(State(), parsedLen));
        Arrive(p, buffer, State(), parsedLen);
      } else {
        GivesNothing(p, buffer);
      }
    }

    /** One turn of the loop over the header lines; the status is looked at even when no line was taken. */
    method TakeHeader(rest: string) returns (headerLen: nat)
      requires status.Header? && message.Some? && rest != [] && ReadsAsSource(reading)
      modifies this`status, this`message
      ensures InMessage(State())
      ensures HttpBite(old(State()), rest) ==
                if headerLen == 0 && status.Header? then None else Some(Step(State(), headerLen))
      ensures headerLen == 0 && status.Header? ==> State() == old(State())
    {
      ghost var p := State();
      var bad;
      headerLen, bad := ParseHeader(rest);
      if bad {
        headerLen, status := 0, Fault;
      } else if IsEol(rest[0]) {
        status := Content;
      }
    }

    method TakeHeaderAt(ghost p0: Parser, buffer: string, at: nat) returns (headerLen: nat)
      requires OnTheWay(p0, buffer, State(), at) && at < |buffer| && ReadsAsSource(reading)
      requires status.Header? && message.Some?
      modifies this`status, this`message
      ensures OnTheWay(p0, buffer, State(), at + headerLen) && InMessage(State())
      ensures headerLen == 0 && status.Header? ==> HttpBite(State(), buffer[at..]).None?
    {
      ghost var p := State();
      headerLen := TakeHeader(buffer[at..]);
      if headerLen > 0 || !status.Header? {
        Advance(p0, buffer, p, at, Step(State(), headerLen));
      }
    }

    /** The loop over the header lines. */
    method ParseHeaders(buffer: string) returns (parsedLen: nat)
      requires message.Some? && status.Header? && Sound(State()) && ReadsAsSource(reading)
      modifies this`status, this`message
      ensures OnTheWay(old(State()), buffer, State(), parsedLen) && InMessage(State())
      ensures status.Header? ==> HttpBite(State(), buffer[parsedLen..]).None?
    {
      ghost var p0 := State();
      Start(p0, buffer);
      parsedLen := 0;
      var headerLen: nat := 1;
      while status.Header? && headerLen > 0 && parsedLen < |buffer|
        invariant parsedLen <= |buffer| && OnTheWay(p0, buffer, State(), parsedLen) && InMessage(State())
        invariant headerLen == 0 && status.Header? ==> HttpBite(State(), buffer[parsedLen..]).None?
        decreases |buffer| - parsedLen, headerLen
      {
        headerLen := TakeHeaderAt(p0, buffer, parsedLen);
        parsedLen := parsedLen + headerLen;
      }
      if status.Header? && headerLen > 0 {
        NothingToTake(State(), buffer[parsedLen..]);
      }
    }

    /** Takes what it can from the buffer and says how much that was. */
    method AppendBuffer(buffer: string) returns (parsedLen: nat)
      requires Sound(State()) && ReadsAsSource(reading)
      modifies this`status, this`message
      ensures Gives(old(State()), buffer, Step(State(), parsedLen))
    {
      ghost var p0 := State();
      Start(p0, buffer);
      parsedLen := 0;
      if status.Completed? || status.Fault? {
        GivesNothing(p0, buffer);
        return;
      }
      if message.None? {
        parsedLen := ParseStartLine(buffer);
        if parsedLen == 0 {
          GivesNothing(p0, buffer);
          return;
        }
        status := Header;
        Advance(p0, buffer, p0, 0, Step(State(), parsedLen));
      }
      if status.Header? {
        ghost var p := State();
        var headersLen := ParseHeaders(buffer[parsedLen..]);
        AdvanceFar(p0, buffer, p, parsedLen, State(), headersLen);
        parsedLen := parsedLen + headersLen;
      }
      if status.Content? {
        parsedLen := FinishContent(p0, buffer, parsedLen);
      } else {
        Arrive(p0, buffer, State(), parsedLen);
      }
    }

    /** What remains once the headers are over. */
    method FinishContent(ghost p0: Parser, buffer: string, start: nat) returns (parsedLen: nat)
      requires OnTheWay(p0, buffer, State(), start) && message.Some? && status.Content?
      requires ReadsAsSource(reading)
      modifies this`status, this`message
      ensures Gives(p0, buffer, Step(State(), parsedLen))
    {
      parsedLen := start;
      ghost var p := State();
      if message.value.kind.Response? && ignoreContent {
        status := Completed;
        Advance(p0, buffer, p, start, Step(State(), 0));
        Arrive(p0, buffer, State(), start);
      } else {
        var taken;
        if reading.isChunked(message.value.headers) {
          taken := ParseChunked(buffer[start..]);
        } else {
          taken := ParseContent(buffer[start..]);
        }
        ArriveFar(p0, buffer, p, start, Step(State(), taken));
        parsedLen := parsedLen + taken;
      }
    }
  }
}
