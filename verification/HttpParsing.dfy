/** The HTTP message parser as a function: what one call of append makes of a buffer. */
module HttpParsing {
  import opened Basics
  import opened HttpText
  import opened Incremental

  datatype Kind = Request | Response

  datatype Message = Message(kind: Kind, startLine: string, headers: seq<(string, string)>, content: string)

  /** Fault is where the source follows a null pointer. */
  datatype Status = StartLine | Header | Content | Completed | Fault

  datatype HeaderLine = NoHeader | Field(name: string, value: string) | BadLine

  /** What single lines and values are taken to mean. The parser is the same whatever that is; what the source
      makes of them is SourceReading below. */
  datatype Reading = Reading(
    kindOf: string -> Kind,
    readLine: string -> HeaderLine,
    isChunked: seq<(string, string)> -> bool,
    lengthOf: seq<(string, string)> -> int,
    sizeOf: string -> int)

  datatype Parser = Parser(status: Status, ignoreContent: bool, message: Option<Message>, reading: Reading)

  // ----- the start line -----

  function NewMessage(reading: Reading, line: string): Message {
    Message(reading.kindOf(line), line, [], [])
  }

  function StartBite(p: Parser, b: string): Option<Step<Parser>> {
    var n := LineLen(b);
    if n == 0 then None else Some(Step(p.(status := Header, message := Some(NewMessage(p.reading, b[..n]))), n))
  }

  // ----- header lines -----

  function AddLine(m: Message, line: HeaderLine): Message {
    if line.Field? then m.(headers := m.headers + [(line.name, line.value)]) else m
  }

  /** Takes one whole line; one that begins with a line end is the last. A CR that begins an incomplete line
      ends the headers too, and is not taken. */
  function HeaderBite(p: Parser, m: Message, b: string): Option<Step<Parser>> {
    var n := LineLen(b);
    if b == [] then None
    else if n == 0 then (if b[0] == '\r' then Some(Step(p.(status := Content), 0)) else None)
    else
      var line := p.reading.readLine(b[..n]);
      if line.BadLine? then Some(Step(p.(status := Fault), 0))
      else Some(Step(p.(status := if IsEol(b[0]) then Content else Header, message := Some(AddLine(m, line))), n))
  }

  // ----- the content -----

  /** What stands at the front of a chunked body: a whole chunk (its size line, that many bytes and the rest
      of that line), the last line, or neither. */
  datatype Chunk = Whole(start: nat, size: nat, taken: nat) | Last(taken: nat) | Partial

  function NextChunk(sizeOf: string -> int, b: string): (r: Chunk)
    ensures r.Whole? ==> 0 < r.start && 0 < r.size && r.start + r.size < r.taken <= |b|
    ensures r.Last? ==> 0 < r.taken <= |b|
  {
    var n := LineLen(b);
    if n == 0 then Partial
    else
      var size := sizeOf(b[..n]);
      if size == 0 then Last(n)
      else if size < 0 || |b| <= size + n then Partial
      else
        var end := LineEnd(b, n + size);
        if end == 0 then Partial else Whole(n, size, end)
  }

  function ChunkBite(p: Parser, m: Message, b: string): Option<Step<Parser>> {
    var c := NextChunk(p.reading.sizeOf, b);
    match c
    case Whole(start, size, taken) =>
      Some(Step(p.(message := Some(m.(content := m.content + b[start..start + size]))), taken))
    case Last(taken) => Some(Step(p.(status := Completed), taken))
    case Partial => None
  }

  /** Takes the content all at once; without any the message is complete as it is. */
  function PlainBite(p: Parser, m: Message, b: string): Option<Step<Parser>> {
    var size := p.reading.lengthOf(m.headers);
    var n := if 0 < size <= |b| then size else 0;
    var content := m.content + b[..n];
    if size == |content| then Some(Step(p.(status := Completed, message := Some(m.(content := content))), n)) else None
  }

  function ContentBite(p: Parser, m: Message, b: string): Option<Step<Parser>> {
    if m.kind.Response? && p.ignoreContent then Some(Step(p.(status := Completed), 0))
    else if p.reading.isChunked(m.headers) then ChunkBite(p, m, b)
    else PlainBite(p, m, b)
  }

  // ----- append -----

  function HttpBite(p: Parser, b: string): Option<Step<Parser>> {
    match p.status
    case StartLine => StartBite(p, b)
    case Header => if p.message.Some? then HeaderBite(p, p.message.value, b) else None
    case Content => if p.message.Some? then ContentBite(p, p.message.value, b) else None
    case Completed => None
    case Fault => None
  }

  function Rank(p: Parser): nat {
    match p.status
    case StartLine => 3
    case Header => 2
    case Content => 1
    case Completed => 0
    case Fault => 0
  }

  lemma BitesShrink()
    ensures Shrinks(HttpBite, Rank)
  {
  }

  /** One call of append; it never takes more than it is given. */
  function Append(p: Parser, b: string): (r: Step<Parser>)
    ensures r.taken <= |b|
  {
    BitesShrink();
    Run(HttpBite, Rank, p, b)
  }

  lemma AppendStep(p: Parser, b: string, s: Step<Parser>)
    requires HttpBite(p, b) == Some(s)
    ensures s.taken <= |b| && (s.taken > 0 || Rank(s.parser) < Rank(p))
    ensures Append(p, b) == Further(s.taken, Append(s.parser, b[s.taken..]))
  {
  }

  lemma AppendStops(p: Parser, b: string)
    requires HttpBite(p, b).None?
    ensures Append(p, b) == Step(p, 0)
  {
  }

  // ----- what the source makes of lines and values -----

  function KindOf(line: string): Kind {
    if |line| >= 4 && EqualNoCase(line[..4], "HTTP") then Response else Request
  }

  /** A line without a colon is no header; one with nothing but line ends after the colon is not survived. */
  function ReadLine(line: string): HeaderLine {
    var s := CString(line);
    var i := Find(s, ':');
    if i == |s| then NoHeader else
      var rest := SkipEols(s[i + 1..]);
      if rest == [] then BadLine else Field(s[..i], SkipBlanks(UpToEol(rest)))
  }

  lemma {:induction false} NothingButEols(s: string)
    ensures SkipEols(s) == [] <==> forall j :: 0 <= j < |s| ==> IsEol(s[j])
    decreases |s|
  {
    if s != [] {
      NothingButEols(s[1..]);
      assert forall j :: 0 < j < |s| ==> s[j] == s[1..][j - 1];
    }
  }

  /** The source follows a null pointer exactly if there is a colon in the line and nothing but line ends behind the
      first one. */
  lemma BadLineExactly(line: string)
    ensures var s := CString(line);
            ReadLine(line).BadLine? <==>
              exists i :: 0 <= i < |s| && s[i] == ':' && (forall j :: 0 <= j < i ==> s[j] != ':') &&
                          forall j :: i < j < |s| ==> IsEol(s[j])
  {
    var s := CString(line);
    var i := Find(s, ':');
    if i < |s| {
      var rest := s[i + 1..];
      NothingButEols(rest);
      assert forall j :: i < j < |s| ==> s[j] == rest[j - i - 1];
    }
  }

  /** A header without a value, or with nothing but blanks for one. */
  lemma EmptyValue(name: string, blanks: string)
    requires forall i :: 0 <= i < |name| ==> name[i] != ':' && name[i] != '\0'
    requires forall i :: 0 <= i < |blanks| ==> blanks[i] == ' '
    ensures ReadLine(name + ":" + blanks + "\r\n").BadLine? <==> blanks == []
  {
    var line := name + ":" + blanks + "\r\n";
    assert line[|name|] == ':';
    assert CString(line) == line;
    BadLineExactly(line);
    if blanks != [] {
      assert line[|name| + 1] == ' ';
    }
  }

  /** The value of the first header of that name. */
  function HeaderValue(headers: seq<(string, string)>, name: string): Option<string> {
    if headers == [] then None
    else if EqualNoCase(name, headers[0].0) then Some(headers[0].1)
    else HeaderValue(headers[1..], name)
  }

  predicate IsChunked(headers: seq<(string, string)>) {
    var encoding := HeaderValue(headers, "Transfer-Encoding");
    encoding.Some? && EqualNoCase(encoding.value, "chunked")
  }

  function LengthOf(headers: seq<(string, string)>): int {
    var value := HeaderValue(headers, "Content-Length");
    if value.Some? then Atoi(value.value) else 0
  }

  /** The first 31 bytes of a line, cut at the line end. */
  function ShortLine(line: string): string {
    CutAtEol(CString(if |line| > 31 then line[..31] else line))
  }

  function SizeOf(line: string): int {
    ToInt(Strtol(ShortLine(line), true))
  }

  function SourceReading(): Reading {
    Reading(KindOf, ReadLine, IsChunked, LengthOf, SizeOf)
  }
}
