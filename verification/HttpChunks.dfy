/** Decoding the chunked coding of section 7.1 of RFC 9112 undoes encoding. */
module HttpChunks {
  import opened Basics
  import opened HttpText
  import opened Incremental
  import opened HttpParsing
  import opened HttpFragments

  /** A chunk on the wire: its size line, its data and the rest of the line behind them. */
  datatype Piece = Piece(line: string, data: string, end: string)

  /** One LF, at the end. */
  predicate IsLine(s: string) {
    s != [] && s[|s| - 1] == '\n' && forall i :: 0 <= i < |s| - 1 ==> s[i] != '\n'
  }

  predicate IsPiece(sizeOf: string -> int, c: Piece) {
    IsLine(c.line) && IsLine(c.end) && c.data != [] && sizeOf(c.line) == |c.data|
  }

  predicate IsLast(sizeOf: string -> int, line: string) {
    IsLine(line) && sizeOf(line) == 0
  }

  function Wire(c: Piece): (s: string)
    ensures |s| == |c.line| + |c.data| + |c.end|
  {
    c.line + c.data + c.end
  }

  function Encode(cs: seq<Piece>): string {
    if cs == [] then [] else Wire(cs[0]) + Encode(cs[1..])
  }

  function Body(cs: seq<Piece>): string {
    if cs == [] then [] else cs[0].data + Body(cs[1..])
  }

  /** How many of the chunks have arrived whole in the first n bytes. */
  function Arrived(cs: seq<Piece>, n: nat): (k: nat)
    ensures k <= |cs|
  {
    if cs == [] || n < |Wire(cs[0])| then 0 else 1 + Arrived(cs[1..], n - |Wire(cs[0])|)
  }

  lemma LineIsTaken(line: string, rest: string)
    requires IsLine(line)
    ensures LineLen(line + rest) == |line| && (line + rest)[..|line|] == line && (line + rest)[|line|..] == rest
  {
  }

  lemma LineIsAwaited(line: string, n: nat)
    requires IsLine(line) && n < |line|
    ensures LineLen(line[..n]) == 0
  {
  }

  /** The parts of c stand at the front of b. */
  ghost predicate Fronts(c: Piece, b: string) {
    var k := |c.line| + |c.data|;
    k + |c.end| <= |b| && b[0..|c.line|] == c.line && b[|c.line|..k] == c.data && b[k..k + |c.end|] == c.end
  }

  lemma WireFronts(c: Piece, rest: string)
    ensures Fronts(c, Wire(c) + rest) && (Wire(c) + rest)[|Wire(c)|..] == rest
  {
  }

  /** A whole chunk is seen as one, whatever follows. */
  lemma PieceIsTaken(sizeOf: string -> int, c: Piece, b: string)
    requires IsPiece(sizeOf, c) && Fronts(c, b)
    ensures NextChunk(sizeOf, b) == Whole(|c.line|, |c.data|, |c.line| + |c.data| + |c.end|)
  {
  }

  /** Of a chunk that has not arrived whole nothing is taken. */
  lemma PieceIsAwaited(sizeOf: string -> int, c: Piece, n: nat)
    requires IsPiece(sizeOf, c) && n < |Wire(c)|
    ensures NextChunk(sizeOf, Wire(c)[..n]) == Partial
  {
    var b := Wire(c)[..n];
    if n < |c.line| {
      LineIsAwaited(c.line, n);
      assert b == c.line[..n];
    } else {
      LineIsTaken(c.line, b[|c.line|..]);
      assert b == c.line + b[|c.line|..];
      var k := |c.line| + |c.data|;
      if k < n {
        assert forall i :: k <= i < n ==> b[i] == c.end[i - k];
      }
    }
  }

  function WithContent(p: Parser, m: Message, more: string): Parser {
    p.(message := Some(m.(content := m.content + more)))
  }

  lemma BiteOfWhole(p: Parser, m: Message, b: string, start: nat, data: string, taken: nat)
    requires InChunks(p, m) && NextChunk(p.reading.sizeOf, b) == Whole(start, |data|, taken)
        && b[start..start + |data|] == data
    ensures HttpBite(p, b) == Some(Step(WithContent(p, m, data), taken))
  {
  }

  lemma TakeFront(p: Parser, m: Message, c: Piece, b: string, n: nat)
    requires InChunks(p, m) && IsPiece(p.reading.sizeOf, c) && Fronts(c, b) && n == |c.line| + |c.data| + |c.end|
    ensures Append(p, b) == Further(n, Append(WithContent(p, m, c.data), b[n..]))
  {
    PieceIsTaken(p.reading.sizeOf, c, b);
    BiteOfWhole(p, m, b, |c.line|, c.data, n);
    AppendStep(p, b, Step(WithContent(p, m, c.data), n));
  }

  lemma TakePiece(p: Parser, m: Message, c: Piece, rest: string)
    requires InChunks(p, m) && IsPiece(p.reading.sizeOf, c)
    ensures Append(p, Wire(c) + rest) == Further(|Wire(c)|, Append(WithContent(p, m, c.data), rest))
    ensures InChunks(WithContent(p, m, c.data), m.(content := m.content + c.data))
  {
    WireFronts(c, rest);
    TakeFront(p, m, c, Wire(c) + rest, |Wire(c)|);
  }

  lemma TakeLast(p: Parser, m: Message, last: string, rest: string)
    requires InChunks(p, m) && IsLast(p.reading.sizeOf, last)
    ensures Append(p, last + rest) == Step(p.(status := Completed), |last|)
  {
    LineIsTaken(last, rest);
    AppendStep(p, last + rest, HttpBite(p, last + rest).value);
    AppendStops(p.(status := Completed), rest);
  }

  lemma EncodeFirst(cs: seq<Piece>, rest: string)
    requires cs != []
    ensures Encode(cs) + rest == Wire(cs[0]) + (Encode(cs[1..]) + rest)
    ensures |Encode(cs)| == |Wire(cs[0])| + |Encode(cs[1..])|
    ensures Body(cs) == cs[0].data + Body(cs[1..])
  {
  }

  lemma WithMore(p: Parser, m: Message, s: string, t: string)
    ensures WithContent(p, m, s + t) == WithContent(WithContent(p, m, s), m.(content := m.content + s), t)
    ensures p.message == Some(m) ==> WithContent(p, m, []) == p
  {
    assert m.content + (s + t) == (m.content + s) + t;
    assert m.content + [] == m.content;
  }

  /** Decoding undoes encoding: from chunks however coded and the zero-size line the parser gets their data,
      completes, and takes nothing of what follows, not even the line end behind the zero-size line. */
  lemma {:induction false} DecodesWhatWasEncoded(p: Parser, m: Message, cs: seq<Piece>, last: string, rest: string)
    requires InChunks(p, m) && (forall c :: c in cs ==> IsPiece(p.reading.sizeOf, c)) && IsLast(p.reading.sizeOf, last)
    ensures Append(p, Encode(cs) + (last + rest)) ==
              Step(WithContent(p, m, Body(cs)).(status := Completed), |Encode(cs)| + |last|)
    decreases |cs|
  {
    if cs == [] {
      assert Encode(cs) + (last + rest) == last + rest;
      WithMore(p, m, [], []);
      TakeLast(p, m, last, rest);
    } else {
      var q, m' := WithContent(p, m, cs[0].data), m.(content := m.content + cs[0].data);
      EncodeFirst(cs, last + rest);
      TakePiece(p, m, cs[0], Encode(cs[1..]) + (last + rest));
      DecodesWhatWasEncoded(q, m', cs[1..], last, rest);
      WithMore(p, m, cs[0].data, Body(cs[1..]));
    }
  }

  lemma AwaitPiece(p: Parser, m: Message, c: Piece, n: nat)
    requires InChunks(p, m) && IsPiece(p.reading.sizeOf, c) && n < |Wire(c)|
    ensures Append(p, Wire(c)[..n]) == Step(p, 0)
  {
    PieceIsAwaited(p.reading.sizeOf, c, n);
    AppendStops(p, Wire(c)[..n]);
  }

  lemma AwaitLast(p: Parser, m: Message, last: string, n: nat)
    requires InChunks(p, m) && IsLast(p.reading.sizeOf, last) && n < |last|
    ensures Append(p, last[..n]) == Step(p, 0)
  {
  }

  lemma ArrivedFirst(cs: seq<Piece>, n: nat)
    requires cs != [] && n >= |Wire(cs[0])|
    ensures var k, j := Arrived(cs, n), Arrived(cs[1..], n - |Wire(cs[0])|);
            && k == 1 + j && |Encode(cs[..k])| == |Wire(cs[0])| + |Encode(cs[1..][..j])|
            && Body(cs[..k]) == cs[0].data + Body(cs[1..][..j])
  {
    var k := Arrived(cs, n);
    assert cs[..k][1..] == cs[1..][..k - 1];
    EncodeFirst(cs[..k], []);
  }

  lemma PrefixFirst(cs: seq<Piece>, last: string, n: nat)
    requires cs != [] && n < |Encode(cs) + last|
    ensures var w := |Wire(cs[0])|;
            && (n < w ==> (Encode(cs) + last)[..n] == Wire(cs[0])[..n])
            && (n >= w ==> n - w < |Encode(cs[1..]) + last|)
            && (n >= w ==> (Encode(cs) + last)[..n] == Wire(cs[0]) + (Encode(cs[1..]) + last)[..n - w])
  {
  }

  /** Having taken the first k chunks, and nothing else. */
  function Taken(p: Parser, m: Message, cs: seq<Piece>, k: nat): Step<Parser>
    requires k <= |cs|
  {
    Step(WithContent(p, m, Body(cs[..k])), |Encode(cs[..k])|)
  }

  lemma TakenFirst(p: Parser, m: Message, cs: seq<Piece>, n: nat)
    requires cs != [] && n >= |Wire(cs[0])|
    ensures var q, m' := WithContent(p, m, cs[0].data), m.(content := m.content + cs[0].data);
            Taken(p, m, cs, Arrived(cs, n)) ==
              Further(|Wire(cs[0])|, Taken(q, m', cs[1..], Arrived(cs[1..], n - |Wire(cs[0])|)))
  {
    ArrivedFirst(cs, n);
    WithMore(p, m, cs[0].data, Body(cs[1..][..Arrived(cs, n) - 1]));
  }

  /** As long as the zero-size line is not complete, the parser has taken exactly the chunks that have arrived
      whole, with their data, and is not complete. */
  lemma {:induction false} TakesWholeChunksOnly(p: Parser, m: Message, cs: seq<Piece>, last: string, n: nat)
    requires InChunks(p, m) && (forall c :: c in cs ==> IsPiece(p.reading.sizeOf, c)) && IsLast(p.reading.sizeOf, last)
    requires n < |Encode(cs) + last|
    ensures Append(p, (Encode(cs) + last)[..n]) == Taken(p, m, cs, Arrived(cs, n))
    decreases |cs|
  {
    WithMore(p, m, [], []);
    if cs == [] {
      assert (Encode(cs) + last)[..n] == last[..n];
      AwaitLast(p, m, last, n);
    } else {
      var w := |Wire(cs[0])|;
      PrefixFirst(cs, last, n);
      if n < w {
        AwaitPiece(p, m, cs[0], n);
      } else {
        var q, m' := WithContent(p, m, cs[0].data), m.(content := m.content + cs[0].data);
        TakePiece(p, m, cs[0], (Encode(cs[1..]) + last)[..n - w]);
        TakesWholeChunksOnly(q, m', cs[1..], last, n - w);
        TakenFirst(p, m, cs, n);
      }
    }
  }

  // ----- any fragments -----

  lemma ContentInFragments(p: Parser, fragments: seq<string>)
    requires Sound(p) && p.status.Content? && fragments != []
    ensures AppendAll(p, fragments) == Append(p, Concat(fragments))
  {
    FragmentationMakesNoDifference(p, fragments);
  }

  /** Whatever fragments an encoding comes in, with whatever behind it, the parser gets the data of all chunks,
      completes, and takes the encoding and no more. */
  lemma DecodesInAnyFragments(p: Parser, m: Message, cs: seq<Piece>, last: string, rest: string,
      fragments: seq<string>)
    requires InChunks(p, m) && (forall c :: c in cs ==> IsPiece(p.reading.sizeOf, c)) && IsLast(p.reading.sizeOf, last)
    requires fragments != [] && Concat(fragments) == Encode(cs) + (last + rest)
    ensures AppendAll(p, fragments) ==
              Step(WithContent(p, m, Body(cs)).(status := Completed), |Encode(cs)| + |last|)
  {
    ContentInFragments(p, fragments);
    DecodesWhatWasEncoded(p, m, cs, last, rest);
  }

  /** What the parser has come to when n bytes of an encoding have arrived: exactly the chunks that are whole have
      been taken, and it is complete exactly when the zero-size line is. */
  function Standing(p: Parser, m: Message, cs: seq<Piece>, last: string, n: nat): Step<Parser> {
    if n < |Encode(cs)| + |last| then Taken(p, m, cs, Arrived(cs, n))
    else Step(WithContent(p, m, Body(cs)).(status := Completed), |Encode(cs)| + |last|)
  }

  lemma NothingArrived(p: Parser, m: Message, cs: seq<Piece>)
    requires InChunks(p, m) && forall c :: c in cs ==> IsPiece(p.reading.sizeOf, c)
    ensures Taken(p, m, cs, Arrived(cs, 0)) == Step(p, 0)
  {
    assert cs != [] ==> IsPiece(p.reading.sizeOf, cs[0]);
    assert cs[..0] == [];
    WithMore(p, m, [], []);
  }

  lemma StandingAfter(p: Parser, m: Message, cs: seq<Piece>, last: string, rest: string, n: nat)
    requires InChunks(p, m) && (forall c :: c in cs ==> IsPiece(p.reading.sizeOf, c)) && IsLast(p.reading.sizeOf, last)
    requires n <= |Encode(cs) + (last + rest)|
    ensures Append(p, (Encode(cs) + (last + rest))[..n]) == Standing(p, m, cs, last, n)
  {
    var all, k := Encode(cs) + (last + rest), |Encode(cs)| + |last|;
    if n < k {
      assert all[..n] == (Encode(cs) + last)[..n];
      TakesWholeChunksOnly(p, m, cs, last, n);
    } else {
      assert all[..n] == Encode(cs) + (last + rest[..n - k]);
      DecodesWhatWasEncoded(p, m, cs, last, rest[..n - k]);
    }
  }

  /** So it is after every one of the fragments. */
  lemma StandingAfterEachFragment(p: Parser, m: Message, cs: seq<Piece>, last: string, rest: string,
      fragments: seq<string>, j: nat)
    requires InChunks(p, m) && (forall c :: c in cs ==> IsPiece(p.reading.sizeOf, c)) && IsLast(p.reading.sizeOf, last)
    requires j <= |fragments| && Concat(fragments) == Encode(cs) + (last + rest)
    ensures AppendAll(p, fragments[..j]) == Standing(p, m, cs, last, |Concat(fragments[..j])|)
  {
    BitesShrink();
    var n := |Concat(fragments[..j])|;
    ConcatSplit(fragments, j);
    if j == 0 {
      NothingArrived(p, m, cs);
    } else {
      ContentInFragments(p, fragments[..j]);
      assert (Encode(cs) + (last + rest))[..n] == Concat(fragments[..j]);
      StandingAfter(p, m, cs, last, rest, n);
    }
  }
}
