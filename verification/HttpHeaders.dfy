/** Which header lines and which start line decide how the rest of a message is read, said in words: names
    and values count whatever the case of their letters, and of several headers of a name the first. */
module HttpHeaders {
  import opened Basics
  import opened HttpText
  import opened Numerals
  import opened HttpParsing

  /** Header i is the first of that name. */
  predicate FirstOf(hs: seq<(string, string)>, name: string, i: int) {
    0 <= i < |hs| && Spells(hs[i].0, name) && forall j :: 0 <= j < i ==> !Spells(hs[j].0, name)
  }

  predicate Lacks(hs: seq<(string, string)>, name: string) {
    forall i :: 0 <= i < |hs| ==> !Spells(hs[i].0, name)
  }

  lemma FirstBehind(hs: seq<(string, string)>, name: string, i: int)
    requires hs != [] && !Spells(hs[0].0, name)
    ensures FirstOf(hs, name, i) <==> FirstOf(hs[1..], name, i - 1)
  {
    if FirstOf(hs[1..], name, i - 1) {
      assert forall j :: 0 < j < |hs| ==> hs[j] == hs[1..][j - 1];
    }
  }

  lemma {:induction false} HeaderValueIsFirst(hs: seq<(string, string)>, name: string)
    ensures HeaderValue(hs, name).None? <==> Lacks(hs, name)
    ensures forall i :: FirstOf(hs, name, i) ==> HeaderValue(hs, name) == Some(hs[i].1)
    ensures HeaderValue(hs, name).Some? ==> exists i :: FirstOf(hs, name, i)
    decreases |hs|
  {
    if hs != [] {
      EqualNoCaseExactly(name, hs[0].0);
      if EqualNoCase(name, hs[0].0) {
        assert FirstOf(hs, name, 0);
      } else {
        var tail := hs[1..];
        HeaderValueIsFirst(tail, name);
        assert forall i :: 0 < i < |hs| ==> hs[i] == tail[i - 1];
        forall i ensures FirstOf(hs, name, i) <==> FirstOf(tail, name, i - 1) {
          FirstBehind(hs, name, i);
        }
        if i :| FirstOf(tail, name, i) {
          assert FirstOf(hs, name, i + 1) by { FirstBehind(hs, name, i + 1); }
        }
      }
    }
  }

  /** The first header of the name says that value, in any case. */
  predicate Says(hs: seq<(string, string)>, name: string, word: string) {
    exists i :: 0 <= i < |hs| && FirstOf(hs, name, i) && Spells(hs[i].1, word)
  }

  /** The content comes in chunks exactly if the first header named Transfer-Encoding says chunked. */
  lemma IsChunkedExactly(hs: seq<(string, string)>)
    ensures IsChunked(hs) <==> Says(hs, "Transfer-Encoding", "chunked")
  {
    HeaderValueIsFirst(hs, "Transfer-Encoding");
    if IsChunked(hs) {
      var i :| FirstOf(hs, "Transfer-Encoding", i);
      EqualNoCaseExactly(hs[i].1, "chunked");
      assert Says(hs, "Transfer-Encoding", "chunked");
    } else if Says(hs, "Transfer-Encoding", "chunked") {
      var i :| 0 <= i < |hs| && FirstOf(hs, "Transfer-Encoding", i) && Spells(hs[i].1, "chunked");
      EqualNoCaseExactly(hs[i].1, "chunked");
      assert false;
    }
  }

  /** The first header named Content-Length says that number, in decimal digits. */
  predicate GivesLength(hs: seq<(string, string)>, n: nat) {
    exists i :: 0 <= i < |hs| && FirstOf(hs, "Content-Length", i) && hs[i].1 == Numeral(n, false)
  }

  lemma LengthIsGiven(hs: seq<(string, string)>, n: nat)
    ensures GivesLength(hs, n) <==> HeaderValue(hs, "Content-Length") == Some(Numeral(n, false))
  {
    HeaderValueIsFirst(hs, "Content-Length");
  }

  lemma NoLengthIsZero(hs: seq<(string, string)>)
    requires Lacks(hs, "Content-Length")
    ensures LengthOf(hs) == 0
  {
    HeaderValueIsFirst(hs, "Content-Length");
  }

  predicate BeginsWithHttp(line: string) {
    && |line| >= 4 && (line[0] == 'H' || line[0] == 'h') && (line[1] == 'T' || line[1] == 't')
    && (line[2] == 'T' || line[2] == 't') && (line[3] == 'P' || line[3] == 'p')
  }

  lemma FourLetters(line: string)
    requires |line| >= 4
    ensures Spells(line[..4], "HTTP") <==>
            SameLetter(line[0], 'H') && SameLetter(line[1], 'T') && SameLetter(line[2], 'T') && SameLetter(line[3], 'P')
  {
    var s, word := line[..4], "HTTP";
    assert s[0] == line[0] && s[1] == line[1] && s[2] == line[2] && s[3] == line[3];
    assert word[0] == 'H' && word[1] == 'T' && word[2] == 'T' && word[3] == 'P';
  }

  /** A start line that begins with HTTP in any case is that of a response, and any other that of a request. */
  lemma KindExactly(line: string)
    ensures KindOf(line) == if BeginsWithHttp(line) then Response else Request
  {
    if |line| >= 4 {
      EqualNoCaseExactly(line[..4], "HTTP");
      FourLetters(line);
    }
  }
}
