/** The two decoders of dot-terminated text: one that waits for the whole text in its input buffer, and one
    that moves full buffers aside and looks for a terminator across their ends. */
module DotDecoders {
  import opened Basics
  import opened HttpText
  import opened DotText

  // ----- the loop that takes the dots out -----

  /** A dot behind an LF. */
  predicate Extra(text: string, i: nat) {
    1 <= i < |text| && text[i] == '.' && text[i - 1] == '\n'
  }

  /** The loop, which goes from src up to a NUL, meets one in the text or right behind it. */
  predicate StaysIn(text: string, src: nat)
    decreases |text| - src
  {
    if src >= |text| then src == |text|
    else text[src] == '\0' || StaysIn(text, if Extra(text, src) then src + 2 else src + 1)
  }

  /** What it writes on its way; the character behind an extra dot is not looked at. */
  function Walk(text: string, src: nat): string
    requires StaysIn(text, src)
    decreases |text| - src
  {
    if src >= |text| || text[src] == '\0' then []
    else if Extra(text, src) then
      assert StaysIn(text, src + 2);
      [text[src + 1]] + Walk(text, src + 2)
    else [text[src]] + Walk(text, src + 1)
  }

  /** A NUL, in the text or behind it, that does not follow an extra dot. */
  predicate Stop(text: string, j: nat) {
    j <= |text| && (j == |text| || text[j] == '\0') && !(j >= 2 && Extra(text, j - 1))
  }

  lemma {:induction false} StaysFrom(text: string, src: nat)
    requires 1 <= src && !Extra(text, src - 1)
    ensures StaysIn(text, src) <==> exists j :: src <= j && Stop(text, j)
    decreases |text| - src
  {
    if src < |text| && text[src] != '\0' {
      StaysFrom(text, if Extra(text, src) then src + 2 else src + 1);
      assert !Stop(text, src) && (Extra(text, src) ==> !Stop(text, src + 1));
    } else if src <= |text| {
      assert Stop(text, src);
    }
  }

  /** The loop ends inside its buffer exactly if such a NUL stands behind the first character. */
  lemma StaysExactly(text: string)
    ensures StaysIn(text, 1) <==> exists j :: 1 <= j && Stop(text, j)
  {
    StaysFrom(text, 1);
  }

  /** A text without NUL must not be empty and must not end with LF and a dot. */
  predicate Removable(text: string) {
    text != [] && !(|text| >= 2 && text[|text| - 2] == '\n' && text[|text| - 1] == '.')
  }

  lemma StaysInIfRemovable(text: string)
    requires forall i :: 0 <= i < |text| ==> text[i] != '\0'
    ensures StaysIn(text, 1) <==> Removable(text)
  {
    StaysExactly(text);
    assert text != [] ==> (Stop(text, |text|) <==> Removable(text));
  }

  lemma CStringFrom(s: string, k: nat)
    requires k < |s|
    ensures CString(s[k..]) == if s[k] == '\0' then [] else [s[k]] + CString(s[k + 1..])
  {
    var t := s[k..];
    if s[k] != '\0' {
      var n := Find(s[k + 1..], '\0');
      if n < |s[k + 1..]| {
        FindIs(t, '\0', n + 1);
      }
      assert Find(t, '\0') == n + 1;
      assert t[..n + 1] == [s[k]] + s[k + 1..][..n];
    }
  }

  lemma CStringOf(c: char, s: string)
    ensures CString([c] + s) == if c == '\0' then [] else [c] + CString(s)
  {
    CStringFrom([c] + s, 0);
    assert ([c] + s)[0..] == [c] + s && ([c] + s)[1..] == s;
  }

  lemma RemoveFrom(prev: char, text: string, k: nat)
    requires k < |text| && text[k] != '\0'
    ensures var rest := CString(text[k + 1..]);
            Remove(prev, CString(text[k..])) ==
              if text[k] == '.' && prev == '\n' then Remove('.', rest) else [text[k]] + Remove(text[k], rest)
  {
    CStringFrom(text, k);
    assert ([text[k]] + CString(text[k + 1..]))[1..] == CString(text[k + 1..]);
  }

  lemma WalkFrom(text: string, src: nat)
    requires StaysIn(text, src) && src < |text| && text[src] != '\0'
    ensures var k := if Extra(text, src) then src + 1 else src;
            && k < |text| && StaysIn(text, k + 1) && Walk(text, src) == [text[k]] + Walk(text, k + 1)
            && CString(Walk(text, src)) == if text[k] == '\0' then [] else [text[k]] + CString(Walk(text, k + 1))
  {
    var k := if Extra(text, src) then src + 1 else src;
    assert StaysIn(text, k + 1);
    CStringOf(text[k], Walk(text, k + 1));
  }

  /** What is removed from the text at an extra dot, and where there is none. */
  lemma RemoveAt(text: string, src: nat)
    requires 1 <= src < |text| && text[src] != '\0'
    ensures !Extra(text, src) ==>
              Remove(text[src - 1], CString(text[src..])) == [text[src]] + Remove(text[src], CString(text[src + 1..]))
    ensures Extra(text, src) && src + 1 < |text| ==>
              Remove(text[src - 1], CString(text[src..])) ==
                if text[src + 1] == '\0' then []
                else [text[src + 1]] + Remove(text[src + 1], CString(text[src + 2..]))
  {
    RemoveFrom(text[src - 1], text, src);
    if Extra(text, src) && src + 1 < |text| {
      CStringFrom(text, src + 1);
      if text[src + 1] != '\0' {
        RemoveFrom('.', text, src + 1);
      }
    }
  }

  /** Up to the first NUL it is the text without the extra dots. */
  lemma {:induction false} WalkRemoves(text: string, src: nat)
    requires 1 <= src && StaysIn(text, src) && text[src - 1] != '\0'
    ensures CString(Walk(text, src)) == Remove(text[src - 1], CString(text[src..]))
    decreases |text| - src
  {
    if src < |text| {
      if text[src] == '\0' {
        CStringFrom(text, src);
      } else {
        var k := if Extra(text, src) then src + 1 else src;
        WalkFrom(text, src);
        RemoveAt(text, src);
        if text[k] != '\0' {
          WalkRemoves(text, k + 1);
        }
      }
    }
  }

  lemma WholeWalk(text: string)
    requires StaysIn(text, 1)
    ensures CString([text[0]] + Walk(text, 1)) == Unstuff(CString(text))
  {
    CStringOf(text[0], Walk(text, 1));
    CStringFrom(text, 0);
    assert text[0..] == text;
    if text[0] != '\0' {
      WalkRemoves(text, 1);
      assert ([text[0]] + CString(text[1..]))[1..] == CString(text[1..]);
    }
  }

  // ----- what one call comes to -----

  /** Overrun is where the source reads outside a buffer. */
  datatype Ret = OK | MoreData | Overrun

  /** A call with the text, if it is complete, and what is left of the buffer. */
  datatype Decoded = Decoded(ret: Ret, text: string, rest: string)

  function Decode(b: string): Decoded {
    var i := Terminator(b);
    if i < 0 then Decoded(MoreData, [], b)
    else if StaysIn(b[..i], 1) then Decoded(OK, Unstuff(CString(b[..i])), b[i + TerminatorLen(b, i)..])
    else Decoded(Overrun, [], b[i..])
  }

  const CHUNK := 61440

  predicate NoTerminator(s: string) {
    First(s, CRLF_DOT, 0) < 0 && First(s, LF_DOT, 0) < 0
  }

  /** No terminator is in a chunk that has been moved aside. */
  ghost predicate Clean(list: seq<string>) {
    forall c :: c in list ==> NoTerminator(c)
  }

  /** The end of the last chunk and the beginning of the buffer. */
  function BothEnds(prev: string, b: string): string
    requires |prev| >= 5
  {
    prev[|prev| - 5..] + if |b| > 5 then b[..5] else b
  }

  /** The same as a C string. */
  function Seam(prev: string, b: string): string
    requires |prev| >= 5
  {
    CString(BothEnds(prev, b))
  }

  /** How much of a terminator at i of the seam is in the buffer. */
  function SeamTail(seam: string, i: nat): int {
    if At(seam, LF_DOT, i) then 3 - (5 - i) else i
  }

  /** A terminator at the seam has between one and four characters in either part. */
  lemma SeamParts(prev: string, b: string)
    requires |prev| >= 5 && NoTerminator(prev) && NoTerminator(b)
    ensures var i := Terminator(Seam(prev, b));
            i >= 0 ==> 0 < i < 5 && 0 < SeamTail(Seam(prev, b), i) < 5 && SeamTail(Seam(prev, b), i) <= |b|
  {
    var seam := Seam(prev, b);
    var i := Terminator(seam);
    if i >= 0 {
      AtMeans(seam, i);
      AtMeans(prev, |prev| - 5 + i);
      AtMeans(b, i - 5);
      assert forall k :: 0 <= k < |seam| && k < 5 ==> seam[k] == prev[|prev| - 5 + k];
      assert forall k :: 5 <= k < |seam| ==> seam[k] == b[k - 5];
    }
  }

  datatype ChunkStep = ChunkStep(ret: Ret, list: seq<string>, rest: string)

  /** The terminator at the seam taken out of the last chunk and of the buffer. */
  function TakeOutSeam(list: seq<string>, b: string): ChunkStep
    requires list != [] && |list[|list| - 1]| >= 5 && NoTerminator(list[|list| - 1]) && NoTerminator(b)
    requires Terminator(Seam(list[|list| - 1], b)) >= 0
  {
    var prev := list[|list| - 1];
    var seam := Seam(prev, b);
    var i := Terminator(seam);
    SeamParts(prev, b);
    ChunkStep(OK, list[|list| - 1 := prev[..|prev| - (5 - i)]], b[SeamTail(seam, i)..])
  }

  /** The decoder looks at the last five characters of the last chunk. */
  function DecodeChunk(list: seq<string>, b: string): ChunkStep
    requires Clean(list)
  {
    var i := Terminator(b);
    if b == [] then ChunkStep(MoreData, list, b)
    else if i >= 0 then ChunkStep(OK, if i > 0 then list + [b[..i]] else list, b[i + TerminatorLen(b, i)..])
    else if list != [] && |list[|list| - 1]| < 5 then ChunkStep(Overrun, list, b)
    else if list != [] && Terminator(Seam(list[|list| - 1], b)) >= 0 then TakeOutSeam(list, b)
    else if |b| >= CHUNK then ChunkStep(MoreData, list + [b], [])
    else ChunkStep(MoreData, list, b)
  }

  lemma AtBegins(b: string, key: string, j: int)
    requires key != []
    ensures At(b, key, j) ==> b[j] == key[0]
  {
  }

  // ----- the source's objects -----

  class Buffer {
    var bytes: string

    constructor (bytes: string)
      ensures this.bytes == bytes
    {
      this.bytes := bytes;
    }

    /** The first index of c in the n characters from k, or -1. */
    static function MemChr(s: string, c: char, k: nat, n: nat): (i: int)
      requires k + n <= |s|
      ensures i >= 0 ==> k <= i < k + n && s[i] == c
      ensures forall j :: k <= j < k + n && (i < 0 || j < i) ==> s[j] != c
      decreases n
    {
      if n == 0 then -1 else if s[k] == c then k else MemChr(s, c, k + 1, n - 1)
    }

    method Find(key: string) returns (pos: int)
      requires key != []
      ensures pos == First(bytes, key, 0)
    {
      var remain, search := |bytes|, 0;
      while remain >= |key|
        invariant 0 <= search && search + remain == |bytes|
        invariant forall j :: 0 <= j < search ==> !At(bytes, key, j)
      {
        var p := MemChr(bytes, key[0], search, remain - |key| + 1);
        forall j | search <= j && (p < 0 || j < p) ensures !At(bytes, key, j) {
          AtBegins(bytes, key, j);
        }
        if p < 0 {
          FirstIsNone(bytes, key);
          return -1;
        }
        if bytes[p..p + |key|] == key {
          FirstIs(bytes, key, p);
          return p;
        }
        search := p + 1;
        remain := |bytes| - search;
      }
      FirstIsNone(bytes, key);
      return -1;
    }

    method FindTerminator() returns (pos: int)
      ensures pos == Terminator(bytes)
    {
      pos := Find(CRLF_DOT);
      if pos < 0 {
        pos := Find(LF_DOT);
      }
    }

    method Erase(len: nat)
      requires len <= |bytes|
      modifies this
      ensures bytes == old(bytes)[len..]
    {
      bytes := bytes[len..];
    }

    /** Moves the contents away. */
    method Take() returns (taken: string)
      modifies this
      ensures taken == old(bytes) && bytes == []
    {
      taken := bytes;
      bytes := [];
    }
  }

  /** From k on the array holds the text with a NUL behind it. */
  ghost predicate HoldsFrom(a: array<char>, text: string, k: nat)
    reads a
  {
    a.Length == |text| + 1 && forall j :: k <= j <= |text| ==> a[j] == if j < |text| then text[j] else '\0'
  }

  /** With done written, what is behind src is still to be dealt with. */
  ghost predicate Underway(text: string, src: nat, done: string) {
    && (StaysIn(text, src) <==> StaysIn(text, 1))
    && (StaysIn(text, src) ==> done + Walk(text, src) == [text[0]] + Walk(text, 1))
  }

  lemma Onward(text: string, src: nat, done: string)
    requires 1 <= src < |text| && text[src] != '\0' && Underway(text, src, done)
    ensures var k := if Extra(text, src) then src + 1 else src;
            Underway(text, k + 1, done + [if k < |text| then text[k] else '\0'])
  {
  }

  lemma NulEnds(s: string, n: nat)
    requires n < |s| && s[n] == '\0'
    ensures CString(s) == CString(s[..n])
  {
    var i := Find(s[..n], '\0');
    FindIs(s, '\0', i);
    assert s[..n][..i] == s[..i];
  }

  /** Takes the dots out in place, unless the loop runs out of the array. A character is looked at before its place
      is written, and the character before it is still there. */
  method RemoveDots(a: array<char>, ghost text: string) returns (inside: bool)
    requires HoldsFrom(a, text, 0)
    modifies a
    ensures inside <==> StaysIn(text, 1)
    ensures inside ==> CString(a[..]) == Unstuff(CString(text))
  {
    if a.Length == 1 {
      return false;
    }
    var src, des := 1, 1;
    ghost var done := a[..1];
    assert done == [text[0]];
    while src < a.Length && a[src] != '\0'
      invariant 1 <= des <= src <= |text| + 1
      invariant HoldsFrom(a, text, src) && (src <= |text| ==> a[src - 1] == text[src - 1])
      invariant done == a[..des] && Underway(text, src, done)
      decreases |text| + 1 - src
    {
      Onward(text, src, done);
      if a[src] == '.' && a[src - 1] == '\n' {
        src := src + 1;
      }
      done := done + [a[src]];
      a[des] := a[src];
      des, src := des + 1, src + 1;
    }
    if src == a.Length {
      return false;
    }
    a[des] := '\0';
    assert done + [] == done;
    NulEnds(a[..], des);
    assert a[..][..des] == done;
    WholeWalk(text);
    return true;
  }

  /** A copy of the text with a NUL behind it, and the dots taken out. */
  method CopyAndRemove(text: string) returns (a: array<char>, inside: bool)
    ensures fresh(a) && (inside <==> StaysIn(text, 1))
    ensures inside ==> CString(a[..]) == Unstuff(CString(text))
  {
    a := new char[|text| + 1](i => if 0 <= i < |text| then text[i] else '\0');
    inside := RemoveDots(a, text);
  }

  class DotTermMsgDecoder {
    var buffer: array?<char>

    ghost function Msg(): Option<string>
      reads this, buffer
    {
      if buffer == null then None else Some(CString(buffer[..]))
    }

    constructor ()
      ensures Msg() == None
    {
      buffer := null;
    }

    method DecodeBuffer(inBuffer: Buffer) returns (ret: Ret)
      modifies this, inBuffer
      ensures ret == MoreData <==> Msg() == None
      ensures Decoded(ret, if ret == OK then Msg().value else [], inBuffer.bytes) == Decode(old(inBuffer.bytes))
    {
      buffer := null;
      var pos := inBuffer.FindTerminator();
      if pos >= 0 {
        var isShort := At(inBuffer.bytes, LF_DOT, pos);
        var inside;
        buffer, inside := CopyAndRemove(inBuffer.bytes[..pos]);
        inBuffer.Erase(pos);
        if !inside {
          return Overrun;
        }
        inBuffer.Erase(if isShort then 3 else 5);
        return OK;
      }
      return MoreData;
    }
  }

  class DotTermChunkMsgDecoder {
    var list: seq<string>

    constructor ()
      ensures list == []
    {
      list := [];
    }

    method DecodeBuffer(inBuffer: Buffer) returns (ret: Ret)
      requires Clean(list)
      modifies this, inBuffer
      ensures ChunkStep(ret, list, inBuffer.bytes) == DecodeChunk(old(list), old(inBuffer.bytes))
      ensures ret == MoreData ==> Clean(list)
    {
      if |inBuffer.bytes| <= 0 {
        return MoreData;
      }
      var pos := inBuffer.FindTerminator();
      if pos >= 0 {
        var isShort := At(inBuffer.bytes, LF_DOT, pos);
        if pos != 0 {
          list := list + [inBuffer.bytes[..pos]];
          inBuffer.Erase(pos);
        }
        inBuffer.Erase(if isShort then 3 else 5);
        return OK;
      }
      if |list| > 0 {
        if |list[|list| - 1]| < 5 {
          return Overrun;
        }
        var ok := FinishAtSeam(inBuffer);
        if ok {
          return OK;
        }
      }
      if |inBuffer.bytes| >= CHUNK {
        var chunk := inBuffer.Take();
        list := list + [chunk];
      }
      return MoreData;
    }

    /** Looks for a terminator across the end of the last chunk: how much of it is there, and how much of it
        is in the buffer; 0 if there is none. */
    static method SearchSeam(prev: string, b: string) returns (prevLen: int, lastLen: int)
      requires |prev| >= 5 && NoTerminator(prev) && NoTerminator(b)
      ensures var i := Terminator(Seam(prev, b));
              if i < 0 then prevLen == 0
              else
                && prevLen == 5 - i && 0 < prevLen < 5
                && lastLen == SeamTail(Seam(prev, b), i) && 0 < lastLen < 5 && lastLen <= |b|
    {
      SeamParts(prev, b);
      var dotTerm := Seam(prev, b);
      var i := First(dotTerm, CRLF_DOT, 0);
      if i < 0 {
        i := First(dotTerm, LF_DOT, 0);
      }
      prevLen, lastLen := 0, 0;
      if i >= 0 {
        prevLen := 5 - i;
        lastLen := 5 - prevLen;
        if At(dotTerm, LF_DOT, i) {
          lastLen := 3 - prevLen;
        }
      }
    }

    /** Takes a terminator across the end of the last chunk out of both. */
    method FinishAtSeam(inBuffer: Buffer) returns (ok: bool)
      requires list != [] && |list[|list| - 1]| >= 5 && NoTerminator(list[|list| - 1]) && NoTerminator(inBuffer.bytes)
      modifies this, inBuffer
      ensures ok <==> Terminator(Seam(old(list[|list| - 1]), old(inBuffer.bytes))) >= 0
      ensures if ok then ChunkStep(OK, list, inBuffer.bytes) == TakeOutSeam(old(list), old(inBuffer.bytes))
              else list == old(list) && inBuffer.bytes == old(inBuffer.bytes)
    {
      var prev := list[|list| - 1];
      var prevLen, lastLen := SearchSeam(prev, inBuffer.bytes);
      ok := prevLen > 0;
      if ok {
        assert prevLen < 5 && lastLen < 5;
        list := list[|list| - 1 := prev[..|prev| - prevLen]];
        inBuffer.Erase(lastLen);
      }
    }

    /** The chunks put together, with the dots taken out unless the loop runs out of the array. */
    method GetMsg() returns (ret: array<char>, inside: bool)
      modifies this
      ensures fresh(ret) && list == [] && (inside <==> StaysIn(Concat(old(list)), 1))
      ensures inside ==> CString(ret[..]) == Unstuff(CString(Concat(old(list))))
    {
      var i, text := 0, [];
      while i < |list|
        invariant 0 <= i <= |list| && list == old(list) && text == Concat(list[..i])
      {
        ConcatNext(list, i);
        text := text + list[i];
        i := i + 1;
      }
      assert list[..|list|] == list;
      list := [];
      ret, inside := CopyAndRemove(text);
    }
  }

  /** A text on which the loop of the simple decoder runs out of its buffer. */
  lemma DotOnTheLastLine()
    ensures Decode("a\n.\r\n.\r\n").ret == Overrun
  {
    var b := "a\n.\r\n.\r\n";
    AtMeans(b, 0);
    AtMeans(b, 1);
    AtMeans(b, 2);
    AtMeans(b, 3);
    FirstIs(b, CRLF_DOT, 3);
    assert b[..3] == "a\n.";
    StaysInIfRemovable("a\n.");
  }
}
