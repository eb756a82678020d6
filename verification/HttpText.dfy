/** The C string functions the HTTP parser is built on, over text that ends where the caller says. */
module HttpText {

  /** The first index of c from k on, or the length when there is none. */
  function FindFrom(s: string, c: char, k: nat): (i: nat)
    requires k <= |s|
    ensures k <= i <= |s| && (i < |s| ==> s[i] == c)
    ensures forall j :: k <= j < i ==> s[j] != c
    decreases |s| - k
  {
    if k == |s| || s[k] == c then k else FindFrom(s, c, k + 1)
  }

  function Find(s: string, c: char): (i: nat)
    ensures i <= |s| && (i < |s| ==> s[i] == c)
    ensures forall j :: 0 <= j < i ==> s[j] != c
  {
    FindFrom(s, c, 0)
  }

  lemma FindIs(s: string, c: char, i: nat)
    requires i < |s| && s[i] == c && forall j :: 0 <= j < i ==> s[j] != c
    ensures Find(s, c) == i
  {
  }

  /** Where the line that begins at k ends, behind its LF; 0 when no LF has arrived. */
  function LineEnd(s: string, k: nat): (n: nat)
    requires k <= |s|
    ensures n > 0 ==> k < n <= |s| && s[n - 1] == '\n' && forall j :: k <= j < n - 1 ==> s[j] != '\n'
    ensures n == 0 ==> forall j :: k <= j < |s| ==> s[j] != '\n'
    decreases |s| - k
  {
    if k == |s| then 0 else if s[k] == '\n' then k + 1 else LineEnd(s, k + 1)
  }

  /** The length of the first line with its LF, or 0 when no LF has arrived. */
  function LineLen(s: string): nat {
    LineEnd(s, 0)
  }

  /** A line that is complete does not change when more arrives. */
  lemma LineEndStands(x: string, y: string, k: nat)
    requires k <= |x| && LineEnd(x, k) > 0
    ensures LineEnd(x + y, k) == LineEnd(x, k)
  {
    assert (x + y)[LineEnd(x, k) - 1] == '\n';
    assert LineEnd(x + y, k) > 0;
  }

  lemma LineLenBehind(s: string, k: nat)
    requires k <= |s|
    ensures LineLen(s[k..]) == if LineEnd(s, k) == 0 then 0 else LineEnd(s, k) - k
  {
  }

  lemma LineStands(x: string, y: string)
    requires LineLen(x) > 0
    ensures LineLen(x + y) == LineLen(x) && (x + y)[..LineLen(x)] == x[..LineLen(x)]
    ensures (x + y)[LineLen(x)..] == x[LineLen(x)..] + y
  {
  }

  /** The text up to the first NUL. */
  function CString(s: string): string {
    s[..Find(s, '\0')]
  }

  predicate IsEol(c: char) {
    c == '\r' || c == '\n'
  }

  function SkipEols(s: string): (r: string)
    ensures |r| <= |s| && (r != [] ==> !IsEol(r[0]))
  {
    if s != [] && IsEol(s[0]) then SkipEols(s[1..]) else s
  }

  function UpToEol(s: string): (r: string)
    ensures |r| <= |s|
  {
    if s == [] || IsEol(s[0]) then [] else [s[0]] + UpToEol(s[1..])
  }

  /** What strtok leaves in place: the first token, behind the line ends before it. */
  function CutAtEol(s: string): string {
    var token := SkipEols(s);
    if token == [] then s else s[..|s| - |token|] + UpToEol(token)
  }

  function SkipBlanks(s: string): string {
    if s != [] && s[0] == ' ' then SkipBlanks(s[1..]) else s
  }

  predicate IsSpace(c: char) {
    c == ' ' || c == '\t' || c == '\n' || c == '\U{0B}' || c == '\U{0C}' || c == '\r'
  }

  function SkipSpaces(s: string): string {
    if s != [] && IsSpace(s[0]) then SkipSpaces(s[1..]) else s
  }

  /** What a digit stands for; 36 for what is no digit in any base. */
  function DigitValue(c: char): nat {
    if '0' <= c <= '9' then c as nat - '0' as nat
    else if 'a' <= c <= 'z' then c as nat - 'a' as nat + 10
    else if 'A' <= c <= 'Z' then c as nat - 'A' as nat + 10
    else 36
  }

  function Base(hex: bool): nat {
    if hex then 16 else 10
  }

  /** The number with one more digit. */
  function WithDigit(acc: nat, d: nat, hex: bool): nat {
    if hex then 16 * acc + d else 10 * acc + d
  }

  /** The number the digits at the front of s make, after those that made acc. */
  function Digits(s: string, hex: bool, acc: nat): nat {
    if s != [] && DigitValue(s[0]) < Base(hex) then Digits(s[1..], hex, WithDigit(acc, DigitValue(s[0]), hex)) else acc
  }

  predicate HasHexPrefix(s: string) {
    |s| >= 3 && s[0] == '0' && (s[1] == 'x' || s[1] == 'X') && DigitValue(s[2]) < 16
  }

  function Strtol(s: string, hex: bool): int {
    var t := SkipSpaces(s);
    var negative := t != [] && t[0] == '-';
    var u := if t != [] && (t[0] == '-' || t[0] == '+') then t[1..] else t;
    var v := if hex && HasHexPrefix(u) then u[2..] else u;
    if negative then -(Digits(v, hex, 0) as int) else Digits(v, hex, 0)
  }

  /** strtol saturates at the limits of a 64-bit long, and the cast to a 32-bit int keeps the low bits. */
  function ToInt(v: int): (r: int)
    ensures -0x8000_0000 <= r < 0x8000_0000
    ensures -0x8000_0000 <= v < 0x8000_0000 ==> r == v
  {
    var clamped := if v > 0x7fff_ffff_ffff_ffff then 0x7fff_ffff_ffff_ffff
                   else if v < -0x8000_0000_0000_0000 then -0x8000_0000_0000_0000 else v;
    (clamped + 0x8000_0000) % 0x1_0000_0000 - 0x8000_0000
  }

  function Atoi(s: string): int {
    ToInt(Strtol(CString(s), false))
  }

  function Lower(c: char): char {
    if 'A' <= c <= 'Z' then (c as int + 32) as char else c
  }

  predicate EqualNoCase(s: string, t: string) {
    |s| == |t| && forall i :: 0 <= i < |s| ==> Lower(s[i]) == Lower(t[i])
  }

  predicate SameLetter(a: char, b: char) {
    || a == b
    || ('A' <= a <= 'Z' && 'a' <= b <= 'z' && a as int - 'A' as int == b as int - 'a' as int)
    || ('a' <= a <= 'z' && 'A' <= b <= 'Z' && a as int - 'a' as int == b as int - 'A' as int)
  }

  /** The word, in any case. */
  predicate Spells(s: string, word: string) {
    |s| == |word| && forall i :: 0 <= i < |s| ==> SameLetter(s[i], word[i])
  }

  lemma LowerExactly(a: char, b: char)
    ensures Lower(a) == Lower(b) <==> SameLetter(a, b)
  {
  }

  /** The comparison without case finds two words the same exactly if one is the other in some case. */
  lemma EqualNoCaseExactly(s: string, t: string)
    ensures EqualNoCase(s, t) <==> Spells(t, s)
    ensures EqualNoCase(s, t) <==> Spells(s, t)
  {
    if |s| == |t| {
      forall i | 0 <= i < |s|
        ensures Lower(s[i]) == Lower(t[i]) <==> SameLetter(s[i], t[i])
        ensures Lower(s[i]) == Lower(t[i]) <==> SameLetter(t[i], s[i])
      {
        LowerExactly(s[i], t[i]);
        LowerExactly(t[i], s[i]);
      }
    }
  }

  predicate Blank(s: string) {
    forall i :: 0 <= i < |s| ==> IsSpace(s[i])
  }

  lemma {:induction false} BlanksAreSkipped(blanks: string, s: string)
    requires Blank(blanks) && (s != [] ==> !IsSpace(s[0]))
    ensures SkipSpaces(blanks + s) == s
  {
    if blanks == [] {
      assert blanks + s == s;
    } else {
      assert (blanks + s)[1..] == blanks[1..] + s;
      BlanksAreSkipped(blanks[1..], s);
    }
  }
}
