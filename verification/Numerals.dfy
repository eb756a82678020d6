/** Numbers in text: what the C library reads back from the digits of a number. */
module Numerals {
  import opened HttpText

  function Digit(d: nat): (c: char)
    requires d < 16
    ensures DigitValue(c) == d && !IsSpace(c) && c != '+' && c != '-' && c != 'x' && c != 'X' && c != '\0'
  {
    "0123456789abcdef"[d]
  }

  function AllButLast(n: nat, hex: bool): (q: nat)
    ensures Base(hex) <= n ==> 0 < q < n
    ensures n < Base(hex) ==> q == 0
    ensures WithDigit(q, LastDigit(n, hex), hex) == n
  {
    if hex then n / 16 else n / 10
  }

  function LastDigit(n: nat, hex: bool): (d: nat)
    ensures d < Base(hex)
  {
    if hex then n % 16 else n % 10
  }

  /** The digits of n. */
  function Numeral(n: nat, hex: bool): (s: string)
    ensures s != [] && forall i :: 0 <= i < |s| ==> exists d :: 0 <= d < Base(hex) && s[i] == Digit(d)
    decreases n
  {
    (if n < Base(hex) then [] else Numeral(AllButLast(n, hex), hex)) + [Digit(LastDigit(n, hex))]
  }

  lemma OneDigit(d: nat, t: string, hex: bool, acc: nat)
    requires d < Base(hex)
    ensures Digits([Digit(d)] + t, hex, acc) == Digits(t, hex, WithDigit(acc, d, hex))
  {
  }

  lemma NumeralSplit(n: nat, hex: bool, t: string)
    ensures var q, last := AllButLast(n, hex), [Digit(LastDigit(n, hex))];
            Numeral(n, hex) + t == (if n < Base(hex) then [] else Numeral(q, hex)) + (last + t)
  {
  }

  lemma {:induction false} DigitsOfNumeral(n: nat, hex: bool, t: string)
    ensures Digits(Numeral(n, hex) + t, hex, 0) == Digits(t, hex, n)
    decreases n
  {
    var q, last := AllButLast(n, hex), [Digit(LastDigit(n, hex))];
    NumeralSplit(n, hex, t);
    OneDigit(LastDigit(n, hex), t, hex, q);
    if n >= Base(hex) {
      DigitsOfNumeral(q, hex, last + t);
    } else {
      assert [] + (last + t) == last + t;
    }
  }

  /** Reading a numeral back, whatever follows that is no digit. */
  lemma ReadBack(n: nat, hex: bool, t: string)
    requires t == [] || (DigitValue(t[0]) == 36 && t[0] != 'x' && t[0] != 'X')
    ensures Strtol(Numeral(n, hex) + t, hex) == n
  {
    var s := Numeral(n, hex) + t;
    DigitsOfNumeral(n, hex, t);
    assert s[0] == Numeral(n, hex)[0];
    assert |s| > 1 ==> s[1] == if |Numeral(n, hex)| > 1 then Numeral(n, hex)[1] else t[0];
  }

  function Pow16(k: nat): nat {
    if k == 0 then 1 else 16 * Pow16(k - 1)
  }

  lemma {:induction false} NumeralIsShort(n: nat, k: nat)
    requires k > 0 && n < Pow16(k)
    ensures |Numeral(n, true)| <= k
  {
    if n >= 16 {
      NumeralIsShort(n / 16, k - 1);
    }
  }

  lemma {:induction false} NoneMissing(s: string, c: char)
    requires forall i :: 0 <= i < |s| ==> s[i] != c
    ensures Find(s, c) == |s|
  {
  }

  // ----- all spellings -----

  /** A digit, and in base 16 a letter in either case. */
  lemma DigitValueExactly(c: char, d: nat)
    requires d < 16
    ensures DigitValue(c) == d <==> SameLetter(c, "0123456789abcdef"[d])
  {
  }

  lemma {:induction false} SameDigits(s: string, n: string, t: string, hex: bool, acc: nat)
    requires Spells(s, n) && forall i :: 0 <= i < |n| ==> DigitValue(n[i]) < Base(hex)
    ensures Digits(s + t, hex, acc) == Digits(n + t, hex, acc)
  {
    if s == [] {
      assert s + t == t && n + t == t;
    } else {
      assert (s + t)[1..] == s[1..] + t && (n + t)[1..] == n[1..] + t;
      assert DigitValue(s[0]) == DigitValue(n[0]);
      SameDigits(s[1..], n[1..], t, hex, WithDigit(acc, DigitValue(n[0]), hex));
    }
  }

  predicate IsPrefix(prefix: string, hex: bool) {
    prefix == [] || (hex && (prefix == "0x" || prefix == "0X"))
  }

  predicate IsSign(sign: string) {
    sign == "" || sign == "-" || sign == "+"
  }

  lemma PrefixIsSkipped(prefix: string, digits: string, hex: bool)
    requires IsPrefix(prefix, hex) && digits != [] && DigitValue(digits[0]) < Base(hex)
    requires |digits| > 1 ==> digits[1] != 'x' && digits[1] != 'X'
    ensures var u := prefix + digits;
            && u[0] != '-' && u[0] != '+' && !IsSpace(u[0])
            && (if hex && HasHexPrefix(u) then u[2..] else u) == digits
  {
    var u := prefix + digits;
    assert prefix == [] ==> u == digits;
    if prefix != [] {
      assert u[0] == '0' && u[1] == prefix[1] && u[2] == digits[0] && u[2..] == digits;
    }
  }

  lemma SignIsRead(blanks: string, sign: string, u: string, hex: bool)
    requires Blank(blanks) && IsSign(sign) && u != [] && u[0] != '-' && u[0] != '+' && !IsSpace(u[0])
    ensures var v := if hex && HasHexPrefix(u) then u[2..] else u;
            Strtol(blanks + (sign + u), hex) == if sign == "-" then -(Digits(v, hex, 0) as int) else Digits(v, hex, 0)
  {
    var w := sign + u;
    assert sign == "" ==> w == u;
    assert sign != "" ==> w[0] == sign[0] && w[1..] == u;
    BlanksAreSkipped(blanks, w);
  }

  /** The number is read whatever blanks, sign and prefix come before it, whatever the case of its digits, and
      whatever follows that is no digit. */
  lemma SpellingIsRead(blanks: string, sign: string, prefix: string, s: string, n: nat, hex: bool, t: string)
    requires Blank(blanks) && IsSign(sign) && IsPrefix(prefix, hex) && Spells(s, Numeral(n, hex))
    requires t == [] || (DigitValue(t[0]) == 36 && t[0] != 'x' && t[0] != 'X')
    ensures Strtol(blanks + (sign + (prefix + (s + t))), hex) == if sign == "-" then -(n as int) else n
  {
    var digits := s + t;
    assert digits[0] == s[0] && SameLetter(s[0], Numeral(n, hex)[0]);
    assert |digits| > 1 ==> digits[1] == if |s| > 1 then s[1] else t[0];
    assert |s| > 1 ==> SameLetter(s[1], Numeral(n, hex)[1]);
    PrefixIsSkipped(prefix, digits, hex);
    SignIsRead(blanks, sign, prefix + digits, hex);
    SameDigits(s, Numeral(n, hex), t, hex, 0);
    DigitsOfNumeral(n, hex, t);
  }

  /** A number too great for a long is the greatest or the least there is; of any long the int has the low
      32 bits. */
  lemma ToIntExactly(v: int)
    ensures v >= 0x8000_0000_0000_0000 ==> ToInt(v) == -1
    ensures v < -0x8000_0000_0000_0000 ==> ToInt(v) == 0
    ensures -0x8000_0000_0000_0000 <= v < 0x8000_0000_0000_0000 ==> (ToInt(v) - v) % 0x1_0000_0000 == 0
  {
  }
}
