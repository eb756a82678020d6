/** Unsigned machine words as natural numbers: shifts, bitwise or and and, powers of two, and the
    bit-smearing computation of the next power of two. */
module Bits {

  function Pow2(k: nat): (r: nat)
    ensures r > 0
  {
    if k == 0 then 1 else 2 * Pow2(k - 1)
  }

  ghost predicate IsPow2(n: nat) {
    exists k: nat :: n == Pow2(k)
  }

  /** x >> s */
  function Shr(x: nat, s: nat): nat {
    if s == 0 then x else Shr(x / 2, s - 1)
  }

  /** x | y */
  function Or(x: nat, y: nat): nat {
    if x == 0 then y else if y == 0 then x
    else 2 * Or(x / 2, y / 2) + (if x % 2 == 1 || y % 2 == 1 then 1 else 0)
  }

  /** x & y */
  function And(x: nat, y: nat): nat {
    if x == 0 || y == 0 then 0
    else 2 * And(x / 2, y / 2) + (if x % 2 == 1 && y % 2 == 1 then 1 else 0)
  }

  predicate Bit(x: nat, i: nat) {
    Shr(x, i) % 2 == 1
  }

  const WORD := 0x1_0000_0000

  lemma {:induction false} Pow2Mono(a: nat, b: nat)
    requires a <= b
    ensures Pow2(a) <= Pow2(b)
  {
    if a < b {
      Pow2Mono(a, b - 1);
    }
  }

  // ----- masking -----

  /** x is a multiple of the power plus the masked value. */
  lemma {:induction false} MaskSplits(x: nat, k: nat)
    ensures x == Shr(x, k) * Pow2(k) + And(x, Pow2(k) - 1)
    ensures And(x, Pow2(k) - 1) < Pow2(k)
  {
    if k > 0 && x > 0 {
      MaskSplits(x / 2, k - 1);
      MaskHalves(x, k);
      DoubleBack(x, Shr(x / 2, k - 1), Pow2(k - 1), And(x / 2, Pow2(k - 1) - 1));
      assert Shr(x, k) == Shr(x / 2, k - 1) && Pow2(k) == 2 * Pow2(k - 1);
    } else {
      ShrZero(k);
    }
  }

  lemma {:induction false} MultipleBelow(a: nat, b: nat, p: nat)
    requires a < b
    ensures a * p + p <= b * p
    decreases b
  {
    if a + 1 < b {
      MultipleBelow(a, b - 1, p);
    }
  }

  lemma RemainderIs(x: nat, q: nat, p: nat, r: nat)
    requires r < p && x == q * p + r
    ensures x % p == r
  {
    var d := x / p;
    if q < d {
      MultipleBelow(q, d, p);
    } else if d < q {
      MultipleBelow(d, q, p);
    }
  }

  /** Masking with a power of two less one is the remainder by the power. */
  lemma MaskIsRemainder(x: nat, k: nat)
    ensures And(x, Pow2(k) - 1) == x % Pow2(k)
  {
    MaskSplits(x, k);
    RemainderIs(x, Shr(x, k), Pow2(k), And(x, Pow2(k) - 1));
  }

  lemma MaskHalves(x: nat, k: nat)
    requires k > 0 && x > 0
    ensures And(x, Pow2(k) - 1) == 2 * And(x / 2, Pow2(k - 1) - 1) + x % 2
  {
  }

  lemma DoubleBack(x: nat, a: nat, b: nat, c: nat)
    requires x / 2 == a * b + c
    ensures x == a * (2 * b) + (2 * c + x % 2)
  {
  }

  // ----- smearing -----

  lemma {:induction false} ShrShr(x: nat, a: nat, b: nat)
    ensures Shr(Shr(x, a), b) == Shr(x, a + b)
  {
    if a > 0 {
      ShrShr(x / 2, a - 1, b);
    }
  }

  lemma {:induction false} ShrZero(s: nat)
    ensures Shr(0, s) == 0
  {
    if s > 0 {
      ShrZero(s - 1);
    }
  }

  lemma {:induction false} OrBit(x: nat, y: nat, i: nat)
    ensures Bit(Or(x, y), i) == (Bit(x, i) || Bit(y, i))
  {
    if i > 0 {
      OrBit(x / 2, y / 2, i - 1);
      assert Or(x, y) / 2 == Or(x / 2, y / 2);
    }
  }

  /** x has no bit at n or above, and every bit from n - w up to n - 1. */
  ghost predicate TopOnes(x: nat, n: nat, w: nat) {
    && (forall i: nat :: n <= i ==> !Bit(x, i))
    && (forall i: nat :: n <= i + w && i < n ==> Bit(x, i))
  }

  /** One smearing step doubles the run of ones. */
  lemma Smear(x: nat, n: nat, w: nat)
    requires TopOnes(x, n, w)
    ensures TopOnes(Or(x, Shr(x, w)), n, 2 * w)
  {
    var y := Or(x, Shr(x, w));
    forall i: nat ensures Bit(y, i) == (Bit(x, i) || Bit(x, i + w)) {
      OrBit(x, Shr(x, w), i);
      ShrShr(x, w, i);
    }
    forall i: nat | n <= i ensures !Bit(y, i) {
      assert !Bit(x, i) && !Bit(x, i + w);
    }
    forall i: nat | n <= i + 2 * w && i < n ensures Bit(y, i) {
      assert Bit(y, i) == (Bit(x, i) || Bit(x, i + w));
      if n <= i + w {
        assert Bit(x, i);
      } else {
        assert Bit(x, i + w);
      }
    }
  }

  lemma {:induction false} AllOnes(x: nat, n: nat)
    requires TopOnes(x, n, n)
    ensures x == Pow2(n) - 1
  {
    if n == 0 {
      NoBits(x);
    } else {
      assert Bit(x, 0) && Shr(x, 0) == x;
      forall i: nat ensures Bit(x / 2, i) == Bit(x, i + 1) {
      }
      AllOnes(x / 2, n - 1);
    }
  }

  lemma {:induction false} NoBits(x: nat)
    requires forall i: nat :: !Bit(x, i)
    ensures x == 0
  {
    if x > 0 {
      forall i: nat ensures !Bit(x / 2, i) {
        assert !Bit(x, i + 1);
      }
      assert !Bit(x, 0) && Shr(x, 0) == x;
      NoBits(x / 2);
    }
  }

  /** The number of bits of x. */
  function Width(x: nat): (n: nat)
    ensures x < Pow2(n)
    ensures n > 0 ==> Pow2(n - 1) <= x
  {
    if x == 0 then 0 else 1 + Width(x / 2)
  }

  lemma {:induction false} WidthTop(x: nat)
    ensures TopOnes(x, Width(x), 1)
  {
    if x == 0 {
      forall i: nat ensures !Bit(x, i) { ShrZero(i); }
    } else {
      WidthTop(x / 2);
      forall i: nat | i > 0 ensures Bit(x, i) == Bit(x / 2, i - 1) {
      }
    }
  }

  lemma Powers()
    ensures Pow2(31) == 0x8000_0000 && Pow2(32) == WORD
  {
    assert Pow2(8) == 256;
    assert Pow2(16) == 65536;
    assert Pow2(24) == 0x100_0000;
  }

  /** The smallest power of two that is at least num, or 0 where that is not a 32-bit word. */
  method NextPow2(num: nat) returns (r: nat)
    requires num < WORD
    ensures 1 <= num <= 0x8000_0000 ==> IsPow2(r) && num <= r && forall k: nat :: num <= Pow2(k) ==> r <= Pow2(k)
    ensures num == 0 || num > 0x8000_0000 ==> r == 0
  {
    var x := if num == 0 then WORD - 1 else num - 1;
    ghost var start, n := x, Width(x);
    WidthTop(x);
    Smear(x, n, 1);
    x := Or(x, Shr(x, 1));
    Smear(x, n, 2);
    x := Or(x, Shr(x, 2));
    Smear(x, n, 4);
    x := Or(x, Shr(x, 4));
    Smear(x, n, 8);
    x := Or(x, Shr(x, 8));
    Smear(x, n, 16);
    x := Or(x, Shr(x, 16));
    WordWidth(start);
    assert TopOnes(x, n, n);
    AllOnes(x, n);
    r := (x + 1) % WORD;
    NextIsLeast(num, start);
  }

  lemma WordWidth(x: nat)
    requires x < WORD
    ensures Width(x) <= 32
  {
    Powers();
    if Width(x) > 32 {
      Pow2Mono(32, Width(x) - 1);
    }
  }

  /** The result of the smearing, Pow2(Width(x)) as a word, for x the word before num. */
  lemma NextIsLeast(num: nat, x: nat)
    requires num < WORD && x == if num == 0 then WORD - 1 else num - 1
    ensures var r := Pow2(Width(x)) % WORD;
            && (1 <= num <= 0x8000_0000 ==> IsPow2(r) && num <= r && forall k: nat :: num <= Pow2(k) ==> r <= Pow2(k))
            && (num == 0 || num > 0x8000_0000 ==> r == 0)
  {
    WordWidth(x);
    var p := Pow2(Width(x));
    if 1 <= num <= 0x8000_0000 {
      LeastPower(num, x);
      NarrowWidth(x);
      assert p % WORD == p;
    } else {
      WideWidth(x);
      assert p == WORD;
    }
  }

  lemma NarrowWidth(x: nat)
    requires x < 0x8000_0000
    ensures Pow2(Width(x)) <= 0x8000_0000
  {
    Powers();
    if Width(x) > 31 {
      Pow2Mono(31, Width(x) - 1);
    }
    Pow2Mono(Width(x), 31);
  }

  lemma WideWidth(x: nat)
    requires 0x8000_0000 <= x < WORD
    ensures Pow2(Width(x)) == WORD
  {
    Powers();
    WordWidth(x);
    if Width(x) < 32 {
      Pow2Mono(Width(x), 31);
    }
  }

  lemma LeastPower(num: nat, x: nat)
    requires num == x + 1
    ensures num <= Pow2(Width(x)) && forall k: nat :: num <= Pow2(k) ==> Pow2(Width(x)) <= Pow2(k)
  {
    var n := Width(x);
    forall k: nat | num <= Pow2(k) ensures Pow2(n) <= Pow2(k) {
      if k < n {
        Pow2Mono(k, n - 1);
      } else {
        Pow2Mono(n, k);
      }
    }
  }
}
