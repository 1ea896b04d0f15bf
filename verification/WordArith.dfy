/**
 * Powers of two, and the bitwise operators of C on unsigned words, as functions
 * on natural numbers.
 */
module WordArith {
  const Two64: nat := 0x1_0000_0000_0000_0000
  const Two128: nat := 0x1_0000_0000_0000_0000_0000_0000_0000_0000

  /** An unsigned 64-bit word. */
  type Word = x: int | 0 <= x < Two64

  function Pow2(n: nat): (r: nat)
    ensures r > 0
  {
    if n == 0 then 1 else 2 * Pow2(n - 1)
  }

  lemma {:induction false} Pow2Sum(m: nat, n: nat)
    ensures Pow2(m + n) == Pow2(m) * Pow2(n)
  {
    if m > 0 {
      Pow2Sum(m - 1, n);
      assert Pow2(m + n) == 2 * (Pow2(m - 1) * Pow2(n));
    }
  }

  lemma Pow2Split(m: nat, n: nat)
    requires m <= n
    ensures Pow2(n) == Pow2(m) * Pow2(n - m)
    ensures Pow2(m) <= Pow2(n)
  {
    Pow2Sum(m, n - m);
    Below(1, Pow2(n - m), Pow2(m));
  }

  lemma Below(a: nat, b: nat, c: nat)
    requires a <= b
    ensures a * c <= b * c
  {
    assert (b - a) * c >= 0;
  }

  lemma MulSucc(a: int, c: int)
    ensures (a + 1) * c == a * c + c
  {
  }

  lemma Pow2Small()
    ensures Pow2(0) == 1 && Pow2(1) == 2 && Pow2(2) == 4 && Pow2(3) == 8 && Pow2(4) == 16
    ensures Pow2(5) == 32 && Pow2(6) == 64 && Pow2(7) == 128 && Pow2(8) == 256
  {
    assert Pow2(4) == 16;
  }

  lemma Pow2Fraction()
    ensures Pow2(52) == 0x10_0000_0000_0000 && Pow2(53) == 0x20_0000_0000_0000
    ensures Pow2(54) == 0x40_0000_0000_0000 && Pow2(55) == 0x80_0000_0000_0000
  {
    Pow2Small();
    hide Pow2;
    Pow2Sum(8, 5);
    Pow2Sum(13, 13);
    Pow2Sum(26, 26);
    Pow2Sum(52, 1);
    Pow2Sum(52, 2);
    Pow2Sum(52, 3);
  }

  lemma Pow2Words()
    ensures Pow2(0) == 1 && Pow2(1) == 2
    ensures Pow2(64) == Two64 && Pow2(128) == Two128 == Two64 * Two64
  {
    Pow2Small();
    hide Pow2;
    Pow2Sum(8, 8);
    Pow2Sum(16, 16);
    Pow2Sum(32, 32);
    Pow2Sum(64, 64);
  }

  /** The quotient and the remainder are the only pair that fits. */
  lemma DivModUnique(n: int, d: int, q: int, r: int)
    requires 0 < d && 0 <= r < d && n == q * d + r
    ensures n / d == q && n % d == r
  {
    var q1, r1 := n / d, n % d;
    assert n == q1 * d + r1;
    assert (q - q1) * d == r1 - r;
    if q > q1 {
      Below(1, q - q1, d);
    } else if q < q1 {
      Below(1, q1 - q, d);
    }
  }

  lemma ModShift(x: int, k: int, d: int)
    requires 0 < d
    ensures (x - k * d) % d == x % d
  {
    assert x - k * d == (x / d - k) * d + x % d;
    DivModUnique(x - k * d, d, x / d - k, x % d);
  }

  /** Dividing by a product is dividing twice. */
  lemma DivDiv(n: nat, a: nat, b: nat)
    requires a > 0 && b > 0
    ensures a * b > 0 && n / a / b == n / (a * b)
  {
    DivMod(n, a);
    DivMod(n / a, b);
    DivTwice(n, a, b, n / a, n % a, n / a / b, n / a % b);
  }

  lemma DivMod(n: int, d: int)
    requires 0 < d
    ensures n == n / d * d + n % d
  {
  }

  lemma DivTwice(n: nat, a: nat, b: nat, q: nat, r: nat, q2: nat, r2: nat)
    requires n == q * a + r && r < a && q == q2 * b + r2 && r2 < b
    ensures a * b > 0 && n / (a * b) == q2
  {
    Regroup(n, a, b, q2, r2, r);
    Below(r2 + 1, b, a);
    MulSucc(r2, a);
    DivModUnique(n, a * b, q2, r2 * a + r);
  }

  lemma Regroup(n: int, a: nat, b: nat, q: nat, r: nat, s: int)
    requires n == (q * b + r) * a + s
    ensures n == q * (a * b) + (r * a + s) && r * a >= 0
  {
  }

  // ----- C's operators

  function And(a: nat, b: nat): (r: nat)
    ensures r <= a && r <= b
  {
    if a == 0 then 0 else 2 * And(a / 2, b / 2) + (if a % 2 == 1 && b % 2 == 1 then 1 else 0)
  }

  function Or(a: nat, b: nat): nat
    decreases a + b
  {
    if a == 0 then b else 2 * Or(a / 2, b / 2) + (if a % 2 == 1 || b % 2 == 1 then 1 else 0)
  }

  /** The or of two words is a word. */
  function OrWord(a: Word, b: Word): (r: Word)
    ensures r == Or(a, b)
  {
    Pow2Words();
    OrBound(a, b, 64);
    Or(a, b)
  }

  lemma {:induction false} OrBound(a: nat, b: nat, n: nat)
    requires a < Pow2(n) && b < Pow2(n)
    ensures Or(a, b) < Pow2(n)
  {
    if a > 0 {
      OrBound(a / 2, b / 2, n - 1);
    }
  }

  function ShiftLeft(a: Word, n: nat): Word {
    a * Pow2(n) % Two64
  }

  function ShiftRight(a: Word, n: nat): (r: Word)
  {
    ShiftRightBound(a, n);
    a / Pow2(n)
  }

  lemma ShiftRightBound(a: Word, n: nat)
    ensures 0 <= a / Pow2(n) <= a
  {
    DivBelow(a, Pow2(n));
  }

  lemma DivBelow(a: nat, d: nat)
    requires d > 0
    ensures 0 <= a / d <= a
  {
    var q := a / d;
    assert a == d * q + a % d;
    Below(1, d, q);
  }

  /** Words that share no bits: `|` is addition. */
  lemma {:induction false} OrDisjoint(a: nat, b: nat, n: nat)
    requires a % Pow2(n) == 0 && b < Pow2(n)
    ensures Or(a, b) == a + b
  {
    if n == 0 {
      assert b == 0;
      OrZero(a);
    } else if a != 0 {
      var q := a / Pow2(n);
      assert a == q * Pow2(n) == 2 * (q * Pow2(n - 1));
      DivModUnique(a / 2, Pow2(n - 1), q, 0);
      OrDisjoint(a / 2, b / 2, n - 1);
    }
  }

  lemma {:induction false} OrZero(a: nat)
    ensures Or(a, 0) == a
  {
    if a > 0 {
      OrZero(a / 2);
    }
  }

  /** A mask of the low n bits keeps the remainder. */
  lemma {:induction false} AndMask(a: nat, n: nat)
    ensures And(a, Pow2(n) - 1) == a % Pow2(n)
  {
    if n == 0 {
      assert Pow2(n) - 1 == 0;
    } else {
      var h := Pow2(n - 1);
      AndMask(a / 2, n - 1);
      assert (Pow2(n) - 1) / 2 == h - 1;
      ModDouble(a, h);
    }
  }

  lemma ModDouble(a: nat, h: nat)
    requires h > 0
    ensures a % (2 * h) == 2 * (a / 2 % h) + a % 2
  {
    var q, r := a / 2 / h, a / 2 % h;
    assert a == 2 * (q * h + r) + a % 2 == q * (2 * h) + (2 * r + a % 2);
    DivModUnique(a, 2 * h, q, 2 * r + a % 2);
  }

  /** A mask of one bit tells whether the bit is set. */
  lemma {:induction false} AndBit(a: nat, n: nat)
    ensures And(a, Pow2(n)) == if a / Pow2(n) % 2 == 1 then Pow2(n) else 0
  {
    if n == 0 {
      assert Pow2(n) / 2 == 0;
      AndZero(a / 2);
    } else {
      var h := Pow2(n - 1);
      AndBit(a / 2, n - 1);
      DivDiv(a, 2, h);
      assert Pow2(n) == 2 * h && Pow2(n) / 2 == h && Pow2(n) % 2 == 0;
      assert a > 0 ==> And(a, Pow2(n)) == 2 * And(a / 2, h);
      if a == 0 {
        assert a / Pow2(n) == 0;
      }
    }
  }

  lemma {:induction false} AndZero(a: nat)
    ensures And(a, 0) == 0
  {
    if a > 0 {
      AndZero(a / 2);
    }
  }

  lemma OrOne(a: nat)
    ensures Or(a, 1) == if a % 2 == 1 then a else a + 1
  {
    if a > 0 {
      OrZero(a / 2);
    }
  }

  lemma AndOne(a: nat)
    ensures And(a, 1) == a % 2
  {
    AndMask(a, 1);
    assert Pow2(1) == 2;
  }
}
