/**
 * The two-word integers of the lexer. Every operation is written on the words as
 * the compiler has it, with 64-bit wrap-around, and is related to the number the
 * two words stand for.
 */
module LexInt {
  import opened WordArith

  datatype LexInt = LexInt(low: Word, high: Word)

  const Zero: LexInt := LexInt(0, 0)

  /** The number that the two words stand for. */
  function Val(a: LexInt): (r: nat)
    ensures r < Two128
  {
    assert a.high * Two64 <= (Two64 - 1) * Two64;
    a.high * Two64 + a.low
  }

  lemma ValInjective(a: LexInt, b: LexInt)
    requires Val(a) == Val(b)
    ensures a == b
  {
    DivModUnique(Val(a), Two64, a.high, a.low);
    DivModUnique(Val(b), Two64, b.high, b.low);
  }

  // ----- Comparison

  function Cmp(a: LexInt, b: LexInt): (r: int)
    ensures r < 0 <==> Val(a) < Val(b)
    ensures r > 0 <==> Val(a) > Val(b)
    ensures r == 0 <==> a == b
  {
    if a.high > b.high then 1
    else if a.high < b.high then -1
    else if a.low > b.low then 1
    else if a.low < b.low then -1
    else 0
  }

  function Cmp64(a: LexInt, b: Word): (r: int)
    ensures r < 0 <==> Val(a) < b
    ensures r > 0 <==> Val(a) > b
    ensures r == 0 <==> Val(a) == b
  {
    if a.high > 0 then 1
    else if a.low > b then 1
    else if a.low < b then -1
    else 0
  }

  // ----- Addition and subtraction

  /** A high word that wraps around drops multiples of the two-word size. */
  lemma Wrap(low: Word, h: int)
    ensures Val(LexInt(low, h % Two64)) == (h * Two64 + low) % Two128
  {
    var c, r := h / Two64, h % Two64;
    assert h * Two64 + low == c * Two128 + (r * Two64 + low);
    DivModUnique(h * Two64 + low, Two128, c, Val(LexInt(low, r)));
  }

  function Add(a: LexInt, b: LexInt): (r: LexInt)
    ensures Val(r) == (Val(a) + Val(b)) % Two128
  {
    SumWraps(a, b);
    var low := (a.low + b.low) % Two64;
    var high := a.high + b.high + (if low < a.low then 1 else 0);
    LexInt(low, high % Two64)
  }

  function Add64(a: LexInt, b: Word): (r: LexInt)
    ensures Val(r) == (Val(a) + b) % Two128
  {
    SumWraps(a, LexInt(b, 0));
    var low := (a.low + b) % Two64;
    var high := a.high + (if low < a.low then 1 else 0);
    LexInt(low, high % Two64)
  }

  function Sub(a: LexInt, b: LexInt): (r: LexInt)
    ensures Val(r) == (Val(a) - Val(b)) % Two128
  {
    DifferenceWraps(a, b);
    var low := (a.low - b.low) % Two64;
    var high := a.high - b.high - (if low > a.low then 1 else 0);
    LexInt(low, high % Two64)
  }

  function Sub64(a: LexInt, b: Word): (r: LexInt)
    ensures Val(r) == (Val(a) - b) % Two128
  {
    DifferenceWraps(a, LexInt(b, 0));
    var low := (a.low - b) % Two64;
    var high := a.high - (if low > a.low then 1 else 0);
    LexInt(low, high % Two64)
  }

  lemma SumWraps(a: LexInt, b: LexInt)
    ensures var low: Word := (a.low + b.low) % Two64;
            var high := a.high + b.high + (if low < a.low then 1 else 0);
            Val(LexInt(low, high % Two64)) == (Val(a) + Val(b)) % Two128
  {
    var low: Word := (a.low + b.low) % Two64;
    var high := a.high + b.high + (if low < a.low then 1 else 0);
    CarryOut(a.low, b.low);
    assert Val(a) + Val(b) == high * Two64 + low;
    hide Val;
    Wrap(low, high);
  }

  lemma DifferenceWraps(a: LexInt, b: LexInt)
    ensures var low: Word := (a.low - b.low) % Two64;
            var high := a.high - b.high - (if low > a.low then 1 else 0);
            Val(LexInt(low, high % Two64)) == (Val(a) - Val(b)) % Two128
  {
    var low: Word := (a.low - b.low) % Two64;
    var high := a.high - b.high - (if low > a.low then 1 else 0);
    CarryOut(a.low, b.low);
    assert Val(a) - Val(b) == high * Two64 + low;
    hide Val;
    Wrap(low, high);
  }

  /** Comparing the wrapped result with an operand finds the carry or the borrow. */
  lemma CarryOut(x: Word, y: Word)
    ensures var s := (x + y) % Two64; x + y == (if s < x then Two64 else 0) + s
    ensures var d := (x - y) % Two64; x - y == d - (if d > x then Two64 else 0)
  {
    if x + y < Two64 {
      DivModUnique(x + y, Two64, 0, x + y);
    } else {
      DivModUnique(x + y, Two64, 1, x + y - Two64);
    }
    if x >= y {
      DivModUnique(x - y, Two64, 0, x - y);
    } else {
      DivModUnique(x - y, Two64, -1, x - y + Two64);
    }
  }

  // ----- Shifts

  function Shl(a: LexInt, n: nat): LexInt {
    if n >= 128 then Zero
    else if n > 64 then LexInt(0, ShiftLeft(a.low, n - 64))
    else if n == 64 then LexInt(0, a.low)
    else if n > 0 then
      LexInt(ShiftLeft(a.low, n), (ShiftLeft(a.high, n) + ShiftRight(a.low, 64 - n)) % Two64)
    else a
  }

  function Shr(a: LexInt, n: nat): LexInt {
    if n >= 128 then Zero
    else if n > 64 then LexInt(ShiftRight(a.high, n - 64), 0)
    else if n == 64 then LexInt(a.high, 0)
    else if n > 0 then
      LexInt((ShiftLeft(a.high, 64 - n) + ShiftRight(a.low, n)) % Two64, ShiftRight(a.high, n))
    else a
  }

  /** A word times p, where p * q is the word size, as its carry and its low part. */
  lemma SplitProduct(x: Word, p: nat, q: nat)
    requires p > 0 && q > 0 && p * q == Two64
    ensures x * p / Two64 == x / q < p
    ensures x * p % Two64 == x % q * p <= Two64 - p
  {
    var c, r := x / q, x % q;
    assert x * p == (c * q + r) * p == c * (p * q) + r * p;
    Below(r, q - 1, p);
    assert (q - 1) * p == Two64 - p;
    DivModUnique(x * p, Two64, c, r * p);
    if c >= p {
      Below(p, c, q);
    }
  }

  lemma ShlValue(a: LexInt, n: nat)
    ensures Val(Shl(a, n)) == Val(a) * Pow2(n) % Two128
  {
    hide Pow2, Val, Shl;
    Pow2Words();
    if n >= 128 {
      Pow2Split(128, n);
      ShlOut(a, n, Pow2(n - 128));
    } else if n >= 64 {
      Pow2Split(64, n);
      ShlHigh(a, n, Pow2(n - 64));
    } else if n > 0 {
      Pow2Split(n, 64);
      ShlLow(a, n, Pow2(n), Pow2(64 - n));
    } else {
      assert Shl(a, 0) == a by { ShlNone(a); }
    }
  }

  lemma ShlNone(a: LexInt)
    ensures Shl(a, 0) == a
  {
  }

  lemma ShlOut(a: LexInt, n: nat, p: nat)
    requires n >= 128
    ensures Val(Shl(a, n)) == Val(a) * (Two128 * p) % Two128
  {
    assert Val(a) * (Two128 * p) == Val(a) * p * Two128;
    MultipleMod(Val(a) * p, Two128);
  }

  lemma MultipleMod(k: int, d: nat)
    requires d > 0
    ensures k * d % d == 0
  {
    DivModUnique(k * d, d, k, 0);
  }

  lemma ShlHigh(a: LexInt, n: nat, p: nat)
    requires 64 <= n < 128 && p == Pow2(n - 64)
    ensures Val(Shl(a, n)) == Val(a) * (Two64 * p) % Two128
  {
    hide Pow2;
    Pow2Words();
    var c, r := a.low * p / Two64, a.low * p % Two64;
    assert Shl(a, n) == LexInt(0, r);
    assert Val(a) * (Two64 * p) == (a.high * p + c) * Two128 + r * Two64 by {
      assert Val(a) * (Two64 * p) == a.high * p * Two128 + a.low * p * Two64;
      assert a.low * p * Two64 == c * Two128 + r * Two64;
    }
    DivModUnique(Val(a) * (Two64 * p), Two128, a.high * p + c, r * Two64);
  }

  lemma ShlLow(a: LexInt, n: nat, p: nat, q: nat)
    requires 0 < n < 64 && p == Pow2(n) && q == Pow2(64 - n) && p * q == Two64
    ensures Val(Shl(a, n)) == Val(a) * p % Two128
  {
    hide Pow2;
    SplitProduct(a.low, p, q);
    SplitProduct(a.high, p, q);
    var c, r := a.high * p / Two64, a.high * p % Two64;
    var c1, r1 := a.low * p / Two64, a.low * p % Two64;
    assert Shl(a, n) == LexInt(r1, r + c1);
    assert Val(a) * p == c * Two128 + ((r + c1) * Two64 + r1) by {
      assert Val(a) * p == a.high * p * Two64 + a.low * p;
    }
    DivModUnique(Val(a) * p, Two128, c, (r + c1) * Two64 + r1);
  }

  lemma ShrValue(a: LexInt, n: nat)
    ensures Val(Shr(a, n)) == Val(a) / Pow2(n)
  {
    hide Pow2;
    Pow2Words();
    if n >= 128 {
      Pow2Split(128, n);
      DivModUnique(Val(a), Pow2(n), 0, Val(a));
    } else if n >= 64 {
      Pow2Split(64, n);
      DivModUnique(Val(a), Two64, a.high, a.low);
      DivDiv(Val(a), Two64, Pow2(n - 64));
    } else if n > 0 {
      Pow2Split(n, 64);
      ShrLow(a, n, Pow2(n), Pow2(64 - n));
    }
  }

  lemma ShrLow(a: LexInt, n: nat, p: nat, q: nat)
    requires 0 < n < 64 && p == Pow2(n) && q == Pow2(64 - n) && p * q == Two64
    ensures Val(Shr(a, n)) == Val(a) / p
  {
    hide Pow2;
    SplitProduct(a.high, q, p);
    SplitProduct(a.low, q, p);
    var x := a.high * q;
    assert Shr(a, n) == LexInt(x % Two64 + a.low / p, x / Two64);
    assert Val(Shr(a, n)) == x + a.low / p;
    ShrQuotient(a.high, a.low, p, q);
  }

  lemma ShrQuotient(h: nat, l: nat, p: nat, q: nat)
    requires p > 0 && p * q == Two64
    ensures (h * Two64 + l) / p == h * q + l / p
  {
    assert h * Two64 == h * q * p;
    assert l == l / p * p + l % p;
    DivModUnique(h * Two64 + l, p, h * q + l / p, l % p);
  }

  // ----- Single bits

  function SetBit(a: LexInt, n: nat): (r: LexInt)
    requires n < 128
  {
    if n >= 64 then a.(high := OrWord(a.high, ShiftLeft(1, n - 64)))
    else a.(low := OrWord(a.low, ShiftLeft(1, n)))
  }

  /** Setting a bit below every set bit adds its weight. */
  lemma SetBitValue(a: LexInt, n: nat)
    requires n < 128 && Val(a) % Pow2(n + 1) == 0
    ensures Val(SetBit(a, n)) == Val(a) + Pow2(n)
  {
    hide Pow2, Or;
    Pow2Words();
    var q := Val(a) / Pow2(n + 1);
    assert Val(a) == q * Pow2(n + 1);
    Pow2Step(n);
    if n >= 64 {
      Pow2Split(64, n + 1);
      Pow2Split(64, n);
      SetBitWord(n - 64);
      assert Val(a) == q * Pow2(n + 1 - 64) * Two64 by {
        assert q * (Two64 * Pow2(n + 1 - 64)) == q * Pow2(n + 1 - 64) * Two64;
      }
      DivModUnique(Val(a), Two64, q * Pow2(n + 1 - 64), 0);
      DivModUnique(Val(a), Two64, a.high, a.low);
      MultipleMod(q, Pow2(n + 1 - 64));
      Pow2Step(n - 64);
      OrDisjoint(a.high, Pow2(n - 64), n + 1 - 64);
    } else {
      Pow2Split(n + 1, 64);
      SetBitWord(n);
      var k := q - a.high * Pow2(63 - n);
      assert a.low == k * Pow2(n + 1) by {
        assert a.high * Two64 == a.high * Pow2(63 - n) * Pow2(n + 1);
      }
      MultipleMod(k, Pow2(n + 1));
      OrDisjoint(a.low, Pow2(n), n + 1);
    }
  }

  lemma Pow2Step(n: nat)
    ensures Pow2(n + 1) == 2 * Pow2(n)
  {
  }

  lemma SetBitWord(n: nat)
    requires n < 64
    ensures ShiftLeft(1, n) == Pow2(n)
  {
    hide Pow2;
    Pow2Words();
    Pow2Step(n);
    Pow2Split(n + 1, 64);
  }

  // ----- Multiplication and division

  /** Shift and add: the product, modulo two words. */
  method Mul64(a: LexInt, b: Word) returns (r: LexInt)
    ensures Val(r) == Val(a) * b % Two128
  {
    hide Val;
    var t, n := a, b;
    r := Zero;
    assert Val(r) == 0 by { ValZero(); }
    while n > 0
      invariant (Val(r) + Val(t) * n) % Two128 == Val(a) * b % Two128
    {
      ghost var r0, t0, n0 := Val(r), Val(t), n;
      AndOne(n);
      if And(n, 1) != 0 {
        r := Add(r, t);
      }
      ShlValue(t, 1);
      Pow2Words();
      t := Shl(t, 1);
      n := ShiftRight(n, 1);
      MulStep(r0, t0, n0, Val(r), Val(t));
    }
  }

  lemma ValZero()
    ensures Val(Zero) == 0
  {
  }

  lemma MulStep(r: nat, t: nat, n: nat, r1: nat, t1: nat)
    requires r1 == (if n % 2 == 1 then (r + t) % Two128 else r)
    requires t1 == t * 2 % Two128
    ensures (r1 + t1 * (n / 2)) % Two128 == (r + t * n) % Two128
  {
    MulStepExact(r, t, n % 2, n / 2, if n % 2 == 1 then (r + t) / Two128 else 0, t * 2 / Two128, Two128);
  }

  lemma MulStepExact(r: int, t: int, bit: int, m: int, k1: int, k2: int, d: int)
    requires d > 0
    ensures (r + t * bit - k1 * d + (t * 2 - k2 * d) * m) % d == (r + t * (2 * m + bit)) % d
  {
    var x := r + t * (2 * m + bit);
    assert (t * 2 - k2 * d) * m == t * 2 * m - k2 * m * d;
    assert r + t * bit - k1 * d + (t * 2 - k2 * d) * m == x - (k1 + k2 * m) * d;
    ModShift(x, k1 + k2 * m, d);
  }

  /** Shift and subtract: the quotient, rounded down; zero for a zero divisor. */
  method Div64(a: LexInt, b: Word) returns (ret: LexInt)
    ensures Val(ret) == if b == 0 then 0 else Val(a) / b
  {
    hide Val, Pow2, Shl, Shr, SetBit;
    ret := Zero;
    ValZero();
    if b == 0 {
      return;
    }
    if b == 1 {
      return a;
    }
    var r := Zero;
    var i := 127;
    ghost var q, left := 0, 128;
    Pow2Words();
    while i < 255
      invariant (0 <= i <= 127 && left == i + 1) || (i == 255 && left == 0)
      invariant Val(r) < b && Val(ret) == q * Pow2(left)
      invariant Val(a) / Pow2(left) == q * b + Val(r)
      decreases left
    {
      ghost var r0 := Val(r);
      Pow2Step(i);
      DoubleRemainder(a, r, i);
      r := Shl(r, 1);
      var t := Shr(a, i);
      r := r.(low := OrWord(r.low, And(t.low, 1)));
      assert Val(a) / Pow2(i) == 2 * q * b + Val(r) && Val(ret) == 2 * q * Pow2(i) by {
        NextBit(Val(a), Pow2(i), q, b, r0);
      }
      if Cmp64(r, b) >= 0 {
        SetLowest(ret, i, q);
        TakeOne(r, b, 2 * q);
        r := Sub64(r, b);
        ret := SetBit(ret, i);
        q := 2 * q + 1;
      } else {
        q := 2 * q;
      }
      i := (i - 1) % 256;
      left := left - 1;
    }
    QuotientDone(Val(a), b, q, Val(r));
  }

  lemma DoubleRemainder(a: LexInt, r: LexInt, i: nat)
    requires Val(r) < Two64
    ensures var s := Shl(r, 1);
            Val(s.(low := OrWord(s.low, And(Shr(a, i).low, 1)))) == 2 * Val(r) + Val(a) / Pow2(i) % 2
  {
    hide Pow2, Shl, Shr, Val;
    var s, t := Shl(r, 1), Shr(a, i);
    assert Val(s) == 2 * Val(r) by {
      ShlValue(r, 1);
      Pow2Words();
      DivModUnique(2 * Val(r), Two128, 0, 2 * Val(r));
    }
    ShrValue(a, i);
    AndOne(t.low);
    LowBit(t);
    Parity(Val(r), 0);
    FillBit(s, And(t.low, 1));
  }

  lemma LowBit(a: LexInt)
    ensures a.low % 2 == Val(a) % 2
  {
    Parity(a.high * (Two64 / 2), a.low);
    assert Val(a) == 2 * (a.high * (Two64 / 2)) + a.low;
  }

  lemma Parity(k: int, x: int)
    ensures (2 * k + x) % 2 == x % 2
  {
  }

  /** Filling in the lowest bit of an even number. */
  lemma FillBit(s: LexInt, bit: Word)
    requires Val(s) % 2 == 0 && bit < 2
    ensures Val(s.(low := OrWord(s.low, bit))) == Val(s) + bit
  {
    LowBit(s);
    if bit == 1 {
      OrOne(s.low);
    } else {
      OrZero(s.low);
    }
  }

  lemma TakeOne(r: LexInt, b: Word, q: nat)
    requires Val(r) >= b
    ensures Val(Sub64(r, b)) == Val(r) - b
    ensures q * b + Val(r) == (q + 1) * b + (Val(r) - b)
  {
    hide Val;
    DivModUnique(Val(r) - b, Two128, 0, Val(r) - b);
  }

  lemma NextBit(a: nat, p: nat, q: nat, b: nat, r: nat)
    requires p > 0 && a / (2 * p) == q * b + r
    ensures a / p == 2 * q * b + (2 * r + a / p % 2)
    ensures q * (2 * p) == 2 * q * p
  {
    DivDiv(a, p, 2);
    assert 2 * (q * b) == 2 * q * b;
  }

  lemma SetLowest(a: LexInt, n: nat, q: nat)
    requires n < 128 && Val(a) == 2 * q * Pow2(n)
    ensures Val(SetBit(a, n)) == (2 * q + 1) * Pow2(n)
  {
    hide Val, Pow2, SetBit;
    Pow2Step(n);
    assert Val(a) == q * Pow2(n + 1);
    MultipleMod(q, Pow2(n + 1));
    SetBitValue(a, n);
  }

  lemma QuotientDone(a: nat, b: nat, q: nat, r: nat)
    requires r < b && a / Pow2(0) == q * b + r
    ensures q * Pow2(0) == a / b
  {
    DivModUnique(a, b, q, r);
  }

  // ----- Accumulating characters

  function AppendChar(a: LexInt, c: nat): LexInt
    requires c < 256
  {
    LexInt(OrWord(ShiftLeft(a.low, 8), c), OrWord(ShiftLeft(a.high, 8), ShiftRight(a.low, 56)))
  }

  /** Appending a byte multiplies by 256 and adds, modulo two words. */
  lemma AppendCharValue(a: LexInt, c: nat)
    requires c < 256
    ensures Val(AppendChar(a, c)) == (Val(a) * 256 + c) % Two128
  {
    hide Pow2, Or;
    Pow2Words();
    Pow2Small();
    Pow2Split(8, 64);
    SplitProduct(a.low, 256, Pow2(56));
    SplitProduct(a.high, 256, Pow2(56));
    MultipleMod(a.low % Pow2(56), 256);
    MultipleMod(a.high % Pow2(56), 256);
    OrDisjoint(ShiftLeft(a.low, 8), c, 8);
    OrDisjoint(ShiftLeft(a.high, 8), ShiftRight(a.low, 56), 8);
    ShlLow(a, 8, 256, Pow2(56));
    assert Val(AppendChar(a, c)) == Val(Shl(a, 8)) + c;
    AddBelow(Val(a) * 256, c);
  }

  lemma AddBelow(x: nat, c: nat)
    requires c < 256 && x % 256 == 0
    ensures (x + c) % Two128 == x % Two128 + c
  {
    var q, r := x / Two128, x % Two128;
    ModShift(x, q * (Two128 / 256), 256);
    assert r % 256 == 0;
    DivModUnique(x + c, Two128, q, r + c);
  }

  // ----- Accumulating digits

  /**
   * Appends a digit to a number unless the result would not fit. The overflow
   * tests on wrapped results are exact for every base and every digit of it.
   */
  method Accum(a: LexInt, digit: Word, base: Word) returns (ok: bool, r: LexInt)
    requires digit < base
    ensures ok <==> Val(a) * base + digit < Two128
    ensures Val(r) == if ok then Val(a) * base + digit else Val(a)
    ensures !ok ==> r == a
  {
    hide Val;
    var v2 := Mul64(a, base);
    var v3 := Div64(v2, base);
    assert Val(v3) == Val(a) <==> Val(a) * base < Two128 by {
      ProductFits(Val(a), base);
    }
    if Cmp(v3, a) != 0 {
      if Val(v3) == Val(a) {
        ValInjective(v3, a);
      }
      return false, a;
    }
    SumFits(Val(a), base, digit);
    v2 := Add64(v2, digit);
    if Cmp(v2, a) < 0 {
      return false, a;
    }
    return true, v2;
  }

  /** A product that lost its top does not divide back. */
  lemma ProductFits(a: nat, base: nat)
    requires base > 0
    ensures a * base % Two128 / base == a <==> a * base < Two128
  {
    var m := a * base % Two128;
    if a * base < Two128 {
      DivModUnique(a * base, Two128, 0, a * base);
      DivModUnique(a * base, base, a, 0);
    } else {
      assert m / base * base <= m < a * base;
    }
  }

  /** A sum that wraps around falls below the number it started from. */
  lemma SumFits(a: nat, base: nat, digit: nat)
    requires digit < base < Two64 && a * base < Two128
    ensures (a * base % Two128 + digit) % Two128 < a <==> a * base + digit >= Two128
    ensures a * base + digit < Two128 ==> (a * base % Two128 + digit) % Two128 == a * base + digit
  {
    var v := a * base + digit;
    DivModUnique(a * base, Two128, 0, a * base);
    if v < Two128 {
      DivModUnique(v, Two128, 0, v);
      Below(1, base, a);
    } else {
      DivModUnique(v, Two128, 1, v - Two128);
      assert a >= Two64 by {
        if a < Two64 {
          ProductBelow(a, base);
        }
      }
    }
  }

  lemma ProductBelow(a: nat, b: nat)
    requires a < Two64 && b < Two64
    ensures a * b <= (Two64 - 1) * (Two64 - 1)
  {
    Below(a, Two64 - 1, b);
  }

  // ----- Leading zeros

  method CountLeadingZeros(x: Word) returns (count: nat)
    ensures count <= 64
    ensures x == 0 <==> count == 64
    ensures x > 0 ==> Pow2(63 - count) <= x < Pow2(64 - count)
  {
    if x == 0 {
      return 64;
    }
    hide Moved, Pow2;
    NothingMoved(x);
    var n;
    n, count := SkipZeros(x, 0, 32, x);
    n, count := SkipZeros(n, count, 16, x);
    n, count := SkipZeros(n, count, 8, x);
    n, count := SkipZeros(n, count, 4, x);
    n, count := SkipZeros(n, count, 2, x);
    n, count := SkipZeros(n, count, 1, x);
    TopBit(x, n, count);
  }

  /** One line of the count: if the top k bits are clear, moves up by k. */
  method SkipZeros(n: Word, count: nat, k: nat, ghost x: Word) returns (n1: Word, count1: nat)
    requires 1 <= k <= 32 && Moved(x, n, count, 2 * k)
    ensures Moved(x, n1, count1, k)
  {
    HalveZeros(x, n, count, k);
    hide Moved, Pow2;
    n1, count1 := n, count;
    if ShiftRight(n, 64 - k) == 0 {
      count1 := count + k;
      n1 := ShiftLeft(n, k);
    }
  }

  /** n is x moved up by count places, and fewer than k more places remain empty. */
  predicate Moved(x: Word, n: Word, count: nat, k: nat)
    requires k <= 64
  {
    count + k <= 64 && n == x * Pow2(count) && n >= Pow2(64 - k)
  }

  lemma NothingMoved(x: Word)
    requires x > 0
    ensures Moved(x, x, 0, 64)
  {
  }

  lemma HalveZeros(x: Word, n: Word, count: nat, k: nat)
    requires 1 <= k <= 32 && Moved(x, n, count, 2 * k)
    ensures ShiftRight(n, 64 - k) == 0 ==> Moved(x, ShiftLeft(n, k), count + k, k)
    ensures ShiftRight(n, 64 - k) != 0 ==> Moved(x, n, count, k)
  {
    hide Moved, Pow2, ShiftLeft;
    if n < Pow2(64 - k) {
      ZerosMoved(x, n, count, k);
      DivModUnique(n, Pow2(64 - k), 0, n);
    } else {
      assert Moved(x, n, count, k) by { AlreadyMoved(x, n, count, k); }
      DivMod(n, Pow2(64 - k));
    }
  }

  lemma AlreadyMoved(x: Word, n: Word, count: nat, k: nat)
    requires 1 <= k <= 32 && Moved(x, n, count, 2 * k) && n >= Pow2(64 - k)
    ensures Moved(x, n, count, k)
  {
    hide Pow2;
  }

  lemma ZerosMoved(x: Word, n: Word, count: nat, k: nat)
    requires 1 <= k <= 32 && Moved(x, n, count, 2 * k) && n < Pow2(64 - k)
    ensures Moved(x, ShiftLeft(n, k), count + k, k)
  {
    hide Pow2;
    var p, q := Pow2(k), Pow2(64 - k);
    assert n * p < Two64 by {
      Pow2Words();
      Pow2Split(k, 64);
      Below(n + 1, q, p);
      MulSucc(n, p);
    }
    assert ShiftLeft(n, k) == n * p by { DivModUnique(n * p, Two64, 0, n * p); }
    assert x * Pow2(count + k) == n * p by {
      Pow2Sum(count, k);
      Associates(x, Pow2(count), p);
    }
    assert n * p >= q by {
      Pow2Sum(64 - 2 * k, k);
      Below(Pow2(64 - 2 * k), n, p);
    }
  }

  lemma Associates(x: int, y: int, z: int)
    ensures x * (y * z) == x * y * z
  {
  }

  lemma TopBit(x: Word, n: Word, count: nat)
    requires Moved(x, n, count, 1)
    ensures count < 64 && Pow2(63 - count) <= x < Pow2(64 - count)
  {
    hide Pow2;
    Pow2Words();
    Pow2Sum(count, 63 - count);
    Pow2Sum(count, 64 - count);
    if x < Pow2(63 - count) {
      Below(x, Pow2(63 - count) - 1, Pow2(count));
    } else if x >= Pow2(64 - count) {
      Below(Pow2(64 - count), x, Pow2(count));
    }
  }
}
