/**
 * Conversion of a two-word integer to binary64. The result is the bit pattern; what
 * is proved is that no finite binary64 number is nearer, and that the one with an
 * even last digit is taken from two that are equally near.
 */
module LexDouble {
  import opened WordArith
  import opened LexInt

  // ----- Bit patterns (section 3.4 of IEEE 754-2019)

  const Two52: nat := 0x10_0000_0000_0000

  function Fraction(bits: Word): (r: nat)
    ensures r < Two52
  {
    bits % Two52
  }

  function Exponent(bits: Word): (r: nat)
    ensures r < 2048
  {
    bits / Two52 % 2048
  }

  predicate Negative(bits: Word) {
    bits / Two52 / 2048 == 1
  }

  predicate Finite(bits: Word) {
    Exponent(bits) != 2047
  }

  /** The absolute value of a finite number, in units of the least positive one, 2^-1074. */
  function Magnitude(bits: Word): nat {
    if Exponent(bits) == 0 then Fraction(bits)
    else (Two52 + Fraction(bits)) * Pow2(Exponent(bits) - 1)
  }

  function Units(bits: Word): int {
    if Negative(bits) then 0 - Magnitude(bits) else Magnitude(bits)
  }

  function Distance(x: int, y: int): nat {
    if x < y then y - x else x - y
  }

  /** Rounding to nearest, ties to even (section 4.3.1 of IEEE 754-2019), of an integer v. */
  ghost predicate NearestEven(v: nat, bits: Word) {
    Finite(bits) &&
    forall x: Word :: Finite(x) && Units(x) != Units(bits) ==>
      var exact := v * Pow2(1074);
      Distance(Units(bits), exact) <= Distance(Units(x), exact) &&
      (Distance(Units(bits), exact) == Distance(Units(x), exact) ==> Fraction(bits) % 2 == 0)
  }

  // ----- The conversion

  method Double(i: LexInt) returns (bits: Word)
    ensures NearestEven(Val(i), bits)
    ensures !Negative(bits)
  {
    hide Pow2, Val, And, Or, ShiftLeft, ShiftRight, NearestEven, HalfEven, Assemble, Sticky, Rounded;
    if i.low == 0 && i.high == 0 {
      ZeroNearest(i);
      return 0;
    }
    var sigBits := SignificantBits(i);
    var exponent := sigBits - 1;
    var mantissa := i.low;
    if sigBits <= 53 {
      ExactMantissa(i, sigBits);
      mantissa := ShiftLeft(mantissa, 53 - sigBits);
      AssembleValue(exponent, mantissa);
      ExactNearest(Val(i), sigBits, mantissa, Assemble(exponent, mantissa));
    } else {
      mantissa := FiftyFiveBits(i, sigBits);
      ghost var wide := mantissa;
      RoundsWide(Val(i), sigBits, wide);
      RoundedBits(wide);
      if And(mantissa, 4) != 0 {
        mantissa := OrWord(mantissa, 1);
      }
      mantissa := ShiftRight((mantissa + 1) % Two64, 2);
      assert mantissa == Rounded(wide);
      CarryBit(mantissa);
      if And(mantissa, ShiftLeft(1, 53)) != 0 {
        mantissa := ShiftRight(mantissa, 1);
        exponent := exponent + 1;
      }
      AssembleRounded(sigBits, Rounded(wide), exponent, mantissa);
      RoundedNearest(Val(i), sigBits, Rounded(wide), Assemble(exponent, mantissa));
    }
    bits := Assemble(exponent, mantissa);
  }

  /** The number of digits in the binary form of a number other than zero. */
  method SignificantBits(i: LexInt) returns (n: nat)
    requires i != Zero
    ensures 1 <= n <= 128 && Pow2(n - 1) <= Val(i) < Pow2(n)
  {
    hide Pow2;
    Pow2Words();
    Pow2Fraction();
    var zeros := CountLeadingZeros(i.high);
    n := 128 - zeros;
    if i.high == 0 {
      zeros := CountLeadingZeros(i.low);
      n := 64 - zeros;
    } else {
      Pow2Sum(63 - zeros, 64);
      Pow2Sum(64 - zeros, 64);
      Below(Pow2(63 - zeros), i.high, Two64);
      Below(i.high, Pow2(64 - zeros) - 1, Two64);
    }
  }

  /** The top 55 bits, the last of them set when a bit below is lost. */
  method FiftyFiveBits(i: LexInt, sigBits: nat) returns (mantissa: Word)
    requires 54 <= sigBits <= 128 && Pow2(sigBits - 1) <= Val(i) < Pow2(sigBits)
    ensures mantissa < Pow2(55)
    ensures mantissa == if sigBits == 54 then 2 * Val(i) else Sticky(Val(i), Pow2(sigBits - 55))
  {
    hide Pow2, Shl, Shr, Or, Val;
    mantissa := i.low;
    Pow2Words();
    Pow2Fraction();
    if sigBits == 54 {
      SmallValue(i);
      mantissa := ShiftLeft(mantissa, 1);
    } else if sigBits > 55 {
      TopBits(i, sigBits);
      var t := Shr(i, sigBits - 55);
      mantissa := t.low;
      t := Shl(t, sigBits - 55);
      if Cmp(t, i) != 0 {
        OrOne(mantissa);
        mantissa := OrWord(mantissa, 1);
      }
    } else {
      SmallValue(i);
    }
  }

  /** Puts the exponent and the mantissa without its leading digit together. */
  function Assemble(exponent: nat, mantissa: Word): Word
  {
    AndMaskWord(mantissa);
    OrWord(ShiftLeft((exponent + 1023) % Two64, 52), And(mantissa, 0xF_FFFF_FFFF_FFFF))
  }

  lemma AndMaskWord(mantissa: Word)
    ensures And(mantissa, 0xF_FFFF_FFFF_FFFF) == mantissa % Two52
  {
    hide Pow2, And;
    Pow2Words();
    Pow2Fraction();
    AndMask(mantissa, 52);
  }

  lemma AssembleValue(exponent: nat, mantissa: Word)
    requires exponent <= 128 && Two52 <= mantissa < 2 * Two52
    ensures var bits := Assemble(exponent, mantissa);
            Finite(bits) && !Negative(bits) &&
            Units(bits) == mantissa * Pow2(exponent + 1022) &&
            Fraction(bits) == mantissa - Two52
  {
    hide Pow2, And, Or;
    Pow2Words();
    Pow2Fraction();
    AndMaskWord(mantissa);
    var e, f := exponent + 1023, mantissa - Two52;
    var bits := Assemble(exponent, mantissa);
    assert ShiftLeft(e, 52) == e * Two52;
    MultipleMod(e, Two52);
    OrDisjoint(e * Two52, f, 52);
    assert bits == e * Two52 + f;
    DivModUnique(bits, Two52, e, f);
  }

  // ----- Numbers that fit

  lemma ZeroNearest(i: LexInt)
    requires i == Zero
    ensures NearestEven(Val(i), 0) && !Negative(0)
  {
    hide Pow2;
  }

  lemma SmallValue(i: LexInt)
    requires Val(i) < Two64
    ensures i.low == Val(i)
  {
  }

  lemma ExactMantissa(i: LexInt, n: nat)
    requires 1 <= n <= 53 && Pow2(n - 1) <= Val(i) < Pow2(n)
    ensures var m := ShiftLeft(i.low, 53 - n);
            Two52 <= m < 2 * Two52 && m == Val(i) * Pow2(53 - n)
  {
    hide Pow2;
    Pow2Words();
    Pow2Fraction();
    Pow2Split(n, 53);
    SmallValue(i);
    Pow2Split(n - 1, 52);
    var m := Val(i) * Pow2(53 - n);
    Below(Pow2(n - 1), Val(i), Pow2(53 - n));
    Below(Val(i), Pow2(n) - 1, Pow2(53 - n));
    assert (Pow2(n) - 1) * Pow2(53 - n) < 2 * Two52;
    DivModUnique(m, Two64, 0, m);
  }

  lemma ExactNearest(v: nat, n: nat, mantissa: nat, bits: Word)
    requires 1 <= n <= 53 && mantissa == v * Pow2(53 - n)
    requires Finite(bits) && Units(bits) == mantissa * Pow2(n - 1 + 1022)
    ensures NearestEven(v, bits)
  {
    hide Pow2, Units;
    Pow2Sum(53 - n, n - 1 + 1022);
    assert Units(bits) == v * (Pow2(53 - n) * Pow2(n - 1 + 1022)) == v * Pow2(1074);
  }

  // ----- Numbers that must be rounded

  /** n / t, with a nonzero remainder recorded in the last bit. */
  function Sticky(n: nat, t: nat): nat
    requires t > 0
  {
    if n % t != 0 && n / t % 2 == 0 then n / t + 1 else n / t
  }

  /** What the code does with the two extra bits of a 55-bit mantissa. */
  function Rounded(m: nat): nat {
    ((if m / 4 % 2 == 1 && m % 2 == 0 then m + 1 else m) + 1) / 4
  }

  /** k is v / u rounded to the nearest whole number, ties to even. */
  predicate HalfEven(v: nat, u: nat, k: nat) {
    2 * Distance(k * u, v) <= u &&
    (2 * Distance(k * u, v) == u ==> k % 2 == 0)
  }

  lemma TopBits(i: LexInt, n: nat)
    requires 56 <= n <= 128 && Pow2(n - 1) <= Val(i) < Pow2(n)
    ensures Shr(i, n - 55).low == Val(i) / Pow2(n - 55) < Pow2(55) < Two64
    ensures Shl(Shr(i, n - 55), n - 55) == i <==> Val(i) % Pow2(n - 55) == 0
  {
    hide Pow2, Shl, Shr, Val;
    Pow2Words();
    Pow2Fraction();
    var t := Pow2(n - 55);
    var top := Shr(i, n - 55);
    ShrValue(i, n - 55);
    Pow2Sum(55, n - 55);
    var q := Val(i) / t;
    QuotientBelow(Val(i), t, Pow2(55));
    SmallValue(top);
    var back := Shl(top, n - 55);
    assert Val(back) == q * t by {
      ShlValue(top, n - 55);
      DivModUnique(q * t, Two128, 0, q * t);
    }
    if Val(back) == Val(i) {
      ValInjective(back, i);
    }
  }

  lemma QuotientBelow(v: nat, t: nat, b: nat)
    requires t > 0 && v < b * t
    ensures v / t < b
    ensures v / t * t <= v
    ensures v % t == 0 <==> v / t * t == v
  {
    if v / t >= b {
      Below(b, v / t, t);
    }
  }

  /** The code's bit operations on the 55-bit mantissa. */
  lemma RoundedBits(m: Word)
    requires m < Pow2(55)
    ensures var w := if And(m, 4) != 0 then OrWord(m, 1) else m;
            ShiftRight((w + 1) % Two64, 2) == Rounded(m)
  {
    hide Pow2, And, Or;
    Pow2Words();
    Pow2Small();
    Pow2Fraction();
    AndBit(m, 2);
    OrOne(m);
  }

  lemma CarryBit(k: Word)
    requires k <= 2 * Two52
    ensures And(k, ShiftLeft(1, 53)) != 0 <==> k == 2 * Two52
    ensures ShiftRight(2 * Two52, 1) == Two52
  {
    hide Pow2, And;
    Pow2Words();
    Pow2Fraction();
    AndBit(k, 53);
  }

  lemma StickyRounds(n: nat, t: nat)
    requires t > 0
    ensures HalfEven(n, 4 * t, Rounded(Sticky(n, t)))
  {
    RoundedSticky(n, t);
    hide Rounded, Sticky, HalfEven;
    assert n == n / t * t + n % t;
    QuartersRound(n, t, n / t, n % t, Rounded(Sticky(n, t)));
  }

  lemma QuartersRound(n: nat, t: nat, q: nat, rest: nat, r: nat)
    requires n == q * t + rest && rest < t
    requires r == if q % 4 == 3 || (q % 4 == 2 && (rest != 0 || q / 4 % 2 == 1)) then q / 4 + 1 else q / 4
    ensures HalfEven(n, 4 * t, r)
  {
    hide HalfEven;
    var k, j := q / 4, q % 4;
    assert q == 4 * k + j;
    SplitQuarters(n, t, k, j, rest);
    TwoBits(j, t, rest);
    HalfEvenFrom(n, 4 * t, k, j * t + rest, r);
  }

  lemma SplitQuarters(n: nat, t: nat, k: nat, j: nat, rest: nat)
    requires n == (4 * k + j) * t + rest
    ensures n == k * (4 * t) + (j * t + rest)
  {
  }

  lemma HalfEvenFrom(n: nat, u: nat, k: nat, x: nat, r: nat)
    requires n == k * u + x && x < u
    requires if 2 * x < u || (2 * x == u && k % 2 == 0) then r == k else r == k + 1
    ensures HalfEven(n, u, r)
  {
    assert (k + 1) * u == k * u + u;
  }

  lemma TwoBits(j: nat, t: nat, rest: nat)
    requires j < 4 && rest < t
    ensures j < 2 ==> 2 * (j * t + rest) < 4 * t
    ensures j == 2 ==> 2 * (j * t + rest) == 4 * t + 2 * rest
    ensures j == 3 ==> 6 * t <= 2 * (j * t + rest)
    ensures j * t + rest < 4 * t
  {
  }

  lemma RoundedSticky(n: nat, t: nat)
    requires t > 0
    ensures var q, rest := n / t, n % t;
            var up := q % 4 == 3 || (q % 4 == 2 && (rest != 0 || q / 4 % 2 == 1));
            Rounded(Sticky(n, t)) == if up then q / 4 + 1 else q / 4
  {
  }

  lemma RoundsWide(v: nat, n: nat, wide: nat)
    requires 54 <= n <= 128 && Pow2(n - 1) <= v < Pow2(n)
    requires wide == if n == 54 then 2 * v else Sticky(v, Pow2(n - 55))
    ensures HalfEven(v, Pow2(n - 53), Rounded(wide))
    ensures Two52 <= Rounded(wide) <= 2 * Two52
  {
    hide Pow2, Sticky, Rounded;
    Pow2Words();
    Pow2Small();
    Pow2Fraction();
    var u, k := Pow2(n - 53), Rounded(wide);
    if n == 54 {
      assert wide == Sticky(2 * v, 1) by { StickyExact(2 * v); }
      StickyRounds(2 * v, 1);
    } else {
      Pow2Sum(2, n - 55);
      StickyRounds(v, Pow2(n - 55));
    }
    Pow2Sum(52, n - 53);
    Pow2Sum(53, n - 53);
    HalfEvenBounds(v, u, k, Two52);
  }

  lemma StickyExact(n: nat)
    ensures Sticky(n, 1) == n
  {
  }

  lemma HalfEvenBounds(v: nat, u: nat, k: nat, b: nat)
    requires u > 0 && HalfEven(v, u, k) && b * u <= v <= 2 * b * u
    ensures b <= k <= 2 * b
  {
    MulSucc(k, u);
    MulSucc(2 * b, u);
    if k < b {
      Below(k + 1, b, u);
    } else if k > 2 * b {
      Below(2 * b + 1, k, u);
    }
  }

  /** A carry out of the mantissa moves into the exponent. */
  lemma AssembleRounded(n: nat, k: nat, exponent: nat, mantissa: Word)
    requires 54 <= n <= 128 && Two52 <= k <= 2 * Two52
    requires if k == 2 * Two52 then exponent == n && mantissa == Two52
             else exponent == n - 1 && mantissa == k
    ensures var bits := Assemble(exponent, mantissa);
            Finite(bits) && !Negative(bits) &&
            Units(bits) == k * Pow2(n + 1021) && Fraction(bits) % 2 == k % 2
  {
    hide Pow2, Assemble, Units;
    AssembleValue(exponent, mantissa);
    Pow2Step(n + 1021);
  }

  lemma RoundedNearest(v: nat, n: nat, k: nat, bits: Word)
    requires 54 <= n <= 128 && Pow2(n - 1) <= v && HalfEven(v, Pow2(n - 53), k)
    requires Finite(bits) && Units(bits) == k * Pow2(n + 1021) && Fraction(bits) % 2 == k % 2
    ensures NearestEven(v, bits)
  {
    hide Pow2, Units, HalfEven, Fraction;
    Pow2Words();
    Pow2Fraction();
    var u, scale := Pow2(n - 53), Pow2(1074);
    Pow2Sum(n - 53, 1074);
    Pow2Sum(52, n - 53);
    var wide, exact := Pow2(n + 1021), v * scale;
    HalfEvenScaled(v, u, k, scale);
    assert Two52 * wide <= exact by {
      Below(Two52 * u, v, scale);
      assert Two52 * u * scale == Two52 * wide;
    }
    forall x: Word | Finite(x) && Units(x) != Units(bits)
      ensures Distance(Units(bits), exact) <= Distance(Units(x), exact)
      ensures Distance(Units(bits), exact) == Distance(Units(x), exact) ==> Fraction(bits) % 2 == 0
    {
      if Units(x) >= Two52 * wide {
        var j := LargeIsMultiple(x, n);
        NearestMultiple(j, k, wide, exact);
      } else if k != Two52 {
        NearestMultiple(Two52, k, wide, exact);
      }
    }
  }

  lemma HalfEvenScaled(v: nat, u: nat, k: nat, scale: nat)
    requires HalfEven(v, u, k) && scale > 0
    ensures HalfEven(v * scale, u * scale, k)
  {
    var x, d := k * u, Distance(k * u, v);
    assert k * (u * scale) == x * scale;
    DistanceScaled(x, v, scale);
    Below(2 * d, u, scale);
    if 2 * d < u {
      Below(2 * d + 1, u, scale);
      MulSucc(2 * d, scale);
    }
  }

  lemma DistanceScaled(x: nat, y: nat, scale: nat)
    ensures Distance(x * scale, y * scale) == Distance(x, y) * scale
    ensures 2 * Distance(x, y) * scale == 2 * Distance(x * scale, y * scale)
  {
    if x < y {
      Below(x, y, scale);
      assert (y - x) * scale == y * scale - x * scale;
    } else {
      Below(y, x, scale);
      assert (x - y) * scale == x * scale - y * scale;
    }
  }

  /** A binary64 number as large as the rounded one is a multiple of the same unit. */
  lemma LargeIsMultiple(x: Word, n: nat) returns (j: nat)
    requires 54 <= n <= 128 && Finite(x) && Units(x) >= Two52 * Pow2(n + 1021)
    ensures Units(x) == j * Pow2(n + 1021)
  {
    hide Pow2;
    Pow2Words();
    Pow2Fraction();
    var e, m, wide := Exponent(x), Two52 + Fraction(x), Pow2(n + 1021);
    Below(1, wide, Two52);
    assert e - 1 >= n + 1021 by {
      if 0 < e <= n + 1021 {
        Pow2Step(e - 1);
        Pow2Split(e, n + 1021);
        Below(m, 2 * Two52 - 1, Pow2(e - 1));
      }
    }
    Pow2Split(n + 1021, e - 1);
    j := m * Pow2(e - 1 - (n + 1021));
    assert m * (wide * Pow2(e - 1 - (n + 1021))) == j * wide;
  }

  lemma NearestMultiple(j: int, k: int, u: nat, v: nat)
    requires j != k && 2 * Distance(k * u, v) <= u
    ensures Distance(k * u, v) <= Distance(j * u, v)
    ensures Distance(k * u, v) == Distance(j * u, v) ==> 2 * Distance(k * u, v) == u
  {
    if j > k {
      Below(1, j - k, u);
      assert (j - k) * u == j * u - k * u;
    } else {
      Below(1, k - j, u);
      assert (k - j) * u == k * u - j * u;
    }
  }
}
