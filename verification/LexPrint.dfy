/**
 * Integer tokens as text: the decimal form that the compiler prints into a token's
 * buffer, and the numbers that runs of digits stand for.
 */
module LexPrint {
  import opened WordArith
  import opened LexInt

  // ----- Numbers and digits

  function Digit(d: nat): (c: char)
    requires d < 10
    ensures '0' <= c <= '9' && c as int - '0' as int == d
  {
    (d + '0' as int) as char
  }

  /** The decimal digits of n, most significant first; none for zero. */
  function Digits(n: nat): seq<char> {
    if n == 0 then [] else Digits(n / 10) + [Digit(n % 10)]
  }

  /** The decimal form of n. */
  function Decimal(n: nat): seq<char> {
    if n == 0 then ['0'] else Digits(n)
  }

  /** What the digits ds make of the number before them. */
  function Number(before: nat, ds: seq<nat>, base: nat): nat {
    if ds == [] then before else Number(before, ds[..|ds| - 1], base) * base + ds[|ds| - 1]
  }

  lemma {:induction false} NumberGrows(before: nat, ds: seq<nat>, base: nat, k: nat)
    requires base > 0 && k <= |ds|
    ensures Number(before, ds[..k], base) <= Number(before, ds, base)
  {
    if k == |ds| {
      assert ds[..k] == ds;
    } else {
      var init := ds[..|ds| - 1];
      NumberGrows(before, init, base, k);
      assert init[..k] == ds[..k];
      Below(1, base, Number(before, init, base));
    }
  }

  function Pow10(n: nat): (r: nat)
    ensures r > 0
  {
    if n == 0 then 1 else 10 * Pow10(n - 1)
  }

  lemma {:induction false} Pow10Sum(m: nat, n: nat)
    ensures Pow10(m + n) == Pow10(m) * Pow10(n)
  {
    if m > 0 {
      Pow10Sum(m - 1, n);
      assert Pow10(m + n) == 10 * (Pow10(m - 1) * Pow10(n));
    }
  }

  lemma {:induction false} DigitsLength(n: nat, k: nat)
    requires n < Pow10(k)
    ensures |Digits(n)| <= k
  {
    if n > 0 {
      DigitsLength(n / 10, k - 1);
    }
  }

  /** A two-word integer has at most 39 digits. */
  lemma DecimalShort(n: nat)
    requires n < Two128
    ensures |Digits(n)| <= 39 && |Decimal(n)| <= 39
  {
    assert Pow10(13) == 10_000_000_000_000;
    Pow10Sum(13, 13);
    Pow10Sum(26, 13);
    DigitsLength(n, 39);
  }

  function Reversed(s: seq<char>): seq<char> {
    seq(|s|, i requires 0 <= i < |s| => s[|s| - 1 - i])
  }

  // ----- Printing

  const Size: nat := 64

  /**
   * The text of an integer token, with its terminator, in a buffer of 64 bytes: the
   * bound on the digit loop is never what stops it. The one-word case is the C
   * library's conversion, taken as it is documented.
   */
  method PrintInteger(value: LexInt) returns (printed: array<char>, len: nat)
    ensures printed.Length == Size && len < Size
    ensures printed[..len] == Decimal(Val(value)) && printed[len] == '\0'
  {
    printed := new char[Size](_ => '\0');
    if value.high == 0 {
      var text := Decimal(value.low);
      DecimalShort(value.low);
      len := 0;
      while len < |text|
        invariant len <= |text| && printed[..len] == text[..len]
      {
        printed[len] := text[len];
        len := len + 1;
      }
      printed[len] := '\0';
    } else {
      len := PrintReversed(printed, value);
      printed[len] := '\0';
      ghost var backwards := printed[..len];
      ReverseInPlace(printed, len);
      assert printed[..len] == Reversed(backwards);
    }
  }

  method PrintReversed(printed: array<char>, value: LexInt) returns (len: nat)
    requires printed.Length == Size && value.high > 0
    modifies printed
    ensures len < Size && Reversed(printed[..len]) == Decimal(Val(value))
  {
    hide Val, Digits, Reversed;
    var t := value;
    len := 0;
    NothingPrinted(printed[..0], Val(value));
    while Cmp64(t, 0) != 0 && len < Size - 1
      invariant len <= Size - 1
      invariant Digits(Val(t)) + Reversed(printed[..len]) == Digits(Val(value))
    {
      var rem := t;
      t := Div64(t, 10);
      var tmp := Mul64(t, 10);
      LastDigit(rem, tmp, Val(t));
      ghost var n := Val(rem);
      rem := Sub(rem, tmp);
      ghost var before := printed[..len];
      printed[len] := (rem.low + '0' as int) as char;
      OneMore(n, before, printed[..len + 1]);
      len := len + 1;
    }
    AllPrinted(value, t, printed[..len]);
  }

  lemma NothingPrinted(s: seq<char>, n: nat)
    requires s == []
    ensures Digits(n) + Reversed(s) == Digits(n)
  {
  }

  lemma LastDigit(n: LexInt, tmp: LexInt, q: nat)
    requires q == Val(n) / 10 && Val(tmp) == q * 10 % Two128
    ensures Sub(n, tmp).low == Val(n) % 10
  {
    var r := Sub(n, tmp);
    DivModUnique(q * 10, Two128, 0, q * 10);
    DivModUnique(Val(n) % 10, Two128, 0, Val(n) % 10);
    assert Val(r) == Val(n) % 10;
    assert r.high == 0;
  }

  lemma OneMore(n: nat, before: seq<char>, after: seq<char>)
    requires n > 0 && after == before + [Digit(n % 10)]
    ensures Digits(n / 10) + Reversed(after) == Digits(n) + Reversed(before)
  {
    assert Reversed(after) == [Digit(n % 10)] + Reversed(before);
  }

  lemma AllPrinted(value: LexInt, t: LexInt, s: seq<char>)
    requires value.high > 0 && Digits(Val(t)) + Reversed(s) == Digits(Val(value))
    requires Val(t) == 0 || |s| == Size - 1
    ensures Reversed(s) == Decimal(Val(value))
  {
    DecimalShort(Val(value));
    assert |Reversed(s)| == |s|;
    assert Digits(0) + Reversed(s) == Reversed(s);
  }

  /** Exchanges characters from both ends inwards. */
  method ReverseInPlace(a: array<char>, len: nat)
    requires len <= a.Length
    modifies a
    ensures a[..len] == Reversed(old(a[..len])) && a[len..] == old(a[len..])
  {
    ghost var s := a[..];
    var start, end := 0, len - 1;
    while start < end
      invariant 0 <= start && end == len - 1 - start && start <= end + 2
      invariant forall k :: 0 <= k < len && (k < start || end < k) ==> a[k] == s[len - 1 - k]
      invariant forall k :: start <= k <= end || len <= k < a.Length ==> a[k] == s[k]
    {
      a[start], a[end] := a[end], a[start];
      start := start + 1;
      end := end - 1;
    }
    assert forall k :: 0 <= k < len ==> a[k] == s[len - 1 - k];
    assert s[..len] == old(a[..len]);
  }

  // ----- Reading a printed number back

  /** The value of a digit or letter as a digit of the largest base; 36 for anything else. */
  function DigitValue(c: char): nat {
    if '0' <= c <= '9' then c as int - '0' as int
    else if 'a' <= c <= 'z' then c as int - 'a' as int + 10
    else if 'A' <= c <= 'Z' then c as int - 'A' as int + 10
    else 36
  }

  /** The digits of a run of digits and underscores. */
  function DigitValues(run: seq<char>): seq<nat> {
    if run == [] then []
    else
      var c, init := run[|run| - 1], run[..|run| - 1];
      if c == '_' then DigitValues(init) else DigitValues(init) + [DigitValue(c)]
  }

  predicate AllDecimal(s: seq<char>) {
    forall k :: 0 <= k < |s| ==> '0' <= s[k] <= '9'
  }

  lemma {:induction false} DigitsRead(n: nat)
    ensures AllDecimal(Digits(n))
    ensures Number(0, DigitValues(Digits(n)), 10) == n
  {
    if n > 0 {
      DigitsRead(n / 10);
      var s, init := Digits(n), Digits(n / 10);
      assert s[..|s| - 1] == init;
      var ds := DigitValues(s);
      assert ds == DigitValues(init) + [n % 10];
      assert ds[..|ds| - 1] == DigitValues(init);
    }
  }

  /** The decimal form of a number stands for that number. */
  lemma DecimalRead(n: nat)
    ensures Decimal(n) != [] && AllDecimal(Decimal(n))
    ensures Number(0, DigitValues(Decimal(n)), 10) == n
  {
    if n == 0 {
      assert ['0'][..0] == [];
      assert DigitValues(['0']) == [0];
      assert [0][..0] == [];
      assert Number(0, [0], 10) == Number(0, [], 10) * 10 + 0;
    } else {
      DigitsRead(n);
    }
  }

  // ----- Escaping

  predicate NeedsEscape(c: char) {
    c == '\"' || c == '\\' || c == '\0'
  }

  function EscapedChar(c: char): seq<char> {
    if c == '\"' || c == '\\' then ['\\', c] else if c == '\0' then ['\\', '0'] else [c]
  }

  /** A string with its quotes, backslashes and zero bytes escaped. */
  function Escaped(s: seq<char>): seq<char> {
    if s == [] then [] else Escaped(s[..|s| - 1]) + EscapedChar(s[|s| - 1])
  }

  function Escapes(s: seq<char>): nat {
    if s == [] then 0 else Escapes(s[..|s| - 1]) + (if NeedsEscape(s[|s| - 1]) then 1 else 0)
  }

  lemma {:induction false} EscapedLength(s: seq<char>)
    ensures |Escaped(s)| == |s| + Escapes(s)
    ensures Escapes(s) == 0 ==> Escaped(s) == s
  {
    if s != [] {
      EscapedLength(s[..|s| - 1]);
    }
  }

  lemma {:induction false} EscapedFits(s: seq<char>, k: nat)
    requires k <= |s|
    ensures |Escaped(s[..k])| <= |Escaped(s)|
  {
    if k == |s| {
      assert s[..k] == s;
    } else {
      EscapedFits(s[..|s| - 1], k);
      assert s[..|s| - 1][..k] == s[..k];
    }
  }

  /** The text of a string token with its escapes, in a buffer of just the right size. */
  method PrintEscaped(s: seq<char>) returns (escaped: array<char>, len: nat)
    ensures len + 1 == escaped.Length
    ensures escaped[..len] == Escaped(s) && escaped[len] == '\0'
  {
    var escapes := CountEscapes(s);
    EscapedLength(s);
    hide Escaped, Escapes;
    if escapes == 0 {
      escaped := new char[|s| + 1](i requires 0 <= i <= |s| => if i < |s| then s[i] else '\0');
      len := |s|;
      return;
    }
    escaped := new char[|s| + escapes + 1](_ => '\0');
    len := 0;
    var i := 0;
    NothingEscaped(s[..0]);
    while i < |s|
      invariant i <= |s| && len == |Escaped(s[..i])| && len <= |Escaped(s)| && escaped[..len] == Escaped(s[..i])
    {
      var c := s[i];
      EscapeNext(s, i);
      EscapedFits(s, i + 1);
      ghost var before := escaped[..len];
      if c == '\"' || c == '\\' {
        escaped[len], escaped[len + 1] := '\\', c;
        len := len + 2;
      } else if c == '\0' {
        escaped[len], escaped[len + 1] := '\\', '0';
        len := len + 2;
      } else {
        escaped[len] := c;
        len := len + 1;
      }
      assert escaped[..len] == before + EscapedChar(c);
      i := i + 1;
    }
    assert s[..i] == s;
    escaped[len] := '\0';
  }

  lemma NothingEscaped(s: seq<char>)
    requires s == []
    ensures Escaped(s) == []
  {
  }

  lemma EscapeNext(s: seq<char>, i: nat)
    requires i < |s|
    ensures Escaped(s[..i + 1]) == Escaped(s[..i]) + EscapedChar(s[i])
  {
    assert s[..i + 1][..i] == s[..i];
  }

  method CountEscapes(s: seq<char>) returns (escapes: nat)
    ensures escapes == Escapes(s)
  {
    escapes := 0;
    var i := 0;
    while i < |s|
      invariant i <= |s| && escapes == Escapes(s[..i])
    {
      assert s[..i + 1][..i] == s[..i];
      if NeedsEscape(s[i]) {
        escapes := escapes + 1;
      }
      i := i + 1;
    }
    assert s[..i] == s;
  }
}
