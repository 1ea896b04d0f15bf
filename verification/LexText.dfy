/**
 * What the lexer reads and the token printer writes, as functions on texts: source
 * positions, integer literals, escape sequences, string literals and comments.
 * Characters stand for bytes.
 */
module LexText {
  import opened WordArith
  import opened LexInt
  import opened LexPrint

  // ----- Positions

  /** The line of the character that follows the text s. */
  function Line(s: seq<char>): nat {
    if s == [] then 1 else Line(s[..|s| - 1]) + (if s[|s| - 1] == '\n' then 1 else 0)
  }

  /** The column of the character that follows the text s, in bytes from 1. */
  function Column(s: seq<char>): nat {
    if s == [] || s[|s| - 1] == '\n' then 1 else Column(s[..|s| - 1]) + 1
  }

  lemma {:induction false} NoNewline(s: seq<char>, t: seq<char>)
    requires '\n' !in t
    ensures Line(s + t) == Line(s) && Column(s + t) == Column(s) + |t|
  {
    if t == [] {
      assert s + t == s;
    } else {
      var init := t[..|t| - 1];
      NoNewline(s, init);
      assert (s + t)[..|s + t| - 1] == s + init;
    }
  }

  /** Line and column after a run of characters of which only the first may be a newline. */
  lemma ColumnAfter(s: seq<char>, t: seq<char>)
    requires t != [] && '\n' !in t[1..]
    ensures Line(s + t) == Line(s) + (if t[0] == '\n' then 1 else 0)
    ensures Column(s + t) == (if t[0] == '\n' then 0 else Column(s)) + |t|
  {
    var one := s + t[..1];
    assert one[..|one| - 1] == s;
    assert s + t == one + t[1..];
    NoNewline(one, t[1..]);
  }

  // ----- Characters

  predicate IsDigit(c: char) { '0' <= c <= '9' }

  predicate IsAlpha(c: char) { 'a' <= c <= 'z' || 'A' <= c <= 'Z' }

  predicate IsSpace(c: char) { c == ' ' || '\t' <= c <= '\r' }

  // ----- Integer literals

  predicate InRun(c: char, endOnE: bool) {
    c == '_' || ((IsDigit(c) || IsAlpha(c)) && !(endOnE && (c == 'e' || c == 'E')))
  }

  /** The length of the run of digits, letters and underscores that s starts with. */
  function RunLength(s: seq<char>, endOnE: bool): (n: nat)
    ensures n <= |s|
    ensures forall k :: 0 <= k < n ==> InRun(s[k], endOnE)
    ensures n < |s| ==> !InRun(s[n], endOnE)
  {
    if s == [] || !InRun(s[0], endOnE) then 0 else 1 + RunLength(s[1..], endOnE)
  }

  lemma RunLengthIs(s: seq<char>, endOnE: bool, n: nat)
    requires n <= |s| && forall k :: 0 <= k < n ==> InRun(s[k], endOnE)
    ensures RunLength(s, endOnE) >= n
    ensures n == |s| || !InRun(s[n], endOnE) ==> RunLength(s, endOnE) == n
    ensures n < |s| && InRun(s[n], endOnE) ==> RunLength(s, endOnE) > n
  {
  }

  /** The first n characters of s are underscores and digits of the base. */
  predicate InBase(s: seq<char>, n: nat, base: nat)
    requires n <= |s|
  {
    forall k :: 0 <= k < n && s[k] != '_' ==> DigitValue(s[k]) < base
  }

  predicate Adjacent(s: seq<char>, n: nat)
    requires n <= |s|
  {
    exists k :: 0 < k < n && s[k] == '_' && s[k - 1] == '_'
  }

  /** Digits of the base, at least one, with single underscores between or before them. */
  predicate Literal(s: seq<char>, n: nat, base: nat)
    requires n <= |s|
  {
    InBase(s, n, base) && !Adjacent(s, n) && DigitValues(s[..n]) != [] && s[n - 1] != '_'
  }

  datatype Read = Read(value: nat, count: nat, used: nat) | Unreadable

  /** The literal that s starts with, appended to the number before it, if it fits two words. */
  function ReadInteger(s: seq<char>, before: nat, base: nat, endOnE: bool): Read {
    var n := RunLength(s, endOnE);
    var value := Number(before, DigitValues(s[..n]), base);
    if Literal(s, n, base) && value < Two128 then Read(value, |DigitValues(s[..n])|, n) else Unreadable
  }

  lemma {:induction false} DigitValuesPrefix(run: seq<char>, k: nat)
    requires k <= |run|
    ensures DigitValues(run[..k]) <= DigitValues(run)
  {
    if k == |run| {
      assert run[..k] == run;
    } else {
      var init := run[..|run| - 1];
      DigitValuesPrefix(init, k);
      assert init[..k] == run[..k];
    }
  }

  /** A number that has outgrown two words cannot shrink by reading on. */
  lemma OverflowStays(before: nat, run: seq<char>, base: nat, k: nat)
    requires base > 0 && k <= |run|
    ensures Number(before, DigitValues(run[..k]), base) <= Number(before, DigitValues(run), base)
  {
    DigitValuesPrefix(run, k);
    var ds, n := DigitValues(run), |DigitValues(run[..k])|;
    assert ds[..n] == DigitValues(run[..k]);
    NumberGrows(before, ds, base, n);
  }

  // Reading a literal one character at a time.

  /** The first n characters of s have been read as a literal, to the given effect. */
  predicate ReadSoFar(s: seq<char>, n: nat, before: nat, base: nat, endOnE: bool, value: nat, count: nat, underscore: bool)
    requires n <= |s|
  {
    n <= RunLength(s, endOnE) && InBase(s, n, base) && !Adjacent(s, n) &&
    value == Number(before, DigitValues(s[..n]), base) && value < Two128 && count == |DigitValues(s[..n])| &&
    (underscore <==> n > 0 && s[n - 1] == '_')
  }

  lemma NothingRead(s: seq<char>, before: LexInt, base: nat, endOnE: bool)
    ensures ReadSoFar(s, 0, Val(before), base, endOnE, Val(before), 0, false)
  {
  }

  /** What the next character does. */
  lemma ReadOne(s: seq<char>, n: nat, before: nat, base: nat, endOnE: bool, value: nat, count: nat, underscore: bool)
    requires n < |s| && base > 0 && ReadSoFar(s, n, before, base, endOnE, value, count, underscore)
    ensures s[n] == '_' ==>
              if underscore then ReadInteger(s, before, base, endOnE).Unreadable?
              else ReadSoFar(s, n + 1, before, base, endOnE, value, count, true)
    ensures s[n] != '_' && InRun(s[n], endOnE) ==>
              var d := DigitValue(s[n]);
              if d >= base || value * base + d >= Two128 then ReadInteger(s, before, base, endOnE).Unreadable?
              else ReadSoFar(s, n + 1, before, base, endOnE, value * base + d, count + 1, false)
  {
    hide InBase, Adjacent, Number, RunLength, DigitValue;
    if InRun(s[n], endOnE) {
      ReadOneMore(s, n, base, endOnE);
      if s[n] == '_' {
        assert s[..n + 1][..n] == s[..n];
      } else {
        var run := s[..RunLength(s, endOnE)];
        assert run[..n + 1] == s[..n + 1];
        ReadDigit(s, n, before, base);
        OverflowStays(before, run, base, n + 1);
      }
    }
  }

  /** One more character of a run, and what it can spoil. */
  lemma ReadOneMore(s: seq<char>, n: nat, base: nat, endOnE: bool)
    requires n < |s| && n <= RunLength(s, endOnE) && InRun(s[n], endOnE)
    ensures n < RunLength(s, endOnE)
    ensures s[n] == '_' && n > 0 && s[n - 1] == '_' ==> Adjacent(s, RunLength(s, endOnE))
    ensures s[n] != '_' && DigitValue(s[n]) >= base ==> !InBase(s, RunLength(s, endOnE), base)
    ensures InBase(s, n, base) && (s[n] == '_' || DigitValue(s[n]) < base) ==> InBase(s, n + 1, base)
    ensures !Adjacent(s, n) && !(s[n] == '_' && n > 0 && s[n - 1] == '_') ==> !Adjacent(s, n + 1)
  {
    RunLengthIs(s, endOnE, n);
  }

  lemma ReadDigit(s: seq<char>, n: nat, before: nat, base: nat)
    requires n < |s| && s[n] != '_'
    ensures DigitValues(s[..n + 1]) == DigitValues(s[..n]) + [DigitValue(s[n])]
    ensures Number(before, DigitValues(s[..n + 1]), base) ==
            Number(before, DigitValues(s[..n]), base) * base + DigitValue(s[n])
  {
    assert s[..n + 1][..n] == s[..n];
    var ds := DigitValues(s[..n + 1]);
    assert ds == DigitValues(s[..n]) + [DigitValue(s[n])];
    assert ds[..|ds| - 1] == DigitValues(s[..n]);
  }

  lemma ReadAll(s: seq<char>, n: nat, before: nat, base: nat, endOnE: bool, value: nat, count: nat, underscore: bool)
    requires n <= |s| && ReadSoFar(s, n, before, base, endOnE, value, count, underscore)
    requires n == |s| || !InRun(s[n], endOnE)
    ensures ReadInteger(s, before, base, endOnE) ==
            if count == 0 || underscore then Unreadable else Read(value, count, n)
  {
    RunLengthIs(s, endOnE, n);
  }

  /** Printing a two-word integer and reading it back gives the number again. */
  lemma ReadDecimal(n: nat, rest: seq<char>)
    requires n < Two128 && (rest == [] || !InRun(rest[0], true))
    ensures ReadInteger(Decimal(n) + rest, 0, 10, true) == Read(n, |DigitValues(Decimal(n))|, |Decimal(n)|)
  {
    DecimalRead(n);
    var text := Decimal(n);
    hide Decimal, Number;
    var s := text + rest;
    RunLengthIs(s, true, |text|);
    assert s[..|text|] == text;
    DecimalCount(text);
  }

  lemma {:induction false} DecimalCount(text: seq<char>)
    requires AllDecimal(text)
    ensures |DigitValues(text)| == |text|
  {
    if text != [] {
      DecimalCount(text[..|text| - 1]);
    }
  }

  // ----- UTF-8

  /** The bytes of a code point, as written by the lexer. */
  function Utf8(value: nat): seq<char>
    requires value <= 0x10FFFF
  {
    if value <= 0x7F then [Byte(And(value, 0x7F))]
    else if value <= 0x7FF then
      [Byte(Or(0xC0, value / 64)), Byte(Or(0x80, And(value, 0x3F)))]
    else if value <= 0xFFFF then
      [Byte(Or(0xE0, value / 4096)), Byte(Or(0x80, And(value / 64, 0x3F))), Byte(Or(0x80, And(value, 0x3F)))]
    else
      [Byte(Or(0xF0, value / 262144)), Byte(Or(0x80, And(value / 4096, 0x3F))),
       Byte(Or(0x80, And(value / 64, 0x3F))), Byte(Or(0x80, And(value, 0x3F)))]
  }

  /** A C cast to a byte. */
  function Byte(n: nat): char {
    (n % 256) as char
  }

  /** The code point that a sequence of bytes stands for (section 3 of RFC 3629). */
  function Utf8Value(s: seq<char>): int {
    if |s| == 1 && s[0] as int < 0x80 then s[0] as int
    else if |s| == 2 && 0xC0 <= s[0] as int < 0xE0 && Tail(s[1]) then
      (s[0] as int - 0xC0) * 64 + Low(s[1])
    else if |s| == 3 && 0xE0 <= s[0] as int < 0xF0 && Tail(s[1]) && Tail(s[2]) then
      ((s[0] as int - 0xE0) * 64 + Low(s[1])) * 64 + Low(s[2])
    else if |s| == 4 && 0xF0 <= s[0] as int < 0xF8 && Tail(s[1]) && Tail(s[2]) && Tail(s[3]) then
      (((s[0] as int - 0xF0) * 64 + Low(s[1])) * 64 + Low(s[2])) * 64 + Low(s[3])
    else -1
  }

  predicate Tail(c: char) { 0x80 <= c as int < 0xC0 }

  function Low(c: char): int { c as int - 0x80 }

  lemma Continuation(n: nat)
    ensures Byte(Or(0x80, And(n, 0x3F))) as int == 0x80 + n % 64
  {
    hide And, Or, Pow2;
    Pow2Small();
    AndMask(n, 6);
    OrDisjoint(0x80, n % 64, 6);
  }

  lemma Lead(mark: nat, n: nat, bits: nat)
    requires (mark, bits) in {(0xC0, 5), (0xE0, 4), (0xF0, 3)} && n < Pow2(bits)
    ensures Byte(Or(mark, n)) as int == mark + n
  {
    hide And, Or, Pow2;
    Pow2Small();
    OrDisjoint(mark, n, bits);
  }

  /** Every code point can be recovered from its bytes. */
  lemma Utf8RoundTrip(value: nat)
    requires value <= 0x10FFFF
    ensures Utf8Value(Utf8(value)) == value
  {
    hide And, Or, Pow2, Byte;
    Pow2Small();
    Continuation(value);
    if value <= 0x7F {
      AsciiByte(value as char);
    } else if value <= 0x7FF {
      Lead(0xC0, value / 64, 5);
    } else if value <= 0xFFFF {
      Lead(0xE0, value / 4096, 4);
      Continuation(value / 64);
      ThreeBytes(value);
    } else {
      Lead(0xF0, value / 262144, 3);
      Continuation(value / 4096);
      Continuation(value / 64);
      FourBytes(value);
    }
  }

  lemma ThreeBytes(n: nat)
    ensures (n / 4096 * 64 + n / 64 % 64) * 64 + n % 64 == n
  {
    assert n / 64 / 64 == n / 4096;
  }

  lemma FourBytes(n: nat)
    ensures ((n / 262144 * 64 + n / 4096 % 64) * 64 + n / 64 % 64) * 64 + n % 64 == n
  {
    ThreeBytes(n / 64);
    assert n / 64 / 64 == n / 4096;
    assert n / 64 / 4096 == n / 262144;
  }

  // ----- Escape sequences

  function HexDigit(c: char): int {
    if IsDigit(c) then c as int - '0' as int
    else if 'a' <= c <= 'f' then c as int - 'a' as int + 10
    else if 'A' <= c <= 'F' then c as int - 'A' as int + 10
    else -1
  }

  /** A value, or -1 if the sequence is bad, and how many characters it takes. */
  datatype Escape = Escape(value: int, used: nat)

  function HexEscape(s: seq<char>, length: nat, value: nat): (e: Escape)
    ensures e.value >= -1 && e.used <= |s| && e.used <= length && '\n' !in s[..e.used]
  {
    if length == 0 then Escape(value, 0)
    else if s == [] || HexDigit(s[0]) < 0 then Escape(-1, 0)
    else
      var rest := HexEscape(s[1..], length - 1, value * 16 + HexDigit(s[0]));
      rest.(used := rest.used + 1)
  }

  /** The escape sequence at the start of s, which begins with a backslash. */
  function EscapeAt(s: seq<char>, unicode: bool, isString: bool): (e: Escape)
    requires |s| >= 2 && s[0] == '\\'
    ensures 2 <= e.used <= |s| && -1 <= e.value <= 0x10FFFF
    ensures e.value >= 0 ==> '\n' !in s[..e.used]
    ensures !unicode ==> e.value < 256
  {
    var c := s[1];
    var hexDigits := if c == 'x' then 2 else if c == 'u' && unicode then 4 else if c == 'U' && unicode then 6 else 0;
    if hexDigits > 0 then
      var hex := HexEscape(s[2..], hexDigits, 0);
      TwoHexDigits(s[2..]);
      assert s[..2 + hex.used] == s[..2] + s[2..][..hex.used];
      Escape(if hex.value > 0x10FFFF then -1 else hex.value, 2 + hex.used)
    else
      Escape(
        match c
        case 'a' => 0x07
        case 'b' => 0x08
        case 'e' => 0x1B
        case 'f' => 0x0C
        case 'n' => 0x0A
        case 'r' => 0x0D
        case 't' => 0x09
        case 'v' => 0x0B
        case '\\' => 0x5C
        case '0' => 0x00
        case '\"' => if isString then 0x22 else -1
        case '\'' => if isString then -1 else 0x27
        case _ => -1,
        2)
  }

  lemma TwoHexDigits(s: seq<char>)
    ensures HexEscape(s, 2, 0).value < 256
  {
    if s != [] && HexDigit(s[0]) >= 0 {
      OneHexDigit(s[1..], HexDigit(s[0]));
    }
  }

  lemma OneHexDigit(s: seq<char>, value: nat)
    requires value < 16
    ensures HexEscape(s, 1, value).value < 256
  {
  }

  lemma HexOver(s: seq<char>, value: nat)
    ensures HexEscape(s, 0, value) == Escape(value, 0)
  {
  }

  lemma HexStep(s: seq<char>, length: nat, value: nat)
    requires length > 0
    ensures s == [] || HexDigit(s[0]) < 0 ==> HexEscape(s, length, value) == Escape(-1, 0)
    ensures s != [] && HexDigit(s[0]) >= 0 ==>
              var rest := HexEscape(s[1..], length - 1, value * 16 + HexDigit(s[0]));
              HexEscape(s, length, value) == rest.(used := rest.used + 1)
  {
  }

  // ----- String literals

  datatype Ending = Closed | Open | Aborted

  /** The text of a string literal, what it takes, its bad escapes, and how it ends. */
  datatype Scan = Scan(text: seq<char>, used: nat, bad: nat, end: Ending) {
    /** This literal with more in front of it. */
    function After(text: seq<char>, used: nat, bad: nat): Scan {
      Scan(text + this.text, used + this.used, bad + this.bad, end)
    }
  }

  lemma AfterAfter(r: Scan, t1: seq<char>, u1: nat, b1: nat, t2: seq<char>, u2: nat, b2: nat)
    ensures r.After(t2, u2, b2).After(t1, u1, b1) == r.After(t1 + t2, u1 + u2, b1 + b2)
  {
    assert t1 + (t2 + r.text) == (t1 + t2) + r.text;
  }

  /** Reads a string literal after its opening quote. */
  function ScanString(s: seq<char>): (r: Scan)
    ensures r.used <= |s|
    ensures r.end.Closed? ==> r.used > 0
    ensures r.end.Aborted? ==> s != [] && s[|s| - 1] == '\\'
    decreases |s|
  {
    if s == [] then Scan([], 0, 0, Open)
    else if s[0] == '\"' then Scan([], 1, 0, Closed)
    else if s[0] == '\\' then
      if |s| < 2 then Scan([], 0, 0, Aborted)
      else
        var e := EscapeAt(s, true, true);
        var r := ScanString(s[e.used..]);
        if e.value >= 0 then r.After(Utf8(e.value), e.used, 0) else r.After([], e.used, 1)
    else ScanString(s[1..]).After([s[0]], 1, 0)
  }

  lemma ScanStep(s: seq<char>)
    ensures s == [] ==> ScanString(s) == Scan([], 0, 0, Open)
    ensures s != [] && s[0] == '\"' ==> ScanString(s) == Scan([], 1, 0, Closed)
    ensures |s| == 1 && s[0] == '\\' ==> ScanString(s) == Scan([], 0, 0, Aborted)
    ensures |s| >= 2 && s[0] == '\\' ==>
              var e := EscapeAt(s, true, true);
              var r := ScanString(s[e.used..]);
              ScanString(s) == if e.value >= 0 then r.After(Utf8(e.value), e.used, 0) else r.After([], e.used, 1)
    ensures s != [] && s[0] != '\"' && s[0] != '\\' ==> ScanString(s) == ScanString(s[1..]).After([s[0]], 1, 0)
  {
  }

  lemma {:induction false} EscapedSplit(s: seq<char>)
    requires s != []
    ensures Escaped(s) == EscapedChar(s[0]) + Escaped(s[1..])
  {
    hide Escaped;
    var init := s[..|s| - 1];
    EscapedLast(s);
    if init == [] {
      NothingEscaped(init);
      NothingEscaped(s[1..]);
    } else {
      EscapedSplit(init);
      EscapedLast(s[1..]);
      assert init[1..] == s[1..][..|s| - 2];
    }
  }

  lemma EscapedLast(s: seq<char>)
    requires s != []
    ensures Escaped(s) == Escaped(s[..|s| - 1]) + EscapedChar(s[|s| - 1])
  {
  }

  /** Reading an escaped string gives back the string. */
  lemma {:induction false} ScanEscaped(s: seq<char>, rest: seq<char>)
    ensures ScanString(Escaped(s) + ['\"'] + rest) == Scan(s, |Escaped(s)| + 1, 0, Closed)
  {
    var text := Escaped(s) + ['\"'] + rest;
    if s == [] {
      assert text == ['\"'] + rest;
      ScanStep(text);
    } else {
      hide ScanString, EscapedChar;
      var tail := Escaped(s[1..]) + ['\"'] + rest;
      EscapedSplit(s);
      ScanEscaped(s[1..], rest);
      Associative(EscapedChar(s[0]), Escaped(s[1..]), ['\"'], rest);
      ScanOne(s[0], tail);
      assert s == [s[0]] + s[1..];
    }
  }

  lemma Associative(a: seq<char>, b: seq<char>, c: seq<char>, d: seq<char>)
    ensures (a + b) + c + d == a + (b + c + d)
  {
  }

  lemma ScanOne(c: char, tail: seq<char>)
    ensures ScanString(EscapedChar(c) + tail) == ScanString(tail).After([c], |EscapedChar(c)|, 0)
  {
    hide Utf8;
    var text := EscapedChar(c) + tail;
    assert text[|EscapedChar(c)|..] == tail;
    if |EscapedChar(c)| == 2 {
      assert EscapeAt(text, true, true) == Escape(c as int, 2);
      AsciiByte(c);
    }
  }

  lemma AsciiByte(c: char)
    requires c as int <= 0x7F
    ensures Utf8(c as int) == [c]
  {
    hide And, Pow2;
    Pow2Small();
    AndMask(c as int, 7);
  }

  // ----- Character literals

  /** The codes of a character literal, how many characters it has, and as for strings. */
  datatype Codes = Codes(codes: seq<nat>, count: nat, used: nat, bad: nat, end: Ending) {
    function After(codes: seq<nat>, count: nat, used: nat, bad: nat): Codes {
      Codes(codes + this.codes, count + this.count, used + this.used, bad + this.bad, end)
    }
  }

  lemma CodesAfter(r: Codes, c1: seq<nat>, n1: nat, u1: nat, b1: nat, c2: seq<nat>, n2: nat, u2: nat, b2: nat)
    ensures r.After(c2, n2, u2, b2).After(c1, n1, u1, b1) == r.After(c1 + c2, n1 + n2, u1 + u2, b1 + b2)
  {
    assert c1 + (c2 + r.codes) == (c1 + c2) + r.codes;
  }

  lemma AfterNothing(r: Codes)
    ensures r.After([], 0, 0, 0) == r
  {
  }

  lemma AfterIs(r: Codes, c: seq<nat>, n: nat, u: nat, b: nat)
    ensures r.After(c, n, u, b) == Codes(c + r.codes, n + r.count, u + r.used, b + r.bad, r.end)
  {
  }

  /** Reads a character literal after its opening quote. */
  function ScanCharacter(s: seq<char>): (r: Codes)
    ensures r.used <= |s|
    ensures r.end.Closed? ==> r.used > 0
    ensures r.end.Aborted? ==> s != [] && s[|s| - 1] == '\\'
    decreases |s|
  {
    if s == [] then Codes([], 0, 0, 0, Open)
    else if s[0] == '\'' then Codes([], 0, 1, 0, Closed)
    else if s[0] == '\\' then
      if |s| < 2 then Codes([], 0, 0, 0, Aborted)
      else
        var e := EscapeAt(s, false, false);
        var r := ScanCharacter(s[e.used..]);
        if e.value >= 0 then r.After([e.value], 1, e.used, 0) else r.After([], 1, e.used, 1)
    else ScanCharacter(s[1..]).After([s[0] as int % 256], 1, 1, 0)
  }

  lemma CharacterStep(s: seq<char>)
    ensures s == [] ==> ScanCharacter(s) == Codes([], 0, 0, 0, Open)
    ensures s != [] && s[0] == '\'' ==> ScanCharacter(s) == Codes([], 0, 1, 0, Closed)
    ensures |s| == 1 && s[0] == '\\' ==> ScanCharacter(s) == Codes([], 0, 0, 0, Aborted)
    ensures |s| >= 2 && s[0] == '\\' ==>
              var e := EscapeAt(s, false, false);
              var r := ScanCharacter(s[e.used..]);
              ScanCharacter(s) == if e.value >= 0 then r.After([e.value], 1, e.used, 0) else r.After([], 1, e.used, 1)
    ensures s != [] && s[0] != '\'' && s[0] != '\\' ==>
              ScanCharacter(s) == ScanCharacter(s[1..]).After([s[0] as int % 256], 1, 1, 0)
  {
  }

  /** Appending a byte to a number kept modulo two words. */
  lemma AppendCode(v: LexInt, codes: seq<nat>, c: nat)
    requires Val(v) == Number(0, codes, 256) % Two128 && c < 256
    ensures Val(AppendChar(v, c)) == Number(0, codes + [c], 256) % Two128
  {
    AppendCharValue(v, c);
    var n := Number(0, codes, 256);
    hide AppendChar, Val;
    assert (codes + [c])[..|codes|] == codes;
    assert Number(0, codes + [c], 256) == n * 256 + c;
    hide Number;
    ByteModulo(n, c);
  }

  lemma ByteModulo(n: nat, c: nat)
    ensures (n % Two128 * 256 + c) % Two128 == (n * 256 + c) % Two128
  {
    var q, r := n / Two128, n % Two128;
    assert n * 256 + c - (q * 256) * Two128 == r * 256 + c;
    ModShift(n * 256 + c, q * 256, Two128);
  }

  lemma NoCodes()
    ensures Val(Zero) == Number(0, [], 256) % Two128
  {
  }

  // ----- Number literals

  /** What a number literal amounts to, and what it takes. */
  datatype Shape =
    | Whole(value: nat, used: nat)
    | Real(significand: nat, digits: nat, exponent: nat, negative: bool, used: nat)
    | Malformed

  /** The character at n, or the null character past the end. */
  function At(s: seq<char>, n: nat): char {
    if n < |s| then s[n] else '\0'
  }

  predicate IsE(c: char) { c == 'e' || c == 'E' }

  function BaseAt(s: seq<char>): (base: nat)
    ensures base != 10 ==> |s| >= 2
  {
    if At(s, 0) == '0' && (At(s, 1) == 'x' || At(s, 1) == 'X') then 16
    else if At(s, 0) == '0' && (At(s, 1) == 'b' || At(s, 1) == 'B') then 2
    else 10
  }

  /** The number literal that s starts with. */
  function NumberAt(s: seq<char>): Shape {
    if BaseAt(s) != 10 then
      match ReadInteger(s[2..], 0, BaseAt(s), false)
      case Unreadable => Malformed
      case Read(value, _, used) => Whole(value, 2 + used)
    else
      match ReadInteger(s, 0, 10, true)
      case Unreadable => Malformed
      case Read(value, _, used) =>
        if At(s, used) == '.' || IsE(At(s, used)) then RealAt(s, value, used) else Whole(value, used)
  }

  /** A literal whose integral part is read and is followed by a dot or an exponent. */
  function RealAt(s: seq<char>, integral: nat, used: nat): Shape
    requires used <= |s|
  {
    if At(s, used) == '.' then
      if !IsDigit(At(s, used + 1)) then Whole(integral, used)
      else
        match ReadInteger(s[used + 1..], integral, 10, true)
        case Unreadable => Malformed
        case Read(value, count, more) => ExponentAt(s, value, count, used + 1 + more)
    else ExponentAt(s, integral, 0, used)
  }

  function ExponentAt(s: seq<char>, significand: nat, digits: nat, used: nat): Shape
    requires used <= |s|
  {
    if !IsE(At(s, used)) then Real(significand, digits, 0, false, used)
    else
      var sign := At(s, used + 1);
      var start := if sign == '+' || sign == '-' then used + 2 else used + 1;
      match ReadInteger(s[start..], 0, 10, false)
      case Unreadable => Malformed
      case Read(value, _, more) => Real(significand, digits, value, sign == '-', start + more)
  }

  lemma NumberIs(s: seq<char>)
    ensures NumberAt(s) ==
            if BaseAt(s) != 10 then
              match ReadInteger(s[2..], 0, BaseAt(s), false)
              case Unreadable => Malformed
              case Read(value, _, used) => Whole(value, 2 + used)
            else
              match ReadInteger(s, 0, 10, true)
              case Unreadable => Malformed
              case Read(value, _, used) =>
                if At(s, used) == '.' || IsE(At(s, used)) then RealAt(s, value, used) else Whole(value, used)
  {
    hide ReadInteger, RealAt, BaseAt;
  }

  lemma AtDrop(s: seq<char>, from: nat, n: nat)
    requires from <= |s|
    ensures At(s[from..], n) == At(s, from + n)
    ensures At(s, from + n) != '\0' ==> from + n < |s|
  {
  }

  lemma DropDrop(s: seq<char>, m: nat, n: nat)
    requires m + n <= |s|
    ensures s[m..][n..] == s[m + n..]
  {
  }

  lemma ExponentIs(s: seq<char>, significand: nat, digits: nat, used: nat)
    requires used <= |s|
    ensures var c, sign := At(s, used), At(s, used + 1);
            var start := if sign == '+' || sign == '-' then used + 2 else used + 1;
            ExponentAt(s, significand, digits, used) ==
            if !IsE(c) then Real(significand, digits, 0, false, used)
            else match ReadInteger(s[start..], 0, 10, false)
              case Unreadable => Malformed
              case Read(value, _, more) => Real(significand, digits, value, sign == '-', start + more)
  {
    hide ReadInteger;
  }

  /** A printed integer is read back whole, whatever follows that cannot continue it. */
  lemma NumberDecimal(n: nat, rest: seq<char>)
    requires n < Two128
    requires rest == [] || (!InRun(rest[0], false) && rest[0] != '.')
    ensures NumberAt(Decimal(n) + rest) == Whole(n, |Decimal(n)|)
  {
    var text := Decimal(n);
    var s := text + rest;
    ReadDecimal(n, rest);
    assert AllDecimal(text) && text != [] by { DecimalRead(n); }
    hide Decimal, ReadInteger, RealAt;
    BaseDecimal(text, rest);
    hide BaseAt, InRun;
  }

  lemma BaseDecimal(text: seq<char>, rest: seq<char>)
    requires text != [] && AllDecimal(text)
    requires rest == [] || (!InRun(rest[0], false) && rest[0] != '.')
    ensures var s := text + rest;
            BaseAt(s) == 10 && At(s, |text|) != '.' && !IsE(At(s, |text|))
  {
    var s := text + rest;
    assert At(s, |text|) == At(rest, 0);
    assert |text| > 1 ==> At(s, 1) == text[1];
  }

  // ----- Identifiers, symbols and comments

  predicate InName(c: char) { c == '_' || c == '\'' || IsDigit(c) || IsAlpha(c) }

  function NameLength(s: seq<char>): (n: nat)
    ensures n <= |s| && forall k :: 0 <= k < n ==> InName(s[k])
    ensures n < |s| ==> !InName(s[n])
  {
    if s == [] || !InName(s[0]) then 0 else 1 + NameLength(s[1..])
  }

  datatype Entry = Entry(text: seq<char>, id: nat)

  /** The first entry with this text, or the length of the table. */
  function FindText(table: seq<Entry>, text: seq<char>): (k: nat)
    ensures k <= |table|
    ensures k < |table| ==> table[k].text == text
    ensures forall j :: 0 <= j < k ==> table[j].text != text
  {
    if table == [] || table[0].text == text then 0 else 1 + FindText(table[1..], text)
  }

  /** The first entry that s starts with, or the length of the table. */
  function FindSymbol(table: seq<Entry>, s: seq<char>): (k: nat)
    ensures k <= |table|
    ensures k < |table| ==> table[k].text <= s
    ensures forall j :: 0 <= j < k ==> !(table[j].text <= s)
  {
    if table == [] || table[0].text <= s then 0 else 1 + FindSymbol(table[1..], s)
  }

  lemma NameStep(s: seq<char>, n: nat)
    requires n <= |s|
    ensures NameLength(s[n..]) == if n < |s| && InName(s[n]) then 1 + NameLength(s[n + 1..]) else 0
  {
    if n < |s| {
      assert s[n..][1..] == s[n + 1..];
    }
  }

  lemma TextStep(table: seq<Entry>, k: nat, text: seq<char>)
    requires k < |table|
    ensures FindText(table[k..], text) == if table[k].text == text then 0 else 1 + FindText(table[k + 1..], text)
  {
    assert table[k..][1..] == table[k + 1..];
  }

  lemma SymbolStep(table: seq<Entry>, k: nat, s: seq<char>)
    requires k < |table|
    ensures FindSymbol(table[k..], s) == if table[k].text <= s then 0 else 1 + FindSymbol(table[k + 1..], s)
  {
    assert table[k..][1..] == table[k + 1..];
  }

  /** Comparing character by character with input padded by null characters. */
  lemma MatchSymbol(text: seq<char>, sym: seq<char>, s: seq<char>, i: nat)
    requires |sym| == 3 && |text| <= 3 && '\0' !in text
    requires forall j :: 0 <= j < 3 ==> sym[j] == At(s, j)
    requires i <= |text| && (forall j :: 0 <= j < i ==> text[j] == sym[j]) && (i < |text| ==> text[i] != sym[i])
    ensures i == |text| <==> text <= s
  {
    if i == |text| {
      forall j | 0 <= j < i
        ensures j < |s| && text[j] == s[j]
      {
        assert text[j] in text && text[j] == At(s, j);
      }
      assert i > 0 ==> i - 1 < |s| && text[i - 1] == s[i - 1];
      assert text == s[..i];
    }
  }

  /** Symbols that start with another symbol come before it. */
  predicate LongerFirst(table: seq<Entry>) {
    forall j, k :: 0 <= k < j < |table| ==> !(table[k].text < table[j].text)
  }

  /** In a table ordered that way, the first symbol that fits is the longest that fits. */
  lemma LongestSymbol(table: seq<Entry>, s: seq<char>, j: nat)
    requires LongerFirst(table) && j < |table| && table[j].text <= s
    ensures var k := FindSymbol(table, s);
            k < |table| && |table[j].text| <= |table[k].text|
  {
    var k := FindSymbol(table, s);
    var long, short := table[j].text, table[k].text;
    assert |short| < |long| ==> short < long;
  }

  /** How much a block comment takes from inside the given number of openings; -1 if it does not end. */
  function CommentLength(s: seq<char>, depth: nat): (n: int)
    ensures -1 <= n <= |s|
    decreases |s|
  {
    if depth == 0 then 0
    else if |s| <= 1 then -1
    else if s[0] == '*' && s[1] == '/' then Onward(2, CommentLength(s[2..], depth - 1))
    else if s[0] == '/' && s[1] == '*' then Onward(2, CommentLength(s[2..], depth + 1))
    else Onward(1, CommentLength(s[1..], depth))
  }

  function Onward(step: nat, rest: int): int {
    if rest < 0 then -1 else step + rest
  }

  lemma CommentOver(s: seq<char>)
    ensures CommentLength(s, 0) == 0
  {
  }

  lemma CommentStep(s: seq<char>, depth: nat)
    requires depth > 0
    ensures CommentLength(s, depth) ==
            if |s| <= 1 then -1
            else if s[0] == '*' && s[1] == '/' then Onward(2, CommentLength(s[2..], depth - 1))
            else if s[0] == '/' && s[1] == '*' then Onward(2, CommentLength(s[2..], depth + 1))
            else Onward(1, CommentLength(s[1..], depth))
  {
  }

  /**
   * Comments nest: text that closes d openings closes just these when there are e more
   * around them, and reading goes on after it.
   */
  lemma {:induction false} CommentNests(s: seq<char>, d: nat, e: nat, rest: seq<char>)
    requires CommentLength(s, d) == |s|
    ensures CommentLength(s + rest, d + e) == Onward(|s|, CommentLength(rest, e))
    decreases |s|
  {
    hide CommentLength;
    if d == 0 {
      CommentOver(s);
      assert s + rest == rest;
    } else {
      CommentStep(s, d);
      CommentStep(s + rest, d + e);
      assert |s| > 1;
      if s[0] == '*' && s[1] == '/' {
        CommentNests(s[2..], d - 1, e, rest);
        assert (s + rest)[2..] == s[2..] + rest;
      } else if s[0] == '/' && s[1] == '*' {
        CommentNests(s[2..], d + 1, e, rest);
        assert (s + rest)[2..] == s[2..] + rest;
      } else {
        CommentNests(s[1..], d, e, rest);
        assert (s + rest)[1..] == s[1..] + rest;
      }
    }
  }

  /** The length of s up to its first newline. */
  function ToNewline(s: seq<char>): (n: nat)
    ensures n <= |s| && '\n' !in s[..n]
    ensures n < |s| ==> s[n] == '\n'
  {
    if s == [] || s[0] == '\n' then 0 else 1 + ToNewline(s[1..])
  }

  /** The white space or comment that s starts with; 0 if it starts with neither. */
  function Gap(s: seq<char>): (n: nat)
    ensures n <= |s|
  {
    if At(s, 0) in {'\n', '\r', '\t', ' '} then 1
    else if At(s, 0) == '/' && At(s, 1) == '*' then
      if CommentLength(s[2..], 1) < 0 then 0 else 2 + CommentLength(s[2..], 1)
    else if At(s, 0) == '/' && At(s, 1) == '/' then 2 + ToNewline(s[2..])
    else 0
  }

  /** All the white space and comments that s starts with. */
  function Gaps(s: seq<char>): (n: nat)
    ensures n <= |s|
    decreases |s|
  {
    if Gap(s) == 0 then 0 else Gap(s) + Gaps(s[Gap(s)..])
  }

  lemma NewlineStep(s: seq<char>)
    ensures ToNewline(s) == if s == [] || s[0] == '\n' then 0 else 1 + ToNewline(s[1..])
  {
  }

  lemma GapFirst(s: seq<char>)
    ensures At(s, 0) in {'\n', '\r', '\t', ' '} ==> Gap(s) == 1
    ensures Gap(s) > 0 ==> At(s, 0) in {'\n', '\r', '\t', ' ', '/'}
  {
  }

  lemma GapStep(s: seq<char>)
    ensures Gaps(s) == if Gap(s) == 0 then 0 else Gap(s) + Gaps(s[Gap(s)..])
    ensures s == [] ==> Gap(s) == 0
  {
  }

  // ----- New lines before a token

  predicate IsComment(s: seq<char>) {
    At(s, 0) == '/' && At(s, 1) == '*'
  }

  /** Whether a symbol takes its form for a new line, after one piece of white space or
      comment: a block comment hides the newlines before it. */
  function FreshAfter(s: seq<char>, newline: bool): bool {
    if At(s, 0) == '\n' then true else if IsComment(s) then false else newline
  }

  function FreshLine(s: seq<char>, newline: bool): bool
    decreases |s|
  {
    if Gap(s) == 0 then newline else FreshLine(s[Gap(s)..], FreshAfter(s, newline))
  }

  /** Whether the token is on a new line for the parser; a block comment hides nothing. */
  function LineBroken(s: seq<char>, newline: bool): bool
    decreases |s|
  {
    if Gap(s) == 0 then newline else LineBroken(s[Gap(s)..], newline || At(s, 0) == '\n')
  }

  lemma FreshStep(s: seq<char>, newline: bool, broken: bool)
    ensures FreshLine(s, newline) == if Gap(s) == 0 then newline else FreshLine(s[Gap(s)..], FreshAfter(s, newline))
    ensures LineBroken(s, broken) == if Gap(s) == 0 then broken else LineBroken(s[Gap(s)..], broken || At(s, 0) == '\n')
  {
  }

  /** A piece of the white space and comments that s starts with starts at k. */
  predicate PieceAt(s: seq<char>, k: nat)
    decreases |s|
  {
    Gap(s) > 0 && (k == 0 || (k >= Gap(s) && PieceAt(s[Gap(s)..], k - Gap(s))))
  }

  lemma {:induction false} PieceInside(s: seq<char>, k: nat)
    requires PieceAt(s, k)
    ensures k < Gaps(s) && k < |s|
    decreases |s|
  {
    if k > 0 {
      PieceInside(s[Gap(s)..], k - Gap(s));
    }
  }

  ghost predicate NewlineAt(s: seq<char>, k: nat) {
    PieceAt(s, k) && At(s, k) == '\n'
  }

  ghost predicate CommentAt(s: seq<char>, k: nat) {
    PieceAt(s, k) && k <= |s| && IsComment(s[k..])
  }

  /** The parser is told of a new line exactly when a newline outside comments precedes. */
  lemma {:induction false} LineBrokenExact(s: seq<char>, newline: bool)
    ensures LineBroken(s, newline) <==> newline || exists k :: NewlineAt(s, k)
    decreases |s|
  {
    if Gap(s) > 0 {
      var g, tail := Gap(s), s[Gap(s)..];
      LineBrokenExact(tail, newline || At(s, 0) == '\n');
      assert At(s, 0) == '\n' ==> NewlineAt(s, 0);
      if k :| NewlineAt(s, k) && k > 0 {
        AtDrop(s, g, k - g);
        assert NewlineAt(tail, k - g);
      }
      if k :| NewlineAt(tail, k) {
        AtDrop(s, g, k);
        assert NewlineAt(s, g + k);
      }
    }
  }

  /** A symbol takes its form for a new line exactly when a newline outside comments
      precedes, or the flag is set, and no block comment comes after that. */
  lemma {:induction false} FreshLineExact(s: seq<char>, newline: bool)
    ensures FreshLine(s, newline) <==>
            || (newline && forall j :: !CommentAt(s, j))
            || exists k :: NewlineAt(s, k) && forall j :: j > k ==> !CommentAt(s, j)
    decreases |s|
  {
    if Gap(s) > 0 {
      var g, tail := Gap(s), s[Gap(s)..];
      FreshLineExact(tail, FreshAfter(s, newline));
      assert s[0..] == s;
      assert CommentAt(s, 0) <==> IsComment(s);
      assert NewlineAt(s, 0) <==> At(s, 0) == '\n';
      forall k: nat
        ensures NewlineAt(tail, k) <==> NewlineAt(s, g + k)
        ensures CommentAt(tail, k) <==> CommentAt(s, g + k)
      {
        AtDrop(s, g, k);
        if k <= |tail| {
          DropDrop(s, g, k);
        }
      }
      LaterPieces(s, g, tail);
    }
  }

  /** What holds of the pieces after the first holds of those of the tail. */
  lemma LaterPieces(s: seq<char>, g: nat, tail: seq<char>)
    requires g == Gap(s) > 0 && tail == s[g..]
    requires forall k: nat :: NewlineAt(tail, k) <==> NewlineAt(s, g + k)
    requires forall k: nat :: CommentAt(tail, k) <==> CommentAt(s, g + k)
    ensures (forall j :: !CommentAt(tail, j)) <==> forall j :: j > 0 ==> !CommentAt(s, j)
    ensures (exists k :: NewlineAt(tail, k) && forall j :: j > k ==> !CommentAt(tail, j)) <==>
            (exists k :: k > 0 && NewlineAt(s, k) && forall j :: j > k ==> !CommentAt(s, j))
  {
    forall j: nat | j > 0 && CommentAt(s, j)
      ensures j >= g && CommentAt(tail, j - g)
    {
      assert CommentAt(s, g + (j - g));
    }
    if k: nat :| NewlineAt(tail, k) && forall j :: j > k ==> !CommentAt(tail, j) {
      assert NewlineAt(s, g + k);
      forall j: nat | j > g + k
        ensures !CommentAt(s, j)
      {
        assert !CommentAt(tail, j - g);
      }
    }
    if k: nat :| k > 0 && NewlineAt(s, k) && forall j :: j > k ==> !CommentAt(s, j) {
      assert NewlineAt(tail, k - g) by { assert NewlineAt(s, g + (k - g)); }
      forall j: nat | j > k - g
        ensures !CommentAt(tail, j)
      {
        assert !CommentAt(s, g + j);
      }
    }
  }

  // ----- Triple-quoted strings

  const Quotes: seq<char> := ['\"', '\"', '\"']

  /** Where the first three quotes start; the length of s if there are none. */
  function TripleEnd(s: seq<char>): (n: nat)
    ensures n <= |s|
    ensures n < |s| ==> Quotes <= s[n..]
  {
    if s == [] || Quotes <= s then 0 else 1 + TripleEnd(s[1..])
  }

  function QuoteRun(s: seq<char>): (n: nat)
    ensures n <= |s| && forall k :: 0 <= k < n ==> s[k] == '\"'
    ensures n < |s| ==> s[n] != '\"'
  {
    if s == [] || s[0] != '\"' then 0 else 1 + QuoteRun(s[1..])
  }

  /** Whether text other than white space stands before the first newline. */
  predicate TextOnFirstLine(s: seq<char>) {
    exists k :: 0 <= k < |s| && !IsSpace(s[k]) && '\n' !in s[..k]
  }

  predicate OnQuotes(s: seq<char>) {
    At(s, 0) == '\"' && At(s, 1) == '\"' && At(s, 2) == '\"'
  }

  lemma QuotesFirst(s: seq<char>)
    ensures OnQuotes(s) <==> Quotes <= s
  {
    if |s| >= 3 {
      assert s[..3] == [s[0], s[1], s[2]];
    }
  }

  lemma TripleStep(s: seq<char>)
    ensures TripleEnd(s) == if s == [] || OnQuotes(s) then 0 else 1 + TripleEnd(s[1..])
  {
    hide OnQuotes;
    QuotesFirst(s);
  }

  lemma QuoteStep(s: seq<char>)
    ensures At(s, 0) == '\"' ==> QuoteRun(s) == 1 + QuoteRun(s[1..])
    ensures At(s, 0) != '\"' ==> QuoteRun(s) == 0
  {
  }

  lemma Parts(s: seq<char>, t: seq<char>)
    ensures (s + t)[..|s|] == s && (s + t)[|s|..] == t
  {
  }

  lemma MoveOne(s: seq<char>, t: seq<char>)
    requires t != []
    ensures (s + [t[0]]) + t[1..] == s + t
  {
  }

  lemma FirstLineStep(s: seq<char>, c: char)
    ensures !TextOnFirstLine([])
    ensures '\n' in s + [c] <==> '\n' in s || c == '\n'
    ensures TextOnFirstLine(s + [c]) <==> TextOnFirstLine(s) || (!IsSpace(c) && '\n' !in s)
  {
    var b := s + [c];
    assert b[..|s|] == s && b[|s|] == c;
    assert forall k :: 0 <= k < |s| ==> b[k] == s[k];
    assert forall k :: 0 <= k < |s| ==> b[..k] == s[..k];
  }
}
