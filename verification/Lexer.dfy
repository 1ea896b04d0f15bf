/**
 * The lexer: one object that moves through a source text and keeps its place, its line
 * and its column as it goes.
 */
module Lexer {
  import opened WordArith
  import opened LexInt
  import opened LexPrint
  import opened LexText
  import LexIndent

  datatype Token =
    | Eof
    | LexError
    | Text(text: seq<char>)
    | Int(value: LexInt)
    | Float(significand: LexInt, digits: nat, exponent: LexInt, negative: bool)
    | Name(text: seq<char>)
    | Fixed(id: nat)        // a keyword or a symbol of the tables
    | Divide | DivideTilde | Constant
    | Nothing               // no token yet: white space or a comment
    | Aborted               // the assertion that input is left has failed

  /** Symbols are matched against at most three characters of input. */
  predicate SymbolTable(table: seq<Entry>) {
    forall k :: 0 <= k < |table| ==>
      1 <= |table[k].text| <= 3 && '\n' !in table[k].text && '\0' !in table[k].text
  }

  class Lexer {
    const source: seq<char>
    const symbols: seq<Entry>
    const keywords: seq<Entry>
    const testSymbols: bool
    /** The forms that symbols take on a new line. */
    const lineForms: map<nat, nat>
    var ptr: nat
    var len: nat
    var line: nat
    var pos: nat
    var newline: bool
    var tokenNewline: bool
    var tokenLine: nat
    var tokenPos: nat
    var buffer: seq<char>
    var errors: nat
    ghost var tokenStart: nat

    constructor (source: seq<char>, symbols: seq<Entry>, keywords: seq<Entry>, lineForms: map<nat, nat>, testSymbols: bool)
      requires SymbolTable(symbols)
      ensures this.source == source && this.symbols == symbols && this.keywords == keywords && this.lineForms == lineForms
      ensures Good() && ptr == 0 && errors == 0 && newline && tokenNewline
    {
      this.source, this.symbols, this.keywords := source, symbols, keywords;
      this.lineForms, this.testSymbols := lineForms, testSymbols;
      newline, tokenNewline := true, true;
      ptr, len, line, pos, errors := 0, |source|, 1, 1, 0;
      tokenLine, tokenPos, tokenStart, buffer := 0, 0, 0, [];
      new;
      assert source[..0] == [];
    }

    ghost predicate Valid()
      reads this`ptr, this`len
    {
      ptr + len == |source|
    }

    /** Line and column are those of the text that has been consumed. */
    ghost predicate Synced()
      reads this`ptr, this`line, this`pos
    {
      ptr <= |source| && line == Line(source[..ptr]) && pos == Column(source[..ptr])
    }

    /** Positions are exact until the first error is reported. */
    ghost predicate Good()
      reads this`ptr, this`len, this`line, this`pos, this`errors
    {
      Valid() && (errors == 0 ==> Synced())
    }

    ghost function Rest(): (s: seq<char>)
      reads this`ptr, this`len
      requires Valid()
      ensures |s| == len && (len > 0 ==> s[0] == source[ptr])
    {
      source[ptr..]
    }

    predicate EndsInBackslash() {
      source != [] && source[|source| - 1] == '\\'
    }

    // ----- Looking and consuming

    function Look(n: nat): (c: char)
      reads this`ptr, this`len
      requires n > 0 && Valid()
      ensures c == At(Rest(), n - 1)
    {
      if len < n then '\0' else source[ptr + n - 1]
    }

    method Consume(count: nat)
      requires Valid() && count <= len
      modifies this`ptr, this`len, this`line, this`pos
      ensures Valid() && ptr == old(ptr) + count && Rest() == old(Rest())[count..]
      ensures count > 0 && source[old(ptr)] == '\n' ==> line == old(line) + 1
      ensures count == 0 || source[old(ptr)] != '\n' ==> line == old(line)
      ensures old(Synced()) && (forall k :: old(ptr) < k < ptr ==> source[k] != '\n') ==> Synced()
    {
      if count == 0 {
        return;
      }
      ghost var before, taken := source[..ptr], source[ptr..ptr + count];
      if forall k :: ptr < k < ptr + count ==> source[k] != '\n' {
        assert taken[0] == source[ptr];
        ColumnAfter(before, taken);
        assert source[..ptr + count] == before + taken;
      }
      if source[ptr] == '\n' {
        line := line + 1;
        pos := 0;
      }
      ptr := ptr + count;
      len := len - count;
      pos := pos + count;
    }

    method ConsumeOne()
      requires Good() && len > 0
      modifies this`ptr, this`len, this`line, this`pos
      ensures Good() && ptr == old(ptr) + 1 && Rest() == old(Rest())[1..]
      ensures line == old(line) + (if old(Rest())[0] == '\n' then 1 else 0)
    {
      Consume(1);
    }

    method DoesNotTerminate() returns (t: Token)
      requires Valid()
      modifies this`ptr, this`len, this`errors
      ensures Good() && len == 0 && ptr >= old(ptr) && errors == old(errors) + 1 && t == LexError
    {
      errors := errors + 1;
      ptr := ptr + len;
      len := 0;
      t := LexError;
    }

    // ----- Comments

    method NestedComment() returns (t: Token)
      requires Good() && len >= 2 && source[ptr] == '/' && source[ptr + 1] == '*'
      modifies this`ptr, this`len, this`line, this`pos, this`errors, this`newline
      ensures Good()
      ensures var n := CommentLength(old(Rest())[2..], 1);
              if n < 0 then t == LexError && len == 0 && errors == old(errors) + 1 && newline == old(newline)
              else t == Nothing && ptr == old(ptr) + 2 + n && errors == old(errors) && !newline
      ensures ptr > old(ptr)
    {
      hide CommentLength, Synced, Rest;
      t := SkipComment();
      if t.Nothing? {
        newline := false;
      }
    }

    method SkipComment() returns (t: Token)
      requires Good() && len >= 2 && source[ptr] == '/' && source[ptr + 1] == '*'
      modifies this`ptr, this`len, this`line, this`pos, this`errors
      ensures Good()
      ensures var n := CommentLength(old(Rest())[2..], 1);
              if n < 0 then t == LexError && len == 0 && errors == old(errors) + 1
              else t == Nothing && ptr == old(ptr) + 2 + n && errors == old(errors)
      ensures ptr > old(ptr)
    {
      hide CommentLength, Synced;
      ghost var s, total := Rest()[2..], CommentLength(Rest()[2..], 1);
      Consume(2);
      var depth := 1;
      while depth > 0
        invariant Good() && errors == old(errors) && ptr >= old(ptr) + 2
        invariant total == Onward(ptr - old(ptr) - 2, CommentLength(Rest(), depth))
        decreases len
      {
        CommentStep(Rest(), depth);
        if len <= 1 {
          t := DoesNotTerminate();
          return;
        }
        if Look(1) == '*' && Look(2) == '/' {
          Consume(2);
          depth := depth - 1;
        } else if Look(1) == '/' && Look(2) == '*' {
          Consume(2);
          depth := depth + 1;
        } else {
          ConsumeOne();
        }
      }
      CommentOver(Rest());
      t := Nothing;
    }

    method LineComment() returns (t: Token)
      requires Good() && len >= 2 && source[ptr] == '/' && source[ptr + 1] == '/'
      modifies this`ptr, this`len, this`line, this`pos
      ensures Good() && t == Nothing && ptr == old(ptr) + 2 + ToNewline(old(Rest())[2..])
    {
      hide Synced, ToNewline;
      Consume(2);
      ghost var n := ToNewline(Rest());
      while len > 0 && Look(1) != '\n'
        invariant Good() && ptr >= old(ptr) + 2 && n == ptr - old(ptr) - 2 + ToNewline(Rest())
        decreases len
      {
        NewlineStep(Rest());
        ConsumeOne();
      }
      NewlineStep(Rest());
      t := Nothing;
    }

    method Slash() returns (t: Token)
      requires Good() && len > 0 && source[ptr] == '/'
      modifies this`ptr, this`len, this`line, this`pos, this`errors, this`newline
      ensures newline == if t.Nothing? then FreshAfter(old(Rest()), old(newline)) else old(newline)
      ensures Good() && ptr > old(ptr)
      ensures t in {Nothing, Divide, DivideTilde, LexError}
      ensures t.LexError? ==> errors == old(errors) + 1
      ensures !t.LexError? ==> errors == old(errors)
      ensures t.Nothing? <==> Gap(old(Rest())) > 0
      ensures t.Nothing? ==> ptr == old(ptr) + Gap(old(Rest()))
      ensures t.Divide? ==> ptr == old(ptr) + 1
      ensures t.DivideTilde? ==> ptr == old(ptr) + 2
      ensures t.DivideTilde? <==> At(old(Rest()), 1) == '~'
      ensures t.LexError? <==> At(old(Rest()), 1) == '*' && Gap(old(Rest())) == 0
    {
      hide Synced, CommentLength, ToNewline;
      var c := Look(2);
      if c == '*' {
        t := NestedComment();
      } else if c == '/' {
        t := LineComment();
      } else if c == '~' {
        ConsumeTwo();
        t := DivideTilde;
      } else {
        ConsumeOne();
        t := Divide;
      }
    }

    // ----- Escape sequences

    method ReadHexEscape(length: nat) returns (value: int)
      requires Good()
      modifies this`ptr, this`len, this`line, this`pos
      ensures Good()
      ensures var e := HexEscape(old(Rest()), length, 0);
              ptr == old(ptr) + e.used && value == if e.value < 0 then -2 - e.used else e.value
    {
      hide HexEscape, Synced;
      var acc: nat := 0;
      var textLen := 2;
      ghost var e := HexEscape(Rest(), length, 0);
      var i := 0;
      while i < length
        invariant i <= length && Good() && ptr == old(ptr) + i && textLen == 2 + i
        invariant var f := HexEscape(Rest(), length - i, acc);
                  e == f.(used := i + f.used)
      {
        HexStep(Rest(), length - i, acc);
        var c := Look(1);
        var digit := 0;
        if '0' <= c <= '9' {
          digit := c as int - '0' as int;
        } else if 'a' <= c <= 'f' {
          digit := c as int + 10 - 'a' as int;
        } else if 'A' <= c <= 'F' {
          digit := c as int + 10 - 'A' as int;
        } else {
          return -textLen;
        }
        textLen := textLen + 1;
        ConsumeOne();
        acc := acc * 16 + digit;
        i := i + 1;
      }
      HexOver(Rest(), acc);
      return acc;
    }

    /** An escape sequence; -1 if it is bad. Aborts if the backslash is the last character. */
    method ReadEscape(unicode: bool, isString: bool) returns (value: int, abort: bool)
      requires Good() && len > 0 && source[ptr] == '\\'
      modifies this`ptr, this`len, this`line, this`pos, this`errors
      ensures Good() && (abort <==> old(len) < 2)
      ensures abort ==> value == -1 && ptr == old(ptr) && errors == old(errors)
      ensures !abort ==>
                var e := EscapeAt(old(Rest()), unicode, isString);
                value == e.value && ptr == old(ptr) + e.used && Rest() == old(Rest())[e.used..] &&
                errors == old(errors) + (if e.value < 0 then 1 else 0)
    {
      value := -1;
      abort := len < 2;
      if abort {
        return;
      }
      ghost var e := EscapeAt(Rest(), unicode, isString);
      ghost var s := Rest();
      assert e.value >= 0 ==> source[ptr + 1] != '\n' by {
        assert e.value >= 0 ==> s[1] in s[..e.used];
      }
      hide Synced, HexEscape;
      var c := Look(2);
      value := -2;
      var hexDigits := 0;
      match c {
        case 'a' => value := 0x07;
        case 'b' => value := 0x08;
        case 'e' => value := 0x1B;
        case 'f' => value := 0x0C;
        case 'n' => value := 0x0A;
        case 'r' => value := 0x0D;
        case 't' => value := 0x09;
        case 'v' => value := 0x0B;
        case '\\' => value := 0x5C;
        case '0' => value := 0x00;
        case 'x' => hexDigits := 2;
        case '\"' => if isString { value := 0x22; }
        case '\'' => if !isString { value := 0x27; }
        case 'u' => if unicode { hexDigits := 4; }
        case 'U' => if unicode { hexDigits := 6; }
        case _ =>
      }
      Consume(2);
      if hexDigits > 0 {
        value := ReadHexEscape(hexDigits);
        if value < 0 || value > 0x10FFFF {
          errors := errors + 1;
          return -1, false;
        }
      }
      if value < 0 {
        errors := errors + 1;
        return -1, false;
      }
    }

    // ----- Strings

    method ReadString() returns (t: Token)
      requires Good() && len > 0 && source[ptr] == '\"' && buffer == []
      requires !(Quotes <= Rest())
      modifies this`ptr, this`len, this`line, this`pos, this`errors, this`buffer
      ensures Good()
      ensures StringAt(old(Rest())[1..], t, ptr - old(ptr) - 1)
      ensures t.Text? ==> errors == old(errors) + ScanString(old(Rest())[1..]).bad
      ensures t.LexError? ==> errors > old(errors)
      ensures (t.Text? || t.LexError? || t.Aborted?) && (t.Aborted? ==> EndsInBackslash())
      ensures (t.Aborted? || ptr > old(ptr)) && ptr >= old(ptr) && errors >= old(errors)
    {
      hide ScanString, EscapeAt, Utf8, Synced, Rest;
      ConsumeOne();
      ghost var r := ScanString(Rest());
      while true
        invariant Good() && errors >= old(errors) && ptr > old(ptr)
        invariant r == ScanString(Rest()).After(buffer, ptr - old(ptr) - 1, errors - old(errors))
        decreases len
      {
        ScanStep(Rest());
        if len == 0 {
          t := DoesNotTerminate();
          return;
        }
        if Look(1) == '\"' {
          ConsumeOne();
          t := Text(buffer);
          return;
        }
        ghost var text, used, bad := buffer, ptr - old(ptr) - 1, errors - old(errors);
        var abort, added := StringPart();
        if abort {
          return Token.Aborted;
        }
        AfterAfter(ScanString(Rest()), text, used, bad, added, ptr - old(ptr) - 1 - used, errors - old(errors) - bad);
        buffer := buffer + added;
      }
    }

    /** One character or escape sequence of a string; a bad escape adds nothing. */
    method StringPart() returns (abort: bool, added: seq<char>)
      requires Good() && len > 0 && source[ptr] != '\"'
      modifies this`ptr, this`len, this`line, this`pos, this`errors
      ensures Good()
      ensures abort ==> ScanString(old(Rest())).end == Ending.Aborted && EndsInBackslash()
      ensures errors >= old(errors) && ptr >= old(ptr) && (!abort ==> ptr > old(ptr))
      ensures !abort ==>
                ScanString(old(Rest())) == ScanString(Rest()).After(added, ptr - old(ptr), errors - old(errors))
    {
      hide ScanString, EscapeAt, Utf8, Synced, Rest;
      ScanStep(Rest());
      added, abort := [], false;
      var c := Look(1);
      if c == '\\' {
        var value;
        value, abort := ReadEscape(true, true);
        if !abort && value >= 0 {
          added := Utf8(value);
        }
      } else {
        added := [c];
        ConsumeOne();
      }
    }

    /** Three quotes have been seen. The text ends at the next three or more. */
    method TripleString() returns (t: Token)
      requires Good() && Quotes <= Rest() && buffer == []
      modifies this`ptr, this`len, this`line, this`pos, this`errors, this`buffer
      ensures Good() && ptr > old(ptr)
      ensures TripleAt(old(Rest())[3..], t, ptr - old(ptr) - 3)
      ensures if t.LexError? then errors == old(errors) + 1 else t.Text? && errors == old(errors)
    {
      hide Synced, TripleEnd, QuoteRun, TextOnFirstLine, LexIndent.Normal, Rest, TripleAt;
      ghost var s := Rest()[3..];
      ConsumeQuotes();
      var startLine := line;
      var found, nonSpace := ScanTriple();
      if !found {
        t := DoesNotTerminate();
        TripleOpen(s, ptr - old(ptr) - 3);
        return;
      }
      QuotesFollow(s);
      t := CloseTriple(startLine, nonSpace, s);
    }

    /** The quotes that close a triple-quoted string, and what its text becomes. */
    method CloseTriple(startLine: nat, nonSpace: bool, ghost s: seq<char>) returns (t: Token)
      requires Good() && Quotes <= Rest() && TripleEnd(s) < |s| && Rest() == s[TripleEnd(s)..]
      requires buffer == s[..TripleEnd(s)]
      requires (line > startLine <==> '\n' in buffer) && (nonSpace <==> TextOnFirstLine(buffer))
      modifies this`ptr, this`len, this`line, this`pos, this`errors, this`buffer
      ensures Good() && ptr >= old(ptr)
      ensures TripleAt(s, t, TripleEnd(s) + ptr - old(ptr))
      ensures if t.LexError? then errors == old(errors) + 1 else t.Text? && errors == old(errors)
    {
      hide Synced, TripleEnd, QuoteRun, TextOnFirstLine, LexIndent.Normal, Rest, TripleAt;
      ghost var n := TripleEnd(s);
      ConsumeQuotes();
      DropDrop(s, n, 3);
      MoreQuotes();
      ghost var more := QuoteRun(s[n + 3..]);
      if line > startLine && nonSpace {
        errors := errors + 1;
        TripleClosed(s, n, more, LexError);
        return LexError;
      }
      NormaliseBuffer();
      t := Text(buffer);
      TripleClosed(s, n, more, t);
    }

    lemma QuotesFollow(s: seq<char>)
      ensures TripleEnd(s) < |s| ==> Quotes <= s[TripleEnd(s)..]
    {
    }

    lemma TripleOpen(s: seq<char>, n: int)
      requires TripleEnd(s) == |s|
      ensures TripleAt(s, LexError, n)
    {
    }

    lemma TripleClosed(s: seq<char>, n: nat, more: nat, t: Token)
      requires n == TripleEnd(s) < |s| && |s| >= n + 3 && more == QuoteRun(s[n + 3..])
      requires if '\n' in s[..n] && TextOnFirstLine(s[..n]) then t == LexError
               else t.Text? && LexIndent.Normal(s[..n] + s[n + 3..][..more], t.text)
      ensures TripleAt(s, t, n + 3 + more)
    {
    }

    method ConsumeQuotes()
      requires Good() && Quotes <= Rest()
      modifies this`ptr, this`len, this`line, this`pos
      ensures Good() && ptr == old(ptr) + 3 && Rest() == old(Rest())[3..] && line == old(line)
    {
      hide Synced;
      assert forall k :: 0 <= k < 3 ==> source[ptr + k] == Rest()[k] == Quotes[k];
      Consume(3);
    }

    method ScanTriple() returns (found: bool, nonSpace: bool)
      requires Good() && buffer == []
      modifies this`ptr, this`len, this`line, this`pos, this`buffer
      ensures Good() && ptr == old(ptr) + |buffer|
      ensures var n := TripleEnd(old(Rest()));
              buffer == old(Rest())[..n] && Rest() == old(Rest())[n..]
      ensures found <==> |buffer| < |old(Rest())|
      ensures line > old(line) <==> '\n' in buffer
      ensures nonSpace <==> TextOnFirstLine(buffer)
    {
      hide Synced, TripleEnd, TextOnFirstLine, Rest;
      var startLine := line;
      nonSpace := false;
      FirstLineStep([], ' ');
      ghost var all := Rest();
      while true
        invariant Good() && ptr == old(ptr) + |buffer| && buffer + Rest() == all
        invariant TripleEnd(all) == |buffer| + TripleEnd(Rest())
        invariant line >= startLine && (line > startLine <==> '\n' in buffer)
        invariant nonSpace <==> TextOnFirstLine(buffer)
        decreases len
      {
        TripleStep(Rest());
        if len == 0 {
          Parts(buffer, Rest());
          return false, nonSpace;
        }
        var c, c2, c3 := Look(1), Look(2), Look(3);
        if c == '\"' && c2 == '\"' && c3 == '\"' {
          Parts(buffer, Rest());
          return true, nonSpace;
        }
        FirstLineStep(buffer, c);
        if line == startLine && !IsSpace(c) {
          nonSpace := true;
        }
        KeepOne(c);
      }
    }

    /** Moves the next character to the buffer. */
    method KeepOne(c: char)
      requires Good() && len > 0 && c == At(Rest(), 0)
      modifies this`ptr, this`len, this`line, this`pos, this`buffer
      ensures Good() && ptr == old(ptr) + 1 && Rest() == old(Rest())[1..] && buffer == old(buffer) + [c]
      ensures buffer + Rest() == old(buffer) + old(Rest())
      ensures line == old(line) + (if c == '\n' then 1 else 0)
    {
      hide Synced, Rest;
      MoveOne(buffer, Rest());
      ConsumeOne();
      buffer := buffer + [c];
    }

    /** Quotes beyond the closing three belong to the text. */
    method MoreQuotes()
      requires Good()
      modifies this`ptr, this`len, this`line, this`pos, this`buffer
      ensures Good() && line == old(line)
      ensures var more := QuoteRun(old(Rest()));
              ptr == old(ptr) + more && buffer == old(buffer) + old(Rest())[..more]
    {
      hide Synced, QuoteRun, Rest;
      while Look(1) == '\"'
        invariant Good() && line == old(line) && ptr >= old(ptr)
        invariant QuoteRun(old(Rest())) == ptr - old(ptr) + QuoteRun(Rest())
        invariant buffer == old(buffer) + old(Rest())[..ptr - old(ptr)]
        decreases len
      {
        QuoteStep(Rest());
        buffer := buffer + ['\"'];
        ConsumeOne();
      }
      QuoteStep(Rest());
    }

    method NormaliseBuffer()
      modifies this`buffer
      ensures LexIndent.Normal(old(buffer), buffer)
    {
      hide LexIndent.Normal;
      var text := buffer;
      var a := new char[|text|](i requires 0 <= i < |text| => text[i]);
      assert a[..|text|] == text;
      var length := LexIndent.Normalise(a, |text|);
      buffer := a[..length];
    }

    // ----- Character literals

    method ReadCharacter() returns (t: Token)
      requires Good() && len > 0 && source[ptr] == '\''
      modifies this`ptr, this`len, this`line, this`pos, this`errors
      ensures Good() && (t.Aborted? || ptr > old(ptr)) && ptr >= old(ptr) && errors >= old(errors)
      ensures CharacterAt(old(Rest())[1..], t, ptr - old(ptr) - 1)
      ensures t.Int? ==> errors == old(errors) + ScanCharacter(old(Rest())[1..]).bad
      ensures t.LexError? ==> errors > old(errors)
      ensures (t.Int? || t.LexError? || t.Aborted?) && (t.Aborted? ==> EndsInBackslash())
    {
      hide ScanCharacter, EscapeAt, Number, Val, Synced, Rest, CharacterAt, Codes.After;
      ConsumeOne();
      ghost var all := Rest();
      ghost var r := ScanCharacter(all);
      var count, value := 0, Zero;
      ghost var codes: seq<nat> := [];
      NoCodes();
      AfterNothing(r);
      while true
        invariant Good() && errors >= old(errors) && ptr > old(ptr) && count >= 0
        invariant r == ScanCharacter(Rest()).After(codes, count, ptr - old(ptr) - 1, errors - old(errors))
        invariant Val(value) == Number(0, codes, 256) % Two128
        decreases len
      {
        CharacterStep(Rest());
        AfterIs(ScanCharacter(Rest()), codes, count, ptr - old(ptr) - 1, errors - old(errors));
        if len == 0 {
          t := DoesNotTerminate();
          CharacterIs(all, t, ptr - old(ptr) - 1);
          return;
        }
        if Look(1) == '\'' {
          assert codes + [] == codes;
          t := CloseCharacter(count, value);
          CharacterIs(all, t, ptr - old(ptr) - 1);
          return;
        }
        ghost var used, bad := ptr - old(ptr) - 1, errors - old(errors);
        var abort, c := CharacterPart();
        if abort {
          CharacterIs(all, Token.Aborted, ptr - old(ptr) - 1);
          return Token.Aborted;
        }
        assert codes + [] == codes;
        ghost var added: seq<nat> := if c >= 0 then [c] else [];
        CodesAfter(ScanCharacter(Rest()), codes, count, used, bad,
                   added, 1, ptr - old(ptr) - 1 - used, errors - old(errors) - bad);
        count := count + 1;
        if c >= 0 {
          AppendCode(value, codes, c);
          value := AppendChar(value, c);
        }
        codes := codes + added;
      }
    }

    lemma CharacterIs(s: seq<char>, t: Token, n: int)
      ensures var r := ScanCharacter(s);
              (r.end.Closed? && r.count == 0 && t == LexError && n == r.used ==> CharacterAt(s, t, n)) &&
              (r.end.Closed? && r.count > 0 && t.Int? && Val(t.value) == Number(0, r.codes, 256) % Two128 && n == r.used ==>
                CharacterAt(s, t, n)) &&
              (r.end.Open? && t == LexError ==> CharacterAt(s, t, n)) &&
              (r.end.Aborted? && t == Token.Aborted ==> CharacterAt(s, t, n))
    {
    }

    method CloseCharacter(count: nat, value: LexInt) returns (t: Token)
      requires Good() && len > 0
      modifies this`ptr, this`len, this`line, this`pos, this`errors
      ensures Good() && ptr == old(ptr) + 1
      ensures t == if count == 0 then LexError else Int(value)
      ensures errors == old(errors) + (if count == 0 then 1 else 0)
    {
      hide Synced, Rest;
      ConsumeOne();
      if count == 0 {
        errors := errors + 1;
        t := LexError;
      } else {
        t := Int(value);
      }
    }

    /** One character of a character literal; -1 for a bad escape. */
    method CharacterPart() returns (abort: bool, c: int)
      requires Good() && len > 0 && source[ptr] != '\''
      modifies this`ptr, this`len, this`line, this`pos, this`errors
      ensures Good() && c < 256
      ensures abort ==> ScanCharacter(old(Rest())).end == Ending.Aborted && EndsInBackslash()
      ensures errors >= old(errors) && ptr >= old(ptr) && (!abort ==> ptr > old(ptr))
      ensures !abort ==>
                ScanCharacter(old(Rest())) ==
                ScanCharacter(Rest()).After(if c >= 0 then [c] else [], 1, ptr - old(ptr), errors - old(errors))
    {
      hide ScanCharacter, EscapeAt, Synced, Rest;
      CharacterStep(Rest());
      abort := false;
      c := Look(1) as int % 256;
      if Look(1) == '\\' {
        c, abort := ReadEscape(false, false);
      } else {
        ConsumeOne();
      }
    }

    // ----- Numbers

    /** Digits of a base, appended to a number; fails when they are malformed or too many. */
    method LexInteger(base: nat, before: LexInt, endOnE: bool) returns (ok: bool, value: LexInt, count: nat)
      requires Good() && 2 <= base <= 36
      modifies this`ptr, this`len, this`line, this`pos, this`errors
      ensures Good() && ptr >= old(ptr)
      ensures old(len) > 0 && IsDigit(old(Rest())[0]) && DigitValue(old(Rest())[0]) < base && before == Zero ==>
                ptr > old(ptr)
      ensures var r := ReadInteger(old(Rest()), Val(before), base, endOnE);
              match r
              case Unreadable => !ok && errors == old(errors) + 1
              case Read(n, digits, used) =>
                ok && errors == old(errors) && Val(value) == n && count == digits &&
                ptr == old(ptr) + used && Rest() == old(Rest())[used..]
    {
      hide Number, Val, Synced, Rest, ReadInteger, ReadSoFar, DigitValues, DigitValue;
      ValZero();
      ghost var all := Rest();
      var underscore := false;
      value, count := before, 0;
      ghost var n := 0;
      NothingRead(all, before, base, endOnE);
      while len > 0
        invariant Good() && errors == old(errors) && n <= |all| && ptr == old(ptr) + n && Rest() == all[n..]
        invariant n == 0 ==> value == before && !underscore
        invariant ReadSoFar(all, n, Val(before), base, endOnE, Val(value), count, underscore)
        decreases len
      {
        var c := Look(1);
        assert c == all[n];
        ReadOne(all, n, Val(before), base, endOnE, Val(value), count, underscore);
        if c == '_' {
          if underscore {
            errors := errors + 1;
            return false, value, count;
          }
          underscore := true;
          ConsumeOne();
          n := n + 1;
          continue;
        }
        if endOnE && (c == 'e' || c == 'E') {
          break;
        }
        if !IsDigit(c) && !IsAlpha(c) {
          break;
        }
        var digit := DigitValue(c);
        if digit >= base {
          errors := errors + 1;
          return false, value, count;
        }
        var fits, next := Accum(value, digit, base);
        if !fits {
          errors := errors + 1;
          return false, value, count;
        }
        value := next;
        underscore := false;
        ConsumeOne();
        count := count + 1;
        n := n + 1;
      }
      ReadAll(all, n, Val(before), base, endOnE, Val(value), count, underscore);
      if count == 0 || underscore {
        errors := errors + 1;
        return false, value, count;
      }
      ok := true;
    }

    /** The token that a number literal becomes. */
    ghost predicate IsShape(t: Token, shape: Shape) {
      match shape
      case Whole(value, _) => t.Int? && Val(t.value) == value
      case Real(significand, digits, exponent, negative, _) =>
        t.Float? && Val(t.significand) == significand && t.digits == digits &&
        Val(t.exponent) == exponent && t.negative == negative
      case Malformed => t == LexError
    }

    method ReadNumber() returns (t: Token)
      requires Good() && len > 0 && IsDigit(source[ptr])
      modifies this`ptr, this`len, this`line, this`pos, this`errors
      ensures Good() && ptr > old(ptr)
      ensures t.Int? || t.Float? || t.LexError?
      ensures var shape := NumberAt(old(Rest()));
              IsShape(t, shape) &&
              if shape.Malformed? then errors == old(errors) + 1
              else errors == old(errors) && ptr == old(ptr) + shape.used
    {
      hide Synced, Rest, ReadInteger, Val, RealAt;
      var base := 10;
      if Look(1) == '0' {
        var c := Look(2);
        if c == 'x' || c == 'X' {
          base := 16;
        } else if c == 'b' || c == 'B' {
          base := 2;
        }
      }
      ghost var all := Rest();
      assert base == BaseAt(all);
      hide BaseAt, NumberAt;
      var ok, value, count;
      ValZero();
      NumberIs(all);
      if base != 10 {
        ConsumeTwo();
        ok, value, count := LexInteger(base, Zero, false);
        t := if ok then Int(value) else LexError;
        return;
      }
      ok, value, count := LexInteger(10, Zero, true);
      if !ok {
        return LexError;
      }
      ghost var used := ptr - old(ptr);
      AtDrop(all, used, 0);
      if Look(1) == '.' || Look(1) == 'e' || Look(1) == 'E' {
        t := ReadReal(value, all, used);
      } else {
        t := Int(value);
      }
    }

    /** Two characters of which the second is not a newline. */
    method ConsumeTwo()
      requires Good() && len >= 2 && Rest()[1] != '\n'
      modifies this`ptr, this`len, this`line, this`pos
      ensures Good() && ptr == old(ptr) + 2 && Rest() == old(Rest())[2..]
    {
      Consume(2);
    }

    /** The rest of a real literal; `used` characters of s have been read as its integral part. */
    method ReadReal(integral: LexInt, ghost s: seq<char>, ghost used: nat) returns (t: Token)
      requires Good() && used <= |s| && Rest() == s[used..] && len > 0
      requires Look(1) == '.' || Look(1) == 'e' || Look(1) == 'E'
      modifies this`ptr, this`len, this`line, this`pos, this`errors
      ensures Good() && ptr >= old(ptr)
      ensures var shape := RealAt(s, Val(integral), used);
              IsShape(t, shape) &&
              if shape.Malformed? then errors == old(errors) + 1
              else errors == old(errors) && ptr == old(ptr) + shape.used - used
    {
      hide Synced, Rest, ReadInteger, Val, ExponentAt;
      var significand, digits := integral, 0;
      ghost var at := used;
      if Look(1) == '.' {
        var c := Look(2);
        assert c == At(s, used + 1);
        if c < '0' || c > '9' {
          return Int(integral);
        }
        ConsumeOne();
        DropDrop(s, used, 1);
        var ok;
        ok, significand, digits := LexInteger(10, significand, true);
        if !ok {
          return LexError;
        }
        at := used + (ptr - old(ptr));
        DropDrop(s, used + 1, at - used - 1);
      }
      t := ReadExponent(significand, digits, s, at);
    }

    method ReadExponent(significand: LexInt, digits: nat, ghost s: seq<char>, ghost used: nat) returns (t: Token)
      requires Good() && used <= |s| && Rest() == s[used..]
      modifies this`ptr, this`len, this`line, this`pos, this`errors
      ensures Good() && ptr >= old(ptr)
      ensures var shape := ExponentAt(s, Val(significand), digits, used);
              IsShape(t, shape) &&
              if shape.Malformed? then errors == old(errors) + 1
              else errors == old(errors) && ptr == old(ptr) + shape.used - used
    {
      hide Synced, Rest, ReadInteger, Val, ExponentAt, At;
      ValZero();
      ExponentIs(s, Val(significand), digits, used);
      AtDrop(s, used, 0);
      if Look(1) != 'e' && Look(1) != 'E' {
        return Float(significand, digits, Zero, false);
      }
      ConsumeOne();
      DropDrop(s, used, 1);
      var c, negative := Look(1), false;
      AtDrop(s, used + 1, 0);
      if c == '+' || c == '-' {
        negative := c == '-';
        ConsumeOne();
        DropDrop(s, used + 1, 1);
      }
      var ok, e, count := LexInteger(10, Zero, false);
      if !ok {
        return LexError;
      }
      t := Float(significand, digits, e, negative);
    }

    // ----- Names, keywords and symbols

    /** Appends the name that comes next to the buffer, without consuming it. */
    method ReadName() returns (n: nat)
      requires Good()
      modifies this`buffer
      ensures n == NameLength(old(Rest())) && buffer == old(buffer) + old(Rest())[..n]
    {
      hide Synced, Rest, NameLength;
      n := 0;
      ghost var all := Rest();
      while true
        invariant n <= |all| && NameLength(all) == n + NameLength(all[n..]) && buffer == old(buffer) + all[..n]
        decreases |all| - n
      {
        NameStep(all, n);
        var c := Look(n + 1);
        if c != '_' && c != '\'' && !IsDigit(c) && !IsAlpha(c) {
          return;
        }
        buffer := buffer + [c];
        n := n + 1;
      }
    }

    /** A keyword, or a name where names are allowed; consumes nothing if neither is found. */
    method ReadKeyword(allowNames: bool) returns (t: Token)
      requires Good()
      modifies this`ptr, this`len, this`line, this`pos, this`buffer
      ensures Good()
      ensures var n := NameLength(old(Rest()));
              var word := old(buffer) + old(Rest())[..n];
              var k := FindText(keywords, word);
              if k < |keywords| then t == Fixed(keywords[k].id) && ptr == old(ptr) + n
              else if allowNames && n > 0 then t == Name(word) && ptr == old(ptr) + n
              else t == Nothing && ptr == old(ptr)
    {
      hide Synced, Rest, NameLength, FindText;
      var n := ReadName();
      ghost var word := buffer;
      assert '\n' !in Rest()[..n];
      var k := 0;
      assert keywords[0..] == keywords;
      while k < |keywords|
        invariant Good() && ptr == old(ptr) && buffer == word && Rest() == old(Rest())
        invariant k <= |keywords| && FindText(keywords, buffer) == k + FindText(keywords[k..], buffer)
      {
        TextStep(keywords, k, buffer);
        if keywords[k].text == buffer {
          ConsumeWord(n);
          return Fixed(keywords[k].id);
        }
        k := k + 1;
      }
      if allowNames && n > 0 {
        ConsumeWord(n);
        return Name(buffer);
      }
      t := Nothing;
    }

    /** Several characters, none of them a newline. */
    method ConsumeWord(n: nat)
      requires Good() && n <= len && '\n' !in Rest()[..n]
      modifies this`ptr, this`len, this`line, this`pos
      ensures Good() && ptr == old(ptr) + n
    {
      hide Synced;
      assert forall k :: ptr < k < ptr + n ==> source[k] == Rest()[..n][k - ptr];
      Consume(n);
    }

    method ReadHash() returns (t: Token)
      requires Good() && len > 0 && source[ptr] == '#' && buffer == []
      modifies this`ptr, this`len, this`line, this`pos, this`buffer
      ensures Good() && ptr > old(ptr) && (t.Fixed? || t.Constant?)
      ensures HashAt(old(Rest()), t, ptr - old(ptr))
    {
      hide Synced, Rest, NameLength, FindText;
      buffer := buffer + [Look(1)];
      ConsumeOne();
      t := ReadKeyword(false);
      if t.Nothing? {
        t := Constant;
      }
    }

    method ReadDollar() returns (t: Token)
      requires Good() && len > 0 && source[ptr] == '$' && buffer == []
      modifies this`ptr, this`len, this`line, this`pos, this`buffer, this`errors
      ensures Good() && ptr > old(ptr)
      ensures t.Fixed? || t.Name? || t.LexError?
      ensures errors == old(errors) + (if t.LexError? then 1 else 0)
      ensures DollarAt(old(Rest()), t, ptr - old(ptr))
    {
      hide Synced, Rest, NameLength, FindText;
      buffer := buffer + [Look(1)];
      ConsumeOne();
      if testSymbols {
        t := ReadKeyword(true);
        if !t.Nothing? {
          return;
        }
      }
      errors := errors + 1;
      t := LexError;
    }

    method ReadSymbol() returns (t: Token)
      requires Good() && len > 0 && SymbolTable(symbols)
      modifies this`ptr, this`len, this`line, this`pos, this`errors
      ensures Good() && ptr > old(ptr) && errors >= old(errors)
      ensures SymbolAt(old(Rest()), t, ptr - old(ptr), newline)
      ensures if t.Fixed? then errors == old(errors) else t.LexError? && errors == old(errors) + 1
    {
      hide Synced, Rest, FindSymbol, OnLine;
      var sym := [Look(1), Look(2), Look(3)];
      var k := 0;
      assert symbols[0..] == symbols;
      while k < |symbols|
        invariant k <= |symbols| && ptr == old(ptr) && Good()
        invariant FindSymbol(symbols, Rest()) == k + FindSymbol(symbols[k..], Rest())
        invariant errors == old(errors)
      {
        SymbolStep(symbols, k, Rest());
        var text := symbols[k].text;
        var i := 0;
        while i < |text| && text[i] == sym[i]
          invariant i <= |text|
          invariant forall j :: 0 <= j < i ==> text[j] == sym[j]
        {
          i := i + 1;
        }
        MatchSymbol(text, sym, Rest(), i);
        if i == |text| {
          ConsumeWord(i);
          return Fixed(OnLine(symbols[k].id, newline));
        }
        k := k + 1;
      }
      errors := errors + 1;
      ConsumeOne();
      t := LexError;
    }

    // ----- The next token

    /** The text s starts with the token t, of n characters; a symbol may depend on whether
        it is the first thing on a line. */
    ghost predicate TokenAt(s: seq<char>, t: Token, n: nat, newline: bool) {
      match At(s, 0)
      case '/' =>
        if At(s, 1) == '*' then t == LexError
        else if At(s, 1) == '~' then t == DivideTilde && n == 2
        else t == Divide && n == 1
      case '\"' => if Quotes <= s then TripleAt(s[3..], t, n - 3) else StringAt(s[1..], t, n - 1)
      case '\'' => CharacterAt(s[1..], t, n - 1)
      case '#' => HashAt(s, t, n)
      case '$' => DollarAt(s, t, n)
      case c =>
        if IsDigit(c) then IsShape(t, NumberAt(s)) && (NumberAt(s).Malformed? || n == NumberAt(s).used)
        else if IsAlpha(c) || c == '_' then NameAt(s, t, n)
        else SymbolAt(s, t, n, newline)
    }

    /** A keyword that starts with a hash, or the hash alone. */
    ghost predicate HashAt(s: seq<char>, t: Token, n: int)
      requires s != []
    {
      var m := NameLength(s[1..]);
      var k := FindText(keywords, [s[0]] + s[1..][..m]);
      if k < |keywords| then t == Fixed(keywords[k].id) && n == 1 + m else t == Constant && n == 1
    }

    /** In test mode a keyword or a name that starts with a dollar; otherwise an error. */
    ghost predicate DollarAt(s: seq<char>, t: Token, n: int)
      requires s != []
    {
      var m := NameLength(s[1..]);
      var word := [s[0]] + s[1..][..m];
      var k := FindText(keywords, word);
      if testSymbols && k < |keywords| then t == Fixed(keywords[k].id) && n == 1 + m
      else if testSymbols && m > 0 then t == Name(word) && n == 1 + m
      else t == LexError && n == 1
    }

    ghost predicate TripleAt(s: seq<char>, t: Token, n: int) {
      var end := TripleEnd(s);
      if end == |s| then t == LexError
      else
        var more := QuoteRun(s[end + 3..]);
        n == end + 3 + more &&
        if '\n' in s[..end] && TextOnFirstLine(s[..end]) then t == LexError
        else t.Text? && LexIndent.Normal(s[..end] + s[end + 3..][..more], t.text)
    }

    ghost predicate StringAt(s: seq<char>, t: Token, n: int) {
      match ScanString(s).end
      case Closed => t == Text(ScanString(s).text) && n == ScanString(s).used
      case Open => t == LexError
      case Aborted => t == Token.Aborted
    }

    /** The errors reported in a string literal that is read to its end. */
    ghost function BadEscapes(s: seq<char>): nat {
      if s == [] || Quotes <= s then 0 else ScanString(s[1..]).bad
    }

    ghost predicate CharacterAt(s: seq<char>, t: Token, n: int) {
      var r := ScanCharacter(s);
      match r.end
      case Closed =>
        n == r.used &&
        if r.count == 0 then t == LexError else t.Int? && Val(t.value) == Number(0, r.codes, 256) % Two128
      case Open => t == LexError
      case Aborted => t == Token.Aborted
    }

    ghost predicate NameAt(s: seq<char>, t: Token, n: nat) {
      n == NameLength(s) &&
      var k := FindText(keywords, s[..n]);
      t == if k < |keywords| then Fixed(keywords[k].id) else Name(s[..n])
    }

    /** The form of a symbol on a new line, if it is on one and has one. */
    function OnLine(id: nat, newline: bool): nat {
      if newline && id in lineForms then lineForms[id] else id
    }

    ghost predicate SymbolAt(s: seq<char>, t: Token, n: nat, newline: bool) {
      var k := FindSymbol(symbols, s);
      if k < |symbols| then t == Fixed(OnLine(symbols[k].id, newline)) && n == |symbols[k].text| else t == LexError && n == 1
    }

    lemma WholeAt(s: seq<char>, t: Token, n: nat, newline: bool)
      requires TokenAt(s, t, n, newline) && s != [] && IsDigit(s[0]) && NumberAt(s).Whole?
      ensures t.Int? && Val(t.value) == NumberAt(s).value
    {
    }

    lemma TextAt(s: seq<char>, t: Token, n: nat, newline: bool)
      requires TokenAt(s, t, n, newline) && s != [] && s[0] == '\"' && !(Quotes <= s) && ScanString(s[1..]).end == Closed
      ensures t == Text(ScanString(s[1..]).text)
    {
    }

    /** The token after any white space and comments, and whether it is on a new line. */
    method Next() returns (t: Token, broken: bool)
      requires Good() && SymbolTable(symbols)
      modifies this
      ensures Good() && errors >= old(errors)
      ensures tokenStart == old(ptr) + Gaps(old(Rest())) && old(ptr) <= tokenStart <= ptr <= |source|
      ensures old(errors) == 0 ==> tokenLine == Line(source[..tokenStart]) && tokenPos == Column(source[..tokenStart])
      ensures t.Eof? <==> tokenStart == |source|
      ensures tokenStart < |source| ==> TokenAt(source[tokenStart..], t, ptr - tokenStart, FreshLine(old(Rest()), old(newline)))
      ensures broken == LineBroken(old(Rest()), old(tokenNewline)) && !newline && !tokenNewline
      ensures t.Text? ==> errors == old(errors) + BadEscapes(source[tokenStart..])
      ensures t.LexError? ==> errors > old(errors)
      ensures errors == old(errors) || t.Text? || t.Int? || t.LexError? || t.Aborted?
      ensures t.Eof? || t.Aborted? || ptr > tokenStart
      ensures t.Aborted? ==> EndsInBackslash()
    {
      hide Gaps, TokenAt, SymbolTable, FreshLine, LineBroken, BadEscapes, Synced;
      t := Advance();
      broken := tokenNewline;
      newline, tokenNewline := false, false;
    }

    method Advance() returns (t: Token)
      requires Good() && SymbolTable(symbols)
      modifies this
      ensures Good() && errors >= old(errors)
      ensures tokenStart == old(ptr) + Gaps(old(Rest())) && old(ptr) <= tokenStart <= ptr <= |source|
      ensures old(errors) == 0 ==> tokenLine == Line(source[..tokenStart]) && tokenPos == Column(source[..tokenStart])
      ensures t.Eof? <==> tokenStart == |source|
      ensures tokenStart < |source| ==> TokenAt(source[tokenStart..], t, ptr - tokenStart, FreshLine(old(Rest()), old(newline)))
      ensures tokenNewline == LineBroken(old(Rest()), old(tokenNewline))
      ensures t.Text? ==> errors == old(errors) + BadEscapes(source[tokenStart..])
      ensures t.LexError? ==> errors > old(errors)
      ensures errors == old(errors) || t.Text? || t.Int? || t.LexError? || t.Aborted?
      ensures t.Eof? || t.Aborted? || ptr > tokenStart
      ensures t.Aborted? ==> EndsInBackslash()
    {
      hide Gaps, Gap, TokenAt, SymbolTable, FreshLine, LineBroken, FreshAfter;
      t := Nothing;
      ghost var all := Rest();
      while true
        invariant Good() && errors == old(errors) && ptr >= old(ptr)
        invariant Gaps(all) == ptr - old(ptr) + Gaps(Rest())
        invariant FreshLine(Rest(), newline) == FreshLine(all, old(newline))
        invariant LineBroken(Rest(), tokenNewline) == LineBroken(all, old(tokenNewline))
        decreases len
      {
        tokenLine, tokenPos, tokenStart := line, pos, ptr;
        GapStep(Rest());
        FreshStep(Rest(), newline, tokenNewline);
        if len == 0 {
          return Eof;
        }
        t := Dispatch();
        if !t.Nothing? {
          return;
        }
      }
    }

    /** One turn: a token, or a step over white space or a comment. */
    method Dispatch() returns (t: Token)
      requires Good() && SymbolTable(symbols) && len > 0
      modifies this`ptr, this`len, this`line, this`pos, this`buffer, this`errors, this`newline, this`tokenNewline
      ensures Good() && errors >= old(errors)
      ensures newline == if t.Nothing? then FreshAfter(old(Rest()), old(newline)) else old(newline)
      ensures tokenNewline == (old(tokenNewline) || (t.Nothing? && At(old(Rest()), 0) == '\n'))
      ensures t.Nothing? <==> Gap(old(Rest())) > 0
      ensures t.Nothing? ==> ptr == old(ptr) + Gap(old(Rest())) && errors == old(errors)
      ensures !t.Nothing? ==> ptr >= old(ptr) && TokenAt(old(Rest()), t, ptr - old(ptr), old(newline))
      ensures !t.Eof? && (t.Aborted? || ptr > old(ptr))
      ensures t.Text? ==> errors == old(errors) + BadEscapes(old(Rest()))
      ensures t.LexError? ==> errors > old(errors)
      ensures errors == old(errors) || t.Text? || t.Int? || t.LexError? || t.Aborted?
      ensures t.Aborted? ==> EndsInBackslash()
    {
      hide Synced, Rest, NumberAt, ScanString, ScanCharacter, FindText, NameLength;
      hide TripleAt, StringAt, CharacterAt, SymbolAt, HashAt, DollarAt, Gap, SymbolTable;
      GapFirst(Rest());
      QuotesFirst(Rest());
      t, buffer := Nothing, [];
      var c := Look(1);
      match c {
        case '\n' =>
          newline, tokenNewline := true, true;
          ConsumeOne();
        case '\r' => ConsumeOne();
        case '\t' => ConsumeOne();
        case ' ' => ConsumeOne();
        case '/' => t := Slash();
        case '\"' =>
          if Look(2) == '\"' && Look(3) == '\"' {
            t := TripleString();
          } else {
            t := ReadString();
          }
        case '\'' => t := ReadCharacter();
        case '#' => t := ReadHash();
        case '$' => t := ReadDollar();
        case _ =>
          if IsDigit(c) {
            t := ReadNumber();
          } else if IsAlpha(c) || c == '_' {
            t := NameOrKeyword();
          } else {
            t := ReadSymbol();
          }
      }
    }

    method NameOrKeyword() returns (t: Token)
      requires Good() && len > 0 && InName(source[ptr]) && buffer == []
      modifies this`ptr, this`len, this`line, this`pos, this`buffer
      ensures Good() && ptr > old(ptr) && (t.Fixed? || t.Name?)
      ensures NameAt(old(Rest()), t, ptr - old(ptr))
    {
      hide Synced, FindText;
      ghost var n := NameLength(Rest());
      assert [] + Rest()[..n] == Rest()[..n];
      t := ReadKeyword(true);
    }

    /** Every token of what is left of the source: reading them always comes to an end. */
    method Tokens() returns (tokens: seq<Token>)
      requires Good() && SymbolTable(symbols)
      modifies this
      ensures Good() && |tokens| > 0
      ensures var last := tokens[|tokens| - 1];
              if last.Eof? then len == 0 else last.Aborted? && EndsInBackslash()
      ensures |tokens| <= old(len) + 1
      ensures forall k :: 0 <= k < |tokens| - 1 ==> !tokens[k].Eof? && !tokens[k].Aborted?
    {
      hide TokenAt, Gaps, Synced, SymbolTable, BadEscapes;
      tokens := [];
      while true
        invariant Good() && |tokens| + len <= old(len)
        invariant forall k :: 0 <= k < |tokens| ==> !tokens[k].Eof? && !tokens[k].Aborted?
        decreases len
      {
        var t, _ := Next();
        tokens := tokens + [t];
        if t.Eof? || t.Aborted? {
          return;
        }
      }
    }
  }

  // ----- Printing and reading back

  /** A printed integer followed by anything that cannot continue it is read as the same two words. */
  method IntegerRoundTrip(value: LexInt, after: seq<char>, symbols: seq<Entry>, keywords: seq<Entry>,
                          lineForms: map<nat, nat>)
      returns (t: Token)
    requires SymbolTable(symbols)
    requires after == [] || (!InRun(after[0], false) && after[0] != '.')
    ensures t == Int(value)
  {
    hide Decimal, NumberAt, Val, SymbolTable, Gaps, FreshLine, LineBroken;
    var printed, n := PrintInteger(value);
    NumberDecimal(Val(value), after);
    FirstDigit(Val(value), after);
    var text := printed[..n] + after;
    var lexer := new Lexer(text, symbols, keywords, lineForms, false);
    hide lexer.TokenAt, lexer.BadEscapes, lexer.Synced;
    assert text[0..] == text && lexer.Rest() == text;
    var broken;
    t, broken := lexer.Next();
    lexer.WholeAt(text, t, lexer.ptr, FreshLine(text, true));
    ValInjective(t.value, value);
  }

  lemma FirstDigit(n: nat, after: seq<char>)
    ensures var s := Decimal(n) + after;
            s != [] && IsDigit(s[0]) && Gaps(s) == 0
  {
    DecimalRead(n);
  }

  /** A string printed with its escapes, in quotes, is read as the same string, with no error. */
  method StringRoundTrip(s: seq<char>, after: seq<char>, symbols: seq<Entry>, keywords: seq<Entry>,
                          lineForms: map<nat, nat>)
      returns (t: Token, errors: nat)
    requires SymbolTable(symbols)
    requires s == [] ==> after == [] || after[0] != '\"'
    ensures t == Text(s) && errors == 0
  {
    hide Escaped, ScanString, SymbolTable, Gaps, FreshLine, LineBroken;
    var escaped, n := PrintEscaped(s);
    var text := ['\"'] + escaped[..n] + ['\"'] + after;
    ScanEscaped(s, after);
    assert text[1..] == Escaped(s) + ['\"'] + after;
    NotTriple(s, after);
    var lexer := new Lexer(text, symbols, keywords, lineForms, false);
    hide lexer.TokenAt, lexer.Synced;
    assert text[0..] == text && lexer.Rest() == text;
    var broken;
    t, broken := lexer.Next();
    lexer.TextAt(text, t, lexer.ptr, FreshLine(text, true));
    errors := lexer.errors;
  }

  lemma NotTriple(s: seq<char>, after: seq<char>)
    requires s == [] ==> after == [] || after[0] != '\"'
    ensures var text := ['\"'] + Escaped(s) + ['\"'] + after;
            !(Quotes <= text) && Gaps(text) == 0
  {
    var text := ['\"'] + Escaped(s) + ['\"'] + after;
    if s == [] {
      assert At(text, 2) == At(after, 0);
    } else {
      EscapedSplit(s);
      assert text[1] == Escaped(s)[0] == EscapedChar(s[0])[0];
    }
    QuotesFirst(text);
    GapFirst(text);
    GapStep(text);
  }
}
