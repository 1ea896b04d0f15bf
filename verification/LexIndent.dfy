/**
 * Triple-quoted strings: the in-place removal of common indentation.
 */
module LexIndent {
  import opened LexText

  // ----- Lines

  /** The length of the first line of s, with its newline. */
  function LineLength(s: seq<char>): (n: nat)
    ensures n <= |s| && (s != [] ==> n > 0)
    ensures '\n' in s ==> n > 0 && s[n - 1] == '\n' && '\n' !in s[..n - 1]
    ensures '\n' !in s ==> n == |s|
  {
    if s == [] then 0 else if s[0] == '\n' then 1 else 1 + LineLength(s[1..])
  }

  function Lines(s: seq<char>): seq<seq<char>> {
    if s == [] then [] else [s[..LineLength(s)]] + Lines(s[LineLength(s)..])
  }

  predicate IsBlank(c: char) { c == ' ' || c == '\t' }

  /** The number of spaces and tabs that a line starts with. */
  function Blanks(line: seq<char>): (n: nat)
    ensures n <= |line|
    ensures forall k :: 0 <= k < n ==> IsBlank(line[k])
    ensures n < |line| ==> !IsBlank(line[n])
  {
    if line == [] || !IsBlank(line[0]) then 0 else 1 + Blanks(line[1..])
  }

  /** Lines that take part in the common indentation: the first non-blank is not white space. */
  predicate Counts(line: seq<char>) {
    Blanks(line) < |line| && !IsSpace(line[Blanks(line)])
  }

  /** w is the least indentation among the lines that count, or `none` if no line does. */
  predicate IsIndent(lines: seq<seq<char>>, none: nat, w: nat) {
    (forall k :: 0 <= k < |lines| && Counts(lines[k]) ==> w <= Blanks(lines[k])) &&
    (w == none || exists k :: 0 <= k < |lines| && Counts(lines[k]) && Blanks(lines[k]) == w)
  }

  /** A line without w leading bytes; a line that is only a newline is kept. */
  function DedentLine(line: seq<char>, w: nat): seq<char> {
    if line == ['\n'] then line else if |line| < w then [] else line[w..]
  }

  function Dedent(lines: seq<seq<char>>, w: nat): seq<char> {
    if lines == [] then [] else DedentLine(lines[0], w) + Dedent(lines[1..], w)
  }

  // ----- The ends of the text

  function DropFirst(s: seq<char>): seq<char> {
    if |s| >= 2 && s[0] == '\r' && s[1] == '\n' then s[2..]
    else if |s| >= 1 && s[0] == '\n' then s[1..]
    else s
  }

  /** Where the last line of s starts. */
  function LastLine(s: seq<char>): (n: nat)
    ensures n <= |s| && '\n' !in s[n..]
    ensures n > 0 ==> s[n - 1] == '\n'
  {
    if s == [] || s[|s| - 1] == '\n' then |s| else LastLine(s[..|s| - 1])
  }

  predicate AllSpace(s: seq<char>) {
    forall k :: 0 <= k < |s| ==> IsSpace(s[k])
  }

  function TrimLast(s: seq<char>): seq<char> {
    if LastLine(s) >= 2 && AllSpace(s[LastLine(s)..]) then s[..LastLine(s)] else s
  }

  /** What the contents of a triple-quoted string become. */
  ghost predicate Normal(s: seq<char>, r: seq<char>) {
    if '\n' !in s then r == s
    else
      exists w :: IsIndent(Lines(DropFirst(s)), |DropFirst(s)|, w) &&
        r == TrimLast(Dedent(Lines(DropFirst(s)), w))
  }

  // ----- The code

  /** C's memmove, downwards. */
  method MoveDown(a: array<char>, to: nat, from: nat, n: nat)
    requires to <= from && from + n <= a.Length
    modifies a
    ensures a[..to + n] == old(a[..to]) + old(a[from..from + n])
    ensures a[to + n..] == old(a[to + n..])
  {
    ghost var s, gap := a[..], from - to;
    var i := 0;
    while i < n
      invariant i <= n
      invariant forall k :: 0 <= k < to || to + i <= k < a.Length ==> a[k] == s[k]
      invariant forall k :: to <= k < to + i ==> a[k] == s[k + gap]
    {
      a[to + i] := a[from + i];
      i := i + 1;
    }
    MovedDown(s, a[..], to, from, n);
  }

  lemma MovedDown(s: seq<char>, t: seq<char>, to: nat, from: nat, n: nat)
    requires to <= from && from + n <= |s| == |t|
    requires forall k :: 0 <= k < to || to + n <= k < |t| ==> t[k] == s[k]
    requires forall k :: to <= k < to + n ==> t[k] == s[k + (from - to)]
    ensures t[..to + n] == s[..to] + s[from..from + n]
    ensures t[to + n..] == s[to + n..]
  {
    var r := s[..to] + s[from..from + n];
    assert forall k :: to <= k < to + n ==> r[k] == s[k + (from - to)];
  }

  method Normalise(a: array<char>, length: nat) returns (len: nat)
    requires length <= a.Length
    modifies a
    ensures len <= length && Normal(old(a[..length]), a[..len])
    ensures a[length..] == old(a[length..])
  {
    hide Lines, Dedent, IsIndent, TrimLast, DropFirst;
    len := length;
    if len == 0 {
      return;
    }
    var multiline := Contains(a, len, '\n');
    if !multiline {
      return;
    }
    len := DropFirstLine(a, len);
    ghost var b := a[..len];
    var w := LeadingSpace(a, len);
    if w > 0 {
      len := TrimLines(a, len, w);
    } else {
      DedentNothing(b);
    }
    assert a[..len] == Dedent(Lines(b), w);
    len := TrimTrailing(a, len);
  }

  method DropFirstLine(a: array<char>, length: nat) returns (len: nat)
    requires 0 < length <= a.Length && '\n' in a[..length]
    modifies a
    ensures len <= length && a[..len] == DropFirst(old(a[..length]))
    ensures a[length..] == old(a[length..])
  {
    len := length;
    ghost var s := a[..length];
    assert length == 1 ==> s[0] == '\n';
    if a[0] == '\r' && a[1] == '\n' {
      len := RemoveFirst(a, length, 2);
      assert s[0] == '\r' && s[1] == '\n';
    } else if a[0] == '\n' {
      len := RemoveFirst(a, length, 1);
      assert s[0] == '\n';
    }
  }

  /** Moves the text down over its first k bytes. */
  method RemoveFirst(a: array<char>, length: nat, k: nat) returns (len: nat)
    requires k <= length <= a.Length
    modifies a
    ensures len == length - k && a[..len] == old(a[..length])[k..]
    ensures a[length..] == old(a[length..])
  {
    ghost var s := a[..];
    len := length - k;
    MoveDown(a, 0, k, len);
    Removed(s, a[..], length, k);
  }

  lemma Removed(s: seq<char>, t: seq<char>, length: nat, k: nat)
    requires k <= length <= |s| == |t|
    requires t[..length - k] == s[..0] + s[k..length] && t[length - k..] == s[length - k..]
    ensures t[..length - k] == s[..length][k..] && t[length..] == s[length..]
  {
    assert t[length..] == t[length - k..][k..] && s[length..] == s[length - k..][k..];
  }

  method Contains(a: array<char>, len: nat, c: char) returns (found: bool)
    requires len <= a.Length
    ensures found <==> c in a[..len]
  {
    var i := 0;
    while i < len
      invariant i <= len && c !in a[..i]
    {
      if a[i] == c {
        return true;
      }
      i := i + 1;
    }
    return false;
  }

  /** The least indentation, found in one pass over the text. */
  method LeadingSpace(a: array<char>, len: nat) returns (ws: nat)
    requires len <= a.Length
    ensures IsIndent(Lines(a[..len]), len, ws)
  {
    hide IsIndent, Counts, Lines, First, NoneIn, AllBlank, Blanks;
    ws := len;
    var thisLine, inLeading, hasNonWs := 0, true, false;
    ghost var b, done, p := a[..len], [], 0;
    NoLines(len);
    assert b[0..] == b;
    NothingRead(b, 0);
    var i := 0;
    while i < len
      invariant p <= i <= len && NoneIn(b, p, i) && (inLeading || p < i)
      invariant Lines(b) == done + Lines(b[p..])
      invariant inLeading ==> thisLine == i - p && !hasNonWs && AllBlank(b, p, i)
      invariant IsIndent(if inLeading then done else done + [First(b[p..])], len, ws)
    {
      var c := a[i];
      OneRead(b, p, i);
      if inLeading {
        if c == ' ' || c == '\t' {
          thisLine := thisLine + 1;
        } else {
          if !IsSpace(c) {
            hasNonWs := true;
          }
          FirstNonBlank(b, p, i);
          OneMoreLine(done, First(b[p..]), len, ws);
          if hasNonWs && thisLine < ws {
            ws := thisLine;
          }
          inLeading := false;
        }
      }
      if c == '\n' {
        thisLine := 0;
        hasNonWs := false;
        inLeading := true;
        LineDone(b, p, i, done);
        NothingRead(b, i + 1);
        done := done + [First(b[p..])];
        p := i + 1;
      }
      i := i + 1;
    }
    LastLines(b, p, len, done, inLeading, ws);
  }

  /** The first line of s. */
  function First(s: seq<char>): seq<char> {
    s[..LineLength(s)]
  }

  /** No newline between two places. */
  predicate NoneIn(b: seq<char>, from: nat, to: nat)
    requires from <= to <= |b|
  {
    forall k :: from <= k < to ==> b[k] != '\n'
  }

  predicate AllBlank(b: seq<char>, from: nat, to: nat)
    requires from <= to <= |b|
  {
    forall k :: from <= k < to ==> IsBlank(b[k])
  }

  lemma NothingRead(b: seq<char>, i: nat)
    requires i <= |b|
    ensures NoneIn(b, i, i) && AllBlank(b, i, i)
  {
  }

  lemma OneRead(b: seq<char>, p: nat, i: nat)
    requires p <= i < |b|
    ensures NoneIn(b, p, i) && b[i] != '\n' ==> NoneIn(b, p, i + 1)
    ensures AllBlank(b, p, i) && IsBlank(b[i]) ==> AllBlank(b, p, i + 1)
  {
  }

  lemma NoLines(none: nat)
    ensures IsIndent([], none, none)
  {
  }

  lemma FirstReaches(b: seq<char>, p: nat, i: nat)
    requires p <= i < |b| && NoneIn(b, p, i)
    ensures i - p < |First(b[p..])|
    ensures forall k :: p <= k <= i ==> First(b[p..])[k - p] == b[k]
  {
    var s := b[p..];
    assert forall k :: 0 <= k < i - p ==> s[k] == b[p + k];
  }

  lemma FirstNonBlank(b: seq<char>, p: nat, i: nat)
    requires p <= i < |b| && NoneIn(b, p, i)
    requires AllBlank(b, p, i) && !IsBlank(b[i])
    ensures Blanks(First(b[p..])) == i - p && (Counts(First(b[p..])) <==> !IsSpace(b[i]))
  {
    FirstReaches(b, p, i);
    var line := First(b[p..]);
    assert forall k :: 0 <= k < i - p ==> line[k] == b[p + k];
    assert line[i - p] == b[i];
  }

  lemma OneMoreLine(done: seq<seq<char>>, line: seq<char>, none: nat, w: nat)
    requires IsIndent(done, none, w)
    ensures IsIndent(done + [line], none, if Counts(line) && Blanks(line) < w then Blanks(line) else w)
  {
    hide Counts, Blanks;
    var w1 := if Counts(line) && Blanks(line) < w then Blanks(line) else w;
    var lines := done + [line];
    if w1 != w {
      assert lines[|done|] == line;
    } else if w != none {
      var k :| 0 <= k < |done| && Counts(done[k]) && Blanks(done[k]) == w;
      assert lines[k] == done[k];
    }
  }

  lemma LineDone(b: seq<char>, p: nat, i: nat, done: seq<seq<char>>)
    requires p <= i < |b| && NoneIn(b, p, i) && b[i] == '\n'
    ensures LineLength(b[p..]) == i + 1 - p
    ensures done + Lines(b[p..]) == (done + [First(b[p..])]) + Lines(b[i + 1..])
  {
    var s := b[p..];
    FirstReaches(b, p, i);
    assert s[i - p] == '\n';
    assert s[LineLength(s)..] == b[i + 1..];
  }

  lemma LastLines(b: seq<char>, p: nat, none: nat, done: seq<seq<char>>, inLeading: bool, w: nat)
    requires p <= |b| && NoneIn(b, p, |b|) && Lines(b) == done + Lines(b[p..])
    requires IsIndent(if inLeading then done else done + [First(b[p..])], none, w)
    requires if inLeading then AllBlank(b, p, |b|) else p < |b|
    ensures IsIndent(Lines(b), none, w)
  {
    hide IsIndent, Lines, Counts;
    var s := b[p..];
    if s == [] {
      NoLine(s);
      assert Lines(b) == done;
    } else {
      OneLine(s);
      if inLeading {
        assert forall k :: 0 <= k < |s| ==> s[k] == b[p + k];
        OneMoreLine(done, s, none, w);
      }
      assert Lines(b) == done + [s];
    }
  }

  lemma NoLine(s: seq<char>)
    requires s == []
    ensures Lines(s) == []
  {
  }

  lemma OneLine(s: seq<char>)
    requires s != [] && '\n' !in s
    ensures Lines(s) == [s] && First(s) == s
    ensures (forall k :: 0 <= k < |s| ==> IsBlank(s[k])) ==> !Counts(s)
  {
    assert s[LineLength(s)..] == [];
    assert s[..LineLength(s)] == s;
    NoLine(s[LineLength(s)..]);
  }

  /** Closes up the text, line by line, in place. */
  method TrimLines(a: array<char>, length: nat, w: nat) returns (len: nat)
    requires length <= a.Length && w > 0
    modifies a
    ensures len <= length && a[..len] == Dedent(Lines(old(a[..length])), w)
    ensures a[length..] == old(a[length..])
  {
    hide Lines, Dedent, DedentLine, LineLength;
    ghost var b := a[..length];
    var start: nat, rem: nat := 0, length;
    len := 0;
    assert b[0..] == b;
    assert a[..0] == [];
    while rem > 0
      invariant len <= start && start + rem == length
      invariant a[start..] == old(a[start..])
      invariant a[..len] + Dedent(Lines(b[start..]), w) == Dedent(Lines(b), w)
    {
      ghost var left, before := b[start..], a[..len];
      assert left == a[start..start + rem];
      var n := FindNewline(a, start, rem);
      DedentFirst(left, w);
      assert left[n..] == b[start + n..] && left[..n] == a[start..start + n];
      len := TrimLine(a, start, n, w, len);
      assert a[..len] == before + DedentLine(left[..n], w);
      start := start + n;
      rem := rem - n;
    }
    DedentEmpty(b[start..], w);
  }

  method TrimLine(a: array<char>, start: nat, n: nat, w: nat, at: nat) returns (len: nat)
    requires at <= start && start + n <= a.Length && n > 0
    modifies a
    ensures at <= len <= start + n && a[..len] == old(a[..at]) + DedentLine(old(a[start..start + n]), w)
    ensures a[start + n..] == old(a[start + n..])
  {
    ghost var line := a[start..start + n];
    if n != 1 || a[start] != '\n' {
      var trim := if n < w then n else w;
      assert DedentLine(line, w) == line[trim..] == a[start + trim..start + n] by {
        assert line[0] == a[start];
      }
      MoveDown(a, at, start + trim, n - trim);
      len := at + (n - trim);
    } else {
      assert line == ['\n'];
      MoveDown(a, at, start, n);
      len := at + n;
    }
    assert a[start + n..] == a[len..][start + n - len..];
  }

  /** The length of the line at `start`, of the rem bytes that are left (memchr). */
  method FindNewline(a: array<char>, start: nat, rem: nat) returns (n: nat)
    requires start + rem <= a.Length
    ensures n == LineLength(a[start..start + rem]) && (rem > 0 ==> n > 0) && n <= rem
  {
    ghost var s := a[start..start + rem];
    n := 0;
    while n < rem && a[start + n] != '\n'
      invariant n <= rem && NoneIn(s, 0, n)
    {
      n := n + 1;
    }
    if n < rem {
      assert s[n] == '\n';
      FirstReaches(s, 0, n);
      LineDone(s, 0, n, []);
      assert s[0..] == s;
      n := n + 1;
    }
  }

  lemma DedentFirst(s: seq<char>, w: nat)
    requires s != []
    ensures Dedent(Lines(s), w) == DedentLine(s[..LineLength(s)], w) + Dedent(Lines(s[LineLength(s)..]), w)
  {
  }

  lemma DedentEmpty(s: seq<char>, w: nat)
    requires s == []
    ensures Dedent(Lines(s), w) == []
  {
  }

  lemma {:induction false} DedentNothing(s: seq<char>)
    ensures Dedent(Lines(s), 0) == s
    decreases |s|
  {
    if s != [] {
      DedentNothing(s[LineLength(s)..]);
      DedentFirst(s, 0);
    }
  }

  /** Drops a last line of white space. */
  method TrimTrailing(a: array<char>, length: nat) returns (len: nat)
    requires length <= a.Length
    ensures len <= length && a[..len] == TrimLast(a[..length])
  {
    len := length;
    ghost var s := a[..length];
    var trim, i := 0, length - 1;
    while i > 0
      invariant trim == length - 1 - i && i >= -1
      invariant '\n' !in s[i + 1..] && AllSpace(s[i + 1..])
    {
      var c := a[i];
      if c == '\n' {
        LastLineIs(s, i + 1);
        len := len - trim;
        return;
      } else if IsSpace(c) {
        trim := trim + 1;
      } else {
        NotAllSpace(s, i);
        return;
      }
      i := i - 1;
    }
  }

  lemma {:induction false} LastLineIs(s: seq<char>, n: nat)
    requires 0 < n <= |s| && '\n' !in s[n..] && s[n - 1] == '\n'
    ensures LastLine(s) == n
  {
    if n < |s| {
      assert s[|s| - 1] in s[n..];
      LastLineIs(s[..|s| - 1], n);
    }
  }

  lemma NotAllSpace(s: seq<char>, i: nat)
    requires i < |s| && '\n' !in s[i..] && !IsSpace(s[i])
    ensures LastLine(s) <= i && !AllSpace(s[LastLine(s)..])
  {
    var n := LastLine(s);
    assert forall k :: i <= k < |s| ==> s[k] in s[i..];
    assert s[n..][i - n] == s[i];
  }

  // ----- What the result looks like

  /** A line: its only newline, if any, is its last character. */
  predicate IsLine(line: seq<char>) {
    line != [] && '\n' !in line[..|line| - 1]
  }

  lemma {:induction false} LinesAre(s: seq<char>)
    ensures forall k :: 0 <= k < |Lines(s)| ==> IsLine(Lines(s)[k]) && |Lines(s)[k]| <= |s|
    decreases |s|
  {
    if s != [] {
      LinesAre(s[LineLength(s)..]);
    }
  }

  /**
   * Every line that counts loses the same number of bytes, all of them spaces or tabs,
   * and at least one of them is left without indentation.
   */
  lemma CommonIndent(s: seq<char>, w: nat)
    requires IsIndent(Lines(s), |s|, w)
    ensures forall k :: 0 <= k < |Lines(s)| && Counts(Lines(s)[k]) ==> LosesBlanks(Lines(s)[k], w)
    ensures (exists k :: 0 <= k < |Lines(s)| && Counts(Lines(s)[k])) ==>
              exists k :: 0 <= k < |Lines(s)| && Counts(Lines(s)[k]) && Blanks(DedentLine(Lines(s)[k], w)) == 0
  {
    LinesAre(s);
    var lines := Lines(s);
    hide Lines;
    if k :| 0 <= k < |lines| && Counts(lines[k]) {
      assert w < |s|;
      var j :| 0 <= j < |lines| && Counts(lines[j]) && Blanks(lines[j]) == w;
      assert DedentLine(lines[j], w)[0] == lines[j][w];
    }
  }

  predicate LosesBlanks(line: seq<char>, w: nat) {
    w <= |line| && DedentLine(line, w) == line[w..] && forall k :: 0 <= k < w ==> IsBlank(line[k])
  }

  /** There is only one such indentation. */
  lemma IndentUnique(s: seq<char>, w: nat, w1: nat)
    requires IsIndent(Lines(s), |s|, w) && IsIndent(Lines(s), |s|, w1)
    ensures w == w1
  {
    LinesAre(s);
  }

  /** So a text has only one normal form. */
  lemma NormalUnique(s: seq<char>, r: seq<char>, r1: seq<char>)
    requires Normal(s, r) && Normal(s, r1)
    ensures r == r1
  {
    hide IsIndent, Lines, Dedent, TrimLast;
    if '\n' in s {
      var text := DropFirst(s);
      var w :| IsIndent(Lines(text), |text|, w) && r == TrimLast(Dedent(Lines(text), w));
      var w1 :| IsIndent(Lines(text), |text|, w1) && r1 == TrimLast(Dedent(Lines(text), w1));
      IndentUnique(text, w, w1);
    }
  }

  /** A line that is dropped together with its newline. */
  predicate Swallowed(line: seq<char>, w: nat) {
    line != [] && line[|line| - 1] == '\n' && line != ['\n'] && |line| <= w
  }

  lemma {:induction false} LineConcat(s: seq<char>, t: seq<char>)
    ensures Line(s + t) == Line(s) + Line(t) - 1
  {
    if t == [] {
      assert s + t == s;
    } else {
      LineConcat(s, t[..|t| - 1]);
      assert (s + t)[..|s + t| - 1] == s + t[..|t| - 1];
    }
  }

  lemma LineOfOne(line: seq<char>)
    requires IsLine(line)
    ensures Line(line) == if line[|line| - 1] == '\n' then 2 else 1
  {
    var init := line[..|line| - 1];
    NoNewline([], init);
    assert [] + init == init;
  }

  lemma LineOfLine(line: seq<char>, w: nat)
    requires IsLine(line)
    ensures Line(line) == if line[|line| - 1] == '\n' then 2 else 1
    ensures Line(DedentLine(line, w)) == if Swallowed(line, w) then 1 else Line(line)
  {
    LineOfOne(line);
    if w < |line| {
      var rest := line[w..];
      assert forall k :: 0 <= k < |rest| - 1 ==> rest[k] == line[..|line| - 1][w + k];
      LineOfOne(rest);
    }
  }

  lemma {:induction false} DedentKeeps(lines: seq<seq<char>>, w: nat)
    requires forall k :: 0 <= k < |lines| ==> IsLine(lines[k])
    ensures Line(Dedent(lines, w)) <= Line(Dedent(lines, 0))
    ensures Line(Dedent(lines, w)) == Line(Dedent(lines, 0))
            <==> forall k :: 0 <= k < |lines| ==> !Swallowed(lines[k], w)
  {
    if lines != [] {
      hide Line, IsLine, Swallowed, DedentLine;
      var rest := lines[1..];
      DedentKeeps(rest, w);
      SameLine(lines[0]);
      LineOfLine(lines[0], w);
      LineConcat(DedentLine(lines[0], w), Dedent(rest, w));
      LineConcat(lines[0], Dedent(rest, 0));
      LineAtLeastOne(lines[0], w);
      assert forall k :: 0 < k < |lines| ==> lines[k] == rest[k - 1];
      assert forall k :: 0 <= k < |rest| ==> rest[k] == lines[k + 1];
    }
  }

  lemma SameLine(line: seq<char>)
    ensures DedentLine(line, 0) == line
  {
  }

  lemma LineAtLeastOne(line: seq<char>, w: nat)
    requires IsLine(line)
    ensures Swallowed(line, w) ==> Line(line) == 2
  {
    LineOfLine(line, w);
  }

  /**
   * Removing the indentation keeps the number of lines exactly when no line but an
   * empty one is as short as the indentation, its newline counted.
   */
  lemma LinesKept(s: seq<char>, w: nat)
    ensures Line(Dedent(Lines(s), w)) == Line(s)
            <==> forall k :: 0 <= k < |Lines(s)| ==> !Swallowed(Lines(s)[k], w)
  {
    LinesAre(s);
    DedentKeeps(Lines(s), w);
    DedentNothing(s);
  }

  /** A blank line between two indented ones is lost when it holds too few spaces. */
  lemma BlankLineLost()
    ensures var s := "  a\n \n  b";
            IsIndent(Lines(s), |s|, 2) && Dedent(Lines(s), 2) == "a\nb" && Line("a\nb") != Line(s)
  {
    var s := "  a\n \n  b";
    var lines := ["  a\n", " \n", "  b"];
    assert Lines(s) == lines by {
      hide Lines;
      LinesOf("  a", " \n  b");
      LinesOf(" ", "  b");
      OneLine("  b");
      assert "  a" + ['\n'] == "  a\n" && " " + ['\n'] == " \n";
      assert s == "  a\n" + " \n  b" && " \n  b" == " \n" + "  b";
      assert lines == ["  a\n"] + ([" \n"] + ["  b"]);
    }
    hide Lines, Line;
    LinesKept(s, 2);
    assert Swallowed(lines[1], 2);
    assert IsIndent(lines, |s|, 2) by { LostIndent(lines, |s|); }
    assert Dedent(lines, 2) == "a\nb" by {
      assert lines[1..] == [" \n", "  b"] && lines[1..][1..] == ["  b"] && lines[1..][1..][1..] == [];
      assert DedentLine("  a\n", 2) == "a\n" && DedentLine(" \n", 2) == "" && DedentLine("  b", 2) == "b";
      assert Dedent(lines[1..][1..], 2) == "b";
    }
  }

  lemma LostIndent(lines: seq<seq<char>>, none: nat)
    requires lines == ["  a\n", " \n", "  b"]
    ensures IsIndent(lines, none, 2)
  {
    assert Blanks("  a\n") == 2 && Blanks("  b") == 2;
    assert Counts(lines[0]) && !Counts(lines[1]);
  }

  lemma LinesOf(init: seq<char>, rest: seq<char>)
    requires '\n' !in init
    ensures Lines(init + ['\n'] + rest) == [init + ['\n']] + Lines(rest)
  {
    var n, s := |init|, init + ['\n'] + rest;
    assert s[0..] == s && s[n] == '\n' && s[n + 1..] == rest;
    LineDone(s, 0, n, []);
    assert First(s) == init + ['\n'];
  }
}
