/**
 * Names of symbols and their case-folded forms.
 */
module SymbolNames {

  function UpperChar(c: char): char {
    if 'a' <= c <= 'z' then (c as int - 'a' as int + 'A' as int) as char else c
  }

  function LowerChar(c: char): char {
    if 'A' <= c <= 'Z' then (c as int - 'A' as int + 'a' as int) as char else c
  }

  /** The character at n, or the terminator. */
  function CharAt(name: string, n: nat): char {
    if n < |name| then name[n] else '\0'
  }

  /** A type name starts with a capital, after an optional $ and an optional underscore. */
  predicate IsType(name: string) {
    var i := if CharAt(name, 0) == '$' then 1 else 0;
    var j := if CharAt(name, i) == '_' then i + 1 else i;
    'A' <= CharAt(name, j) <= 'Z'
  }

  predicate IsPrivate(name: string) {
    (CharAt(name, 0) == '_' && CharAt(name, 1) != '\0') ||
    (CharAt(name, 0) == '$' && CharAt(name, 1) == '_')
  }

  function FoldChar(isType: bool, c: char): char {
    if isType then UpperChar(c) else LowerChar(c)
  }

  /** Type names in capitals, other names in small letters. */
  function Fold(name: string): string {
    seq(|name|, i requires 0 <= i < |name| => FoldChar(IsType(name), name[i]))
  }

  method NameWithoutCase(name: string) returns (folded: string)
    ensures folded == Fold(name)
  {
    folded := [];
    var isType := IsType(name);
    for i := 0 to |name|
      invariant |folded| == i && forall k :: 0 <= k < i ==> folded[k] == Fold(name)[k]
    {
      folded := folded + [if isType then UpperChar(name[i]) else LowerChar(name[i])];
    }
  }

  /** Folding does not change the kind of a name. */
  lemma FoldKind(name: string)
    ensures IsType(Fold(name)) <==> IsType(name)
  {
    var f, t := Fold(name), IsType(name);
    assert forall k: nat :: CharAt(f, k) == FoldChar(t, CharAt(name, k));
  }

  /** Folding twice is folding once. */
  lemma FoldIdempotent(name: string)
    ensures Fold(Fold(name)) == Fold(name)
  {
    FoldKind(name);
  }
}
