/** `validate_pattern_string` (decode.py): two independent scans, one pairing `$`
    characters and one balancing `[`/`]`. */
module Validator {
  import opened Wrappers
  import opened Escapes

  datatype GrammarError =
    | DanglingFieldDelimiter   // an odd number of `$`
    | BracketInsideFieldName   // `[` or `]` while a `$` is unpaired
    | NestedBracket            // `[` while a `[` is open
    | DanglingCloseBracket     // `]` with no open `[`
    | DanglingOpenBracket      // the string ends inside an open `[`

  // ---------------------------------------------------------------------------
  // The `$` pass. It keeps an `escape` flag that is never set, so a backslash does
  // not protect a `$`, `[` or `]` from this pass.

  /** Number of `$` characters in `s`, escaped or not. */
  function CountDollarChars(s: string): nat
  {
    if s == [] then 0 else CountDollarChars(s[..|s| - 1]) + (if s[|s| - 1] == '$' then 1 else 0)
  }

  predicate IsBracketChar(c: char)
  {
    c == '[' || c == ']'
  }

  /** Some `[` or `]`, escaped or not, comes after an odd number of `$` characters. */
  predicate BracketWhileUnpaired(s: string)
  {
    exists i :: 0 <= i < |s| && IsBracketChar(s[i]) && CountDollarChars(s[..i]) % 2 == 1
  }

  /** The verdict of the `$` pass. */
  function DollarCheck(s: string): Outcome<GrammarError>
  {
    if BracketWhileUnpaired(s) then Fail(BracketInsideFieldName)
    else if CountDollarChars(s) % 2 == 1 then Fail(DanglingFieldDelimiter)
    else Pass
  }

  /** `check_dollar`: toggles `unpaired_dollar` at each `$` and rejects a bracket seen
      while it is set, then rejects a `$` left unpaired. */
  method CheckDollar(s: string) returns (r: Outcome<GrammarError>)
    ensures r == DollarCheck(s)
    ensures r.Pass? ==> CountDollarChars(s) % 2 == 0
  {
    var escape := false;  // never set: the source declares it and leaves it false
    var unpairedDollar := false;
    for i := 0 to |s|
      invariant unpairedDollar == (CountDollarChars(s[..i]) % 2 == 1)
      invariant forall k :: 0 <= k < i && IsBracketChar(s[k]) ==> CountDollarChars(s[..k]) % 2 == 0
    {
      assert s[..i + 1][..i] == s[..i];
      var c := s[i];
      if c == '$' && !escape {
        unpairedDollar := !unpairedDollar;
      }
      if IsBracketChar(c) && !escape && unpairedDollar {
        return Fail(BracketInsideFieldName);
      }
    }
    assert s[..|s|] == s;
    if unpairedDollar {
      return Fail(DanglingFieldDelimiter);
    }
    return Pass;
  }

  // ---------------------------------------------------------------------------
  // The bracket pass. It honours backslashes, so it sees exactly the bracket tokens
  // of `Lex(s)`, and accepts when they read `[ ] [ ] ... [ ]`.

  /** The bracket expected at position `k` of a strictly alternating sequence. */
  function Expected(k: nat): Token
  {
    if k % 2 == 0 then Open else Close
  }

  predicate AlternatesUpTo(bs: seq<Token>, n: nat)
    requires n <= |bs|
  {
    forall k :: 0 <= k < n ==> bs[k] == Expected(k)
  }

  /** Position `j` is the first bracket that breaks the alternation. */
  predicate MisplacedAt(bs: seq<Token>, j: int)
  {
    0 <= j < |bs| && AlternatesUpTo(bs, j) && bs[j] != Expected(j)
  }

  /** The unescaped brackets of `s` strictly alternate, starting with `[` and ending with `]`. */
  predicate BracketsBalanced(s: string)
  {
    var bs := Brackets(Lex(s));
    AlternatesUpTo(bs, |bs|) && |bs| % 2 == 0
  }

  /** The verdict of the bracket pass: a misplaced `[` is a nesting, a misplaced `]`
      closes nothing, and an odd count at the end leaves a `[` open. */
  function BracketCheck(s: string): Outcome<GrammarError>
  {
    var bs := Brackets(Lex(s));
    if exists j :: 0 <= j < |bs| && MisplacedAt(bs, j) && bs[j] == Open then Fail(NestedBracket)
    else if exists j :: 0 <= j < |bs| && MisplacedAt(bs, j) && bs[j] == Close then Fail(DanglingCloseBracket)
    else if |bs| % 2 == 1 then Fail(DanglingOpenBracket)
    else Pass
  }

  lemma MisplacedUnique(bs: seq<Token>, i: int, j: int)
    requires MisplacedAt(bs, i) && MisplacedAt(bs, j)
    ensures i == j
  {
  }

  lemma {:induction false} AlternatesWithoutMisplaced(bs: seq<Token>, n: nat)
    requires n <= |bs|
    requires forall j :: 0 <= j < n ==> !MisplacedAt(bs, j)
    ensures AlternatesUpTo(bs, n)
  {
    if n > 0 {
      AlternatesWithoutMisplaced(bs, n - 1);
      assert !MisplacedAt(bs, n - 1);
    }
  }

  /** The bracket pass accepts exactly the strings whose brackets are balanced. */
  lemma BracketCheckPassIff(s: string)
    ensures BracketCheck(s).Pass? <==> BracketsBalanced(s)
  {
    var bs := Brackets(Lex(s));
    if BracketCheck(s).Pass? {
      forall j | 0 <= j < |bs| ensures !MisplacedAt(bs, j) {
        assert IsBracket(bs[j]);
      }
      AlternatesWithoutMisplaced(bs, |bs|);
    }
  }

  /** The brackets of a prefix are a prefix of the brackets of the whole string. */
  lemma BracketsOfPrefix(s: string, n: nat)
    requires n <= |s|
    ensures |Brackets(Lex(s[..n]))| <= |Brackets(Lex(s))|
    ensures Brackets(Lex(s))[..|Brackets(Lex(s[..n]))|] == Brackets(Lex(s[..n]))
  {
    assert s == s[..n] + s[n..];
    LexPrefix(s[..n], s[n..]);
    var tail := Lex(s)[|Lex(s[..n])|..];
    BracketsAppend(Lex(s[..n]), tail);
  }

  /** When the brackets of a prefix end with the first misplaced one, that bracket
      decides the verdict for the whole string. */
  lemma FirstMisplacedDecides(s: string, n: nat)
    requires n <= |s|
    requires var b := Brackets(Lex(s[..n])); |b| > 0 && MisplacedAt(b, |b| - 1)
    ensures var b := Brackets(Lex(s[..n]));
      BracketCheck(s) == if b[|b| - 1] == Open then Fail(NestedBracket) else Fail(DanglingCloseBracket)
  {
    var b := Brackets(Lex(s[..n]));
    var bs := Brackets(Lex(s));
    BracketsOfPrefix(s, n);
    var j := |b| - 1;
    assert bs[j] == b[j];
    assert forall k :: 0 <= k < j ==> bs[k] == b[k];
    assert MisplacedAt(bs, j);
    assert IsBracket(bs[j]);
    forall i | MisplacedAt(bs, i) ensures i == j {
      MisplacedUnique(bs, i, j);
    }
    if bs[j] == Open {
      assert exists i :: 0 <= i < |bs| && MisplacedAt(bs, i) && bs[i] == Open;
    } else {
      assert !exists i :: 0 <= i < |bs| && MisplacedAt(bs, i) && bs[i] == Open;
      assert exists i :: 0 <= i < |bs| && MisplacedAt(bs, i) && bs[i] == Close;
    }
  }

  /** `check_bracket`: remembers the previous unescaped bracket and rejects a `[` after
      `[`, a `]` after `]` (or before any `[`), and a `[` still open at the end. */
  method CheckBracket(s: string) returns (r: Outcome<GrammarError>)
    ensures r == BracketCheck(s)
    ensures r.Pass? <==> BracketsBalanced(s)
  {
    var escape := false;
    var previousBracket := ']';
    for i := 0 to |s|
      invariant escape == EscapePending(s[..i])
      invariant AlternatesUpTo(Brackets(Lex(s[..i])), |Brackets(Lex(s[..i]))|)
      invariant previousBracket == if |Brackets(Lex(s[..i]))| % 2 == 1 then '[' else ']'
    {
      var c := s[i];
      ghost var b := Brackets(Lex(s[..i]));
      assert s[..i + 1] == s[..i] + [c];
      LexSnoc(s[..i], c);
      BracketsSnoc(s[..i], c);
      if c == '\\' && !escape {
        escape := true;
      } else {
        if c == '[' && !escape {
          assert Brackets(Lex(s[..i + 1])) == b + [Open];
          if previousBracket == '[' {
            FirstMisplacedDecides(s, i + 1);
            return Fail(NestedBracket);
          }
          previousBracket := c;
        } else if c == ']' && !escape {
          assert Brackets(Lex(s[..i + 1])) == b + [Close];
          if previousBracket != '[' {
            FirstMisplacedDecides(s, i + 1);
            return Fail(DanglingCloseBracket);
          }
          previousBracket := c;
        } else {
          assert Brackets(Lex(s[..i + 1])) == b;
        }
        escape := false;
      }
    }
    assert s[..|s|] == s;
    BracketCheckPassIff(s);
    if previousBracket == '[' {
      return Fail(DanglingOpenBracket);
    }
    return Pass;
  }

  // ---------------------------------------------------------------------------

  /** The verdict of `validate_pattern_string`: the `$` pass first, then the bracket pass. */
  function Validation(s: string): Outcome<GrammarError>
  {
    if DollarCheck(s).Fail? then DollarCheck(s) else BracketCheck(s)
  }

  method ValidatePatternString(s: string) returns (r: Outcome<GrammarError>)
    ensures r == Validation(s)
    ensures r.Pass? <==> !BracketWhileUnpaired(s) && CountDollarChars(s) % 2 == 0 && BracketsBalanced(s)
    ensures CountDollarChars(s) % 2 == 1 ==> r.Fail?
    ensures BracketWhileUnpaired(s) ==> r == Fail(BracketInsideFieldName)
  {
    r := CheckDollar(s);
    if r.Fail? {
      return;
    }
    r := CheckBracket(s);
  }
}
