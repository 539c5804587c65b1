/** The reading of a pattern string that the decoder and the bracket check share: a
    backslash that is not itself escaped is dropped and makes the next character plain
    text; every other `$`, `[` and `]` is a control token. */
module Escapes {

  datatype Token = Text(c: char) | Dollar | Open | Close

  function Classify(c: char): Token
  {
    if c == '$' then Dollar
    else if c == '[' then Open
    else if c == ']' then Close
    else Text(c)
  }

  predicate IsSpecial(c: char)
  {
    c == '$' || c == '[' || c == ']' || c == '\\'
  }

  predicate IsBracket(t: Token)
  {
    t == Open || t == Close
  }

  /** The tokens of `s`. A trailing lone backslash escapes nothing and yields no token. */
  function Lex(s: string): seq<Token>
    decreases |s|
  {
    if s == [] then []
    else if s[0] == '\\' then (if |s| == 1 then [] else [Text(s[1])] + Lex(s[2..]))
    else [Classify(s[0])] + Lex(s[1..])
  }

  /** Whether `s` ends with a backslash that escapes the next character to come. */
  predicate EscapePending(s: string)
    decreases |s|
  {
    if s == [] then false
    else if s[0] == '\\' then |s| == 1 || EscapePending(s[2..])
    else EscapePending(s[1..])
  }

  /** The plain-text characters of a token sequence, in order. */
  function Literals(ts: seq<Token>): string
  {
    if ts == [] then "" else (if ts[0].Text? then [ts[0].c] else "") + Literals(ts[1..])
  }

  /** The bracket tokens of a token sequence, in order. */
  function Brackets(ts: seq<Token>): (bs: seq<Token>)
    ensures forall k :: 0 <= k < |bs| ==> IsBracket(bs[k])
  {
    if ts == [] then [] else (if IsBracket(ts[0]) then [ts[0]] else []) + Brackets(ts[1..])
  }

  function CountDollars(ts: seq<Token>): nat
  {
    if ts == [] then 0 else (if ts[0] == Dollar then 1 else 0) + CountDollars(ts[1..])
  }

  /** Reading one more character: how the tokens and the pending escape evolve. This is
      what a left-to-right scan with an `escape` flag computes. */
  lemma {:induction false} LexSnoc(p: string, c: char)
    ensures Lex(p + [c]) ==
      if EscapePending(p) then Lex(p) + [Text(c)]
      else if c == '\\' then Lex(p)
      else Lex(p) + [Classify(c)]
    ensures EscapePending(p + [c]) == (!EscapePending(p) && c == '\\')
    decreases |p|
  {
    if p == [] {
      assert p + [c] == [c];
      assert [c][1..] == [];
    } else if p[0] == '\\' {
      if |p| == 1 {
        assert p + [c] == ['\\', c];
        assert (p + [c])[2..] == [];
      } else {
        assert (p + [c])[2..] == p[2..] + [c];
        LexSnoc(p[2..], c);
      }
    } else {
      assert (p + [c])[1..] == p[1..] + [c];
      LexSnoc(p[1..], c);
    }
  }

  /** The tokens of a prefix are a prefix of the tokens of the whole string. */
  lemma {:induction false} LexPrefix(p: string, q: string)
    ensures |Lex(p)| <= |Lex(p + q)|
    ensures Lex(p + q) == Lex(p) + Lex(p + q)[|Lex(p)|..]
    decreases |q|
  {
    if q == [] {
      assert p + q == p;
    } else {
      var q' := q[..|q| - 1];
      assert p + q == (p + q') + [q[|q| - 1]];
      LexPrefix(p, q');
      LexSnoc(p + q', q[|q| - 1]);
    }
  }

  lemma {:induction false} LiteralsAppend(a: seq<Token>, b: seq<Token>)
    ensures Literals(a + b) == Literals(a) + Literals(b)
    decreases |a|
  {
    if a == [] {
      assert a + b == b;
    } else {
      assert (a + b)[0] == a[0];
      assert (a + b)[1..] == a[1..] + b;
      LiteralsAppend(a[1..], b);
    }
  }

  lemma {:induction false} BracketsAppend(a: seq<Token>, b: seq<Token>)
    ensures Brackets(a + b) == Brackets(a) + Brackets(b)
    decreases |a|
  {
    if a == [] {
      assert a + b == b;
    } else {
      assert (a + b)[0] == a[0];
      assert (a + b)[1..] == a[1..] + b;
      BracketsAppend(a[1..], b);
    }
  }

  /** Reading one more character adds at most that character's bracket token. */
  lemma BracketsSnoc(p: string, c: char)
    ensures Brackets(Lex(p + [c])) ==
      Brackets(Lex(p)) + (if !EscapePending(p) && (c == '[' || c == ']') then [Classify(c)] else [])
  {
    LexSnoc(p, c);
    if EscapePending(p) {
      BracketsAppend(Lex(p), [Text(c)]);
    } else if c != '\\' {
      BracketsAppend(Lex(p), [Classify(c)]);
    }
  }

  /** A string with no control character reads as its own characters, all plain text. */
  lemma {:induction false} LexPlain(s: string)
    requires forall i :: 0 <= i < |s| ==> !IsSpecial(s[i])
    ensures Literals(Lex(s)) == s
    ensures |Lex(s)| == |s|
    ensures forall k :: 0 <= k < |Lex(s)| ==> Lex(s)[k].Text?
    decreases |s|
  {
    if s != [] {
      assert !IsSpecial(s[0]);
      LexPlain(s[1..]);
      assert Lex(s) == [Text(s[0])] + Lex(s[1..]);
      assert s == [s[0]] + s[1..];
    }
  }
}
