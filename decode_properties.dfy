/** Consequences of the decoder's definition for particular shapes of pattern strings. */
module DecodeProperties {
  import opened Wrappers
  import opened PatternModel
  import opened Escapes
  import opened Validator
  import opened Segments
  import opened Decoder

  lemma {:induction false} CountDollarCharsNone(s: string)
    requires forall i :: 0 <= i < |s| ==> s[i] != '$'
    ensures CountDollarChars(s) == 0
    decreases |s|
  {
    if s != [] {
      CountDollarCharsNone(s[..|s| - 1]);
    }
  }

  lemma {:induction false} BracketsOfPlain(ts: seq<Token>)
    requires forall k :: 0 <= k < |ts| ==> ts[k].Text?
    ensures Brackets(ts) == []
    decreases |ts|
  {
    if ts != [] {
      BracketsOfPlain(ts[1..]);
    }
  }

  /** A string without `$`, `[`, `]` or `\` decodes to one non-optional chunk holding one
      literal atom equal to the string, and the empty string to the empty pattern. */
  lemma PlainPatternDecodes(s: string)
    requires forall i :: 0 <= i < |s| ==> !IsSpecial(s[i])
    ensures Decode(s) == Success(if s == "" then [] else [Chunk([LiteralAtom(s)], false)])
  {
    LexPlain(s);
    CountDollarCharsNone(s);
    BracketsOfPlain(Lex(s));
    assert !BracketWhileUnpaired(s);
    assert Validation(s) == Pass;
    SegmentDecodePlain(Lex(s), false);
  }

  lemma BracketsCons(t: Token, r: seq<Token>)
    ensures Brackets([t] + r) == (if IsBracket(t) then [t] else []) + Brackets(r)
  {
    assert ([t] + r)[1..] == r;
  }

  lemma PiecesCons(t: Token, r: seq<Token>)
    ensures Pieces([t] + r) ==
      if t == Dollar then [""] + Pieces(r) else [TokenText(t) + Pieces(r)[0]] + Pieces(r)[1..]
  {
    assert ([t] + r)[1..] == r;
  }

  lemma BracketExampleTail(t: string)
    requires t == "$x$c]d"
    ensures Lex(t) == [Dollar, Text('x'), Dollar, Text('c'), Close, Text('d')]
  {
    assert t[1..] == "x$c]d" && t[2..] == "$c]d" && t[3..] == "c]d" && t[4..] == "]d" && t[5..] == "d";
    assert Lex("d") == [Text('d')];
    assert Lex("]d") == [Close, Text('d')];
    assert Lex("c]d") == [Text('c'), Close, Text('d')];
    assert Lex("$c]d") == [Dollar, Text('c'), Close, Text('d')];
    assert Lex("x$c]d") == [Text('x'), Dollar, Text('c'), Close, Text('d')];
  }

  lemma BracketExampleTokens()
    ensures Lex("a[b$x$c]d") == [Text('a'), Open, Text('b'), Dollar, Text('x'), Dollar, Text('c'), Close, Text('d')]
  {
    var s := "a[b$x$c]d";
    assert s[1..] == "[b$x$c]d" && s[2..] == "b$x$c]d" && s[3..] == "$x$c]d";
    BracketExampleTail(s[3..]);
    assert Lex("b$x$c]d") == [Text('b')] + Lex("$x$c]d");
    assert Lex("[b$x$c]d") == [Open] + Lex("b$x$c]d");
  }

  lemma BracketExampleDollars()
    ensures DollarCheck("a[b$x$c]d") == Pass
  {
    var s := "a[b$x$c]d";
    assert s[..1] == "a";
    assert s[..7] == "a[b$x$c";
    assert CountDollarChars("a[b$x$c") == 2 by {
      assert "a[b$x$c"[..6] == "a[b$x$";
      assert "a[b$x$"[..5] == "a[b$x";
      assert "a[b$x"[..4] == "a[b$";
      assert "a[b$"[..3] == "a[b";
      assert "a[b"[..2] == "a[";
      assert "a["[..1] == "a";
      assert "a"[..0] == "";
    }
    assert s[..8] == "a[b$x$c]";
    assert "a[b$x$c]"[..7] == "a[b$x$c";
    assert s[..8] == s[..|s| - 1];
    assert CountDollarChars(s) == 2;
    forall i | 0 <= i < |s| && IsBracketChar(s[i]) ensures CountDollarChars(s[..i]) % 2 == 0 {
      assert i == 1 || i == 7;
    }
  }

  lemma OpenAfterPlain(pre: seq<Token>, seg: seq<Token>)
    requires forall k :: 0 <= k < |pre| ==> !IsBracket(pre[k])
    requires forall k :: 0 <= k < |seg| ==> !IsBracket(seg[k])
    ensures Brackets(pre + [Open] + seg) == [Open]
  {
    BracketsNone(pre);
    BracketsNone(seg);
    BracketsAppend(pre, [Open]);
    BracketsCons(Open, []);
    assert [Open] + [] == [Open];
    BracketsAppend(pre + [Open], seg);
  }

  lemma CloseBeforePlain(b: seq<Token>, post: seq<Token>)
    requires Brackets(b) == [Open]
    requires forall k :: 0 <= k < |post| ==> !IsBracket(post[k])
    ensures Brackets(b + [Close] + post) == [Open, Close]
  {
    BracketsNone(post);
    BracketsAppend(b, [Close]);
    BracketsCons(Close, []);
    assert [Close] + [] == [Close];
    BracketsAppend(b + [Close], post);
  }

  /** One bracketed group among bracket-free tokens contributes exactly its two brackets. */
  lemma BracketsOfGroup(pre: seq<Token>, seg: seq<Token>, post: seq<Token>)
    requires forall k :: 0 <= k < |pre| ==> !IsBracket(pre[k])
    requires forall k :: 0 <= k < |seg| ==> !IsBracket(seg[k])
    requires forall k :: 0 <= k < |post| ==> !IsBracket(post[k])
    ensures Brackets(pre + [Open] + seg + [Close] + post) == [Open, Close]
  {
    OpenAfterPlain(pre, seg);
    CloseBeforePlain(pre + [Open] + seg, post);
  }

  lemma BracketExampleBracketTokens(ts: seq<Token>)
    requires ts == [Text('a'), Open, Text('b'), Dollar, Text('x'), Dollar, Text('c'), Close, Text('d')]
    ensures Brackets(ts) == [Open, Close]
  {
    var seg := [Text('b'), Dollar, Text('x'), Dollar, Text('c')];
    assert ts == [Text('a')] + [Open] + seg + [Close] + [Text('d')];
    assert forall k :: 0 <= k < |seg| ==> !IsBracket(seg[k]);
    BracketsOfGroup([Text('a')], seg, [Text('d')]);
  }

  lemma {:induction false} BracketsNone(ts: seq<Token>)
    requires forall k :: 0 <= k < |ts| ==> !IsBracket(ts[k])
    ensures Brackets(ts) == []
    decreases |ts|
  {
    if ts != [] {
      BracketsNone(ts[1..]);
    }
  }

  lemma OneBracketPair(s: string)
    requires Brackets(Lex(s)) == [Open, Close]
    ensures BracketCheck(s) == Pass
  {
    var bs := Brackets(Lex(s));
    assert bs[0] == Expected(0) && bs[1] == Expected(1);
    assert AlternatesUpTo(bs, |bs|);
    BracketCheckPassIff(s);
  }

  lemma BracketExampleBrackets()
    ensures BracketCheck("a[b$x$c]d") == Pass
  {
    BracketExampleTokens();
    BracketExampleBracketTokens(Lex("a[b$x$c]d"));
    OneBracketPair("a[b$x$c]d");
  }

  lemma BracketExampleValid()
    ensures Validation("a[b$x$c]d") == Pass
  {
    BracketExampleDollars();
    BracketExampleBrackets();
  }

  lemma InnerAtoms()
    ensures PieceAtoms(["b", "x", "c"], false) == [LiteralAtom("b"), ColumnNameAtom("x"), LiteralAtom("c")]
  {
    var ps := ["b", "x", "c"];
    assert ps[1..] == ["x", "c"];
    assert ps[1..][1..] == ["c"];
    assert PieceAtoms(["c"], false) == [LiteralAtom("c")];
    assert PieceAtoms(["x", "c"], true) == [ColumnNameAtom("x"), LiteralAtom("c")];
  }

  lemma TailSegments(mid: seq<Token>)
    requires mid == [Text('b'), Dollar, Text('x'), Dollar, Text('c'), Close, Text('d')]
    ensures SegmentDecode(mid, false)
      == [Chunk([LiteralAtom("b"), ColumnNameAtom("x"), LiteralAtom("c")], true), Chunk([LiteralAtom("d")], false)]
  {
    var inner := [LiteralAtom("b"), ColumnNameAtom("x"), LiteralAtom("c")];
    assert mid[..5] == [Text('b'), Dollar, Text('x'), Dollar, Text('c')];
    assert mid[6..] == [Text('d')];
    SeparatedPieces();
    InnerAtoms();
    assert ContainsColumnName(inner) by {
      assert inner[1].ColumnNameAtom?;
    }
    assert ChunkOf(inner, true) == [Chunk(inner, true)];
    SegmentDecodePlain([Text('d')], false);
    assert Literals([Text('d')]) == "d";
    SegmentDecodeAtBracket(mid, false, 5);
  }

  lemma BracketExampleSegments(ts: seq<Token>)
    requires ts == [Text('a'), Open, Text('b'), Dollar, Text('x'), Dollar, Text('c'), Close, Text('d')]
    ensures SegmentDecode(ts, false)
      == [Chunk([LiteralAtom("a")], false),
          Chunk([LiteralAtom("b"), ColumnNameAtom("x"), LiteralAtom("c")], true),
          Chunk([LiteralAtom("d")], false)]
  {
    assert ts[..1] == [Text('a')];
    assert Pieces([Text('a')]) == ["a"] by {
      PiecesPlain([Text('a')]);
      assert Literals([Text('a')]) == "a";
    }
    assert PieceAtoms(["a"], false) == [LiteralAtom("a")];
    TailSegments(ts[2..]);
    SegmentDecodeAtBracket(ts, false, 1);
  }

  lemma SeparatedPieces()
    ensures Pieces([Text('b'), Dollar, Text('x'), Dollar, Text('c')]) == ["b", "x", "c"]
  {
    PiecesCons(Text('c'), []);
    assert [Text('c')] + [] == [Text('c')];
    assert TokenText(Text('c')) + "" == "c";
    assert Pieces([Text('c')]) == ["c"];
    PiecesCons(Dollar, [Text('c')]);
    assert Pieces([Dollar, Text('c')]) == ["", "c"];
    PiecesCons(Text('x'), [Dollar, Text('c')]);
    assert TokenText(Text('x')) + "" == "x";
    assert Pieces([Text('x'), Dollar, Text('c')]) == ["x", "c"];
    PiecesCons(Dollar, [Text('x'), Dollar, Text('c')]);
    assert Pieces([Dollar, Text('x'), Dollar, Text('c')]) == ["", "x", "c"];
    PiecesCons(Text('b'), [Dollar, Text('x'), Dollar, Text('c')]);
    assert TokenText(Text('b')) + "" == "b";
  }

  /** `a[b$x$c]d` decodes to `a`, then the optional chunk `b`, `x`, `c`, then `d`. */
  lemma BracketExample()
    ensures Decode("a[b$x$c]d") == Success([
      Chunk([LiteralAtom("a")], false),
      Chunk([LiteralAtom("b"), ColumnNameAtom("x"), LiteralAtom("c")], true),
      Chunk([LiteralAtom("d")], false)])
  {
    BracketExampleValid();
    BracketExampleTokens();
    BracketExampleSegments(Lex("a[b$x$c]d"));
  }

  /** The `$` pass counts every `$`, escaped or not: `\$` is rejected as a dangling
      field delimiter although the escape reads it as a literal `$`. */
  lemma EscapedDollarRejected(s: string)
    requires s == "\\$"
    ensures Literals(Lex(s)) == "$"
    ensures Decode(s) == Failure(DanglingFieldDelimiter)
  {
    assert s[2..] == "";
    assert Lex(s) == [Text('$')];
    assert s[..|s| - 1] == "\\" && "\\"[..0] == "";
    assert CountDollarChars("\\") == 0;
    assert CountDollarChars(s) == 1;
    assert !BracketWhileUnpaired(s);
  }

  /** A `]` with no `[` before it is rejected. */
  lemma DanglingCloseExample(s: string)
    requires s == "a]b"
    ensures Decode(s) == Failure(DanglingCloseBracket)
  {
    assert s[1..] == "]b" && s[2..] == "b" && s[1..][1..] == "b";
    assert Lex("b") == [Text('b')];
    assert Lex(s) == [Text('a'), Close, Text('b')];
    assert Brackets([Text('b')]) == [];
    assert Brackets([Close, Text('b')]) == [Close];
    var bs := Brackets(Lex(s));
    assert bs == [Close];
    assert MisplacedAt(bs, 0);
    assert s[..|s| - 1] == "a]" && "a]"[..1] == "a" && "a"[..0] == "";
    assert CountDollarChars("a") == 0;
    assert CountDollarChars("a]") == 0;
    assert CountDollarChars(s) == 0;
    forall i | 0 <= i < |s| && IsBracketChar(s[i]) ensures CountDollarChars(s[..i]) % 2 == 0 {
      assert i == 1;
    }
    assert DollarCheck(s) == Pass;
  }

  lemma NestedPrefixTokens(pre: string)
    requires pre == "a[b["
    ensures Lex(pre) == [Text('a'), Open, Text('b'), Open]
  {
    assert pre[1..] == "[b[" && pre[2..] == "b[" && pre[3..] == "[" && pre[3..][1..] == "";
    assert Lex("[") == [Open];
    assert Lex("b[") == [Text('b'), Open];
    assert Lex("[b[") == [Open, Text('b'), Open];
  }

  lemma NestedPrefixBrackets(ts: seq<Token>)
    requires ts == [Text('a'), Open, Text('b'), Open]
    ensures Brackets(ts) == [Open, Open]
  {
    var head := [Text('a')] + [Open] + [Text('b')];
    OpenAfterPlain([Text('a')], [Text('b')]);
    BracketsAppend(head, [Open]);
    BracketsCons(Open, []);
    assert [Open] + [] == [Open];
    assert ts == head + [Open];
  }

  /** A second `[` before the first is closed is rejected. */
  lemma NestedBracketExample(s: string)
    requires s == "a[b[c]d]"
    ensures Decode(s) == Failure(NestedBracket)
  {
    assert s[..4] == "a[b[";
    NestedPrefixTokens(s[..4]);
    NestedPrefixBrackets(Lex(s[..4]));
    var b := Brackets(Lex(s[..4]));
    assert MisplacedAt(b, |b| - 1) by {
      assert b[0] == Expected(0);
    }
    FirstMisplacedDecides(s, 4);
    NoDollars(s);
  }

  /** A `$` without its partner is rejected. */
  lemma DanglingDollarExample(s: string)
    requires s == "a$b"
    ensures Decode(s) == Failure(DanglingFieldDelimiter)
  {
    assert s[..|s| - 1] == "a$" && "a$"[..1] == "a" && "a"[..0] == "";
    assert CountDollarChars("a") == 0;
    assert CountDollarChars("a$") == 1;
    assert CountDollarChars(s) == 1;
    assert !BracketWhileUnpaired(s);
  }

  /** A bracket between a `$` and its partner is rejected, before any bracket check. */
  lemma BracketInNameExample(s: string)
    requires s == "a[$b[c]$]"
    ensures Decode(s) == Failure(BracketInsideFieldName)
  {
    assert s[..4] == "a[$b";
    assert "a[$b"[..3] == "a[$" && "a[$"[..2] == "a[" && "a["[..1] == "a" && "a"[..0] == "";
    assert CountDollarChars("a") == 0;
    assert CountDollarChars("a[") == 0;
    assert CountDollarChars("a[$") == 1;
    assert CountDollarChars("a[$b") == 1;
    assert IsBracketChar(s[4]);
    assert BracketWhileUnpaired(s);
  }

  /** A string without `$` passes the `$` pass, so the bracket pass decides. */
  lemma NoDollars(s: string)
    requires forall i :: 0 <= i < |s| ==> s[i] != '$'
    ensures DollarCheck(s) == Pass
  {
    CountDollarCharsNone(s);
    forall i | 0 <= i < |s| ensures CountDollarChars(s[..i]) == 0 {
      CountDollarCharsNone(s[..i]);
    }
  }

  lemma EscapeExampleTokens(s: string)
    requires s == "\\$a\\$"
    ensures Lex(s) == [Text('$'), Text('a'), Text('$')]
  {
    assert s[2..] == "a\\$" && s[2..][1..] == "\\$" && s[2..][1..][2..] == "";
    assert Lex("\\$") == [Text('$')];
    assert Lex("a\\$") == [Text('a'), Text('$')];
  }

  lemma EscapeExampleValid(s: string)
    requires s == "\\$a\\$"
    ensures Validation(s) == Pass
  {
    EscapeExampleTokens(s);
    var ts := Lex(s);
    assert forall k :: 0 <= k < |ts| ==> ts[k].Text?;
    BracketsOfPlain(ts);
    assert s[..|s| - 1] == "\\$a\\";
    assert "\\$a\\"[..3] == "\\$a" && "\\$a"[..2] == "\\$" && "\\$"[..1] == "\\" && "\\"[..0] == "";
    assert CountDollarChars("\\") == 0;
    assert CountDollarChars("\\$") == 1;
    assert CountDollarChars("\\$a") == 1;
    assert CountDollarChars("\\$a\\") == 1;
    assert CountDollarChars(s) == 2;
    assert !BracketWhileUnpaired(s);
  }

  lemma EscapeExampleSegments(ts: seq<Token>)
    requires ts == [Text('$'), Text('a'), Text('$')]
    ensures SegmentDecode(ts, false) == [Chunk([LiteralAtom("$a$")], false)]
  {
    SegmentDecodePlain(ts, false);
    assert ts[1..] == [Text('a'), Text('$')] && ts[1..][1..] == [Text('$')] && ts[1..][1..][1..] == [];
    assert Literals([Text('$')]) == "$";
    assert Literals([Text('a'), Text('$')]) == "a$";
    assert Literals(ts) == "$a$";
  }

  /** `\$a\$` is one literal atom `$a$`: the escaped dollars pass the `$` pass because
      they pair up, and the decoder takes both as text. */
  lemma EscapeExample(s: string)
    requires s == "\\$a\\$"
    ensures Decode(s) == Success([Chunk([LiteralAtom("$a$")], false)])
  {
    EscapeExampleValid(s);
    EscapeExampleTokens(s);
    EscapeExampleSegments(Lex(s));
  }
}
