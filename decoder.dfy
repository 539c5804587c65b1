/** `decode_pattern_string` (decode.py): validation, then one left-to-right scan that
    turns the characters into chunks of atoms. */
module Decoder {
  import opened Wrappers
  import opened Seqs
  import opened PatternModel
  import opened Escapes
  import opened Validator
  import opened Segments

  /** What `decode_pattern_string` returns for `s`: the validator's error, or the
      pattern the reference decoder gives for the tokens of `s`. */
  function Decode(s: string): Result<Pattern, GrammarError>
  {
    match Validation(s)
    case Fail(e) => Failure(e)
    case Pass => Success(SegmentDecode(Lex(s), false))
  }

  // ---------------------------------------------------------------------------
  // The scan as a transition function over tokens

  /** The scan's state once the escape flag is folded into the tokens: the chunks so far
      (`pattern`), the atoms of the current chunk (`curr_atoms`), the text read since the
      last flush (`curr_string`) and `in_colname_atom`. */
  datatype ScanState = ScanState(pattern: Pattern, atoms: seq<Atom>, buf: string, inName: bool)

  const Start: ScanState := ScanState([], [], "", false)

  /** Appends the pending text, when there is some, as a column-name or literal atom. */
  function Flush(atoms: seq<Atom>, buf: string, asName: bool): seq<Atom>
  {
    if buf == "" then atoms
    else atoms + [if asName then ColumnNameAtom(buf) else LiteralAtom(buf)]
  }

  function Step(st: ScanState, t: Token): ScanState
  {
    match t
    case Text(c) => st.(buf := st.buf + [c])
    case Dollar => ScanState(st.pattern, Flush(st.atoms, st.buf, st.inName), "", !st.inName)
    case Open => ScanState(st.pattern + ChunkOf(Flush(st.atoms, st.buf, false), false), [], "", st.inName)
    case Close => ScanState(st.pattern + ChunkOf(Flush(st.atoms, st.buf, false), true), [], "", st.inName)
  }

  function RunFrom(st: ScanState, ts: seq<Token>): ScanState
    decreases |ts|
  {
    if ts == [] then st else RunFrom(Step(st, ts[0]), ts[1..])
  }

  /** The flushes after the loop: the pending text as a literal, then the pending atoms
      as a non-optional chunk. */
  function Finish(st: ScanState): Pattern
  {
    st.pattern + ChunkOf(Flush(st.atoms, st.buf, false), false)
  }

  lemma {:induction false} RunFromAppend(st: ScanState, a: seq<Token>, b: seq<Token>)
    ensures RunFrom(st, a + b) == RunFrom(RunFrom(st, a), b)
    decreases |a|
  {
    if a == [] {
      assert a + b == b;
    } else {
      assert (a + b)[0] == a[0];
      assert (a + b)[1..] == a[1..] + b;
      RunFromAppend(Step(st, a[0]), a[1..], b);
    }
  }

  lemma RunFromSnoc(st: ScanState, ts: seq<Token>, t: Token)
    ensures RunFrom(st, ts + [t]) == Step(RunFrom(st, ts), t)
  {
    RunFromAppend(st, ts, [t]);
    assert RunFrom(RunFrom(st, ts), [t]) == RunFrom(Step(RunFrom(st, ts), t), []);
  }

  // ---------------------------------------------------------------------------
  // The scan computes the reference decoder

  /** The pieces of a segment whose first piece is preceded by text `b` already read. */
  function Prepend(b: string, ps: seq<string>): seq<string>
    requires |ps| > 0
  {
    [b + ps[0]] + ps[1..]
  }

  /** What scanning a bracket-free run leaves behind, for `SegmentRun`. */
  ghost predicate SegmentRunPost(st: ScanState, seg: seq<Token>)
    requires forall k :: 0 <= k < |seg| ==> !IsBracket(seg[k])
  {
    && RunFrom(st, seg).pattern == st.pattern
    && RunFrom(st, seg).inName == (st.inName != (|Pieces(seg)| % 2 == 0))
    && Flush(RunFrom(st, seg).atoms, RunFrom(st, seg).buf, false)
       == st.atoms + PieceAtoms(Prepend(st.buf, Pieces(seg)), st.inName)
  }

  /** Scanning a bracket-free run adds no chunk, flips the field-name flag once per `$`,
      and leaves pending exactly the atoms of its pieces. */
  lemma {:induction false} SegmentRun(st: ScanState, seg: seq<Token>)
    requires forall k :: 0 <= k < |seg| ==> !IsBracket(seg[k])
    ensures RunFrom(st, seg).pattern == st.pattern
    ensures RunFrom(st, seg).inName == (st.inName != (|Pieces(seg)| % 2 == 0))
    ensures Flush(RunFrom(st, seg).atoms, RunFrom(st, seg).buf, false)
         == st.atoms + PieceAtoms(Prepend(st.buf, Pieces(seg)), st.inName)
    decreases |seg|, 1
  {
    if seg == [] {
      assert st.buf + "" == st.buf;
      assert Prepend(st.buf, Pieces(seg)) == [st.buf];
    } else if seg[0] == Dollar {
      SegmentRunDollar(st, seg);
    } else {
      SegmentRunText(st, seg);
    }
  }

  lemma {:induction false} SegmentRunDollar(st: ScanState, seg: seq<Token>)
    requires forall k :: 0 <= k < |seg| ==> !IsBracket(seg[k])
    requires seg != [] && seg[0] == Dollar
    ensures SegmentRunPost(st, seg)
    decreases |seg|, 0
  {
    var rest := Pieces(seg[1..]);
    var st1 := Step(st, Dollar);
    SegmentRun(st1, seg[1..]);
    assert RunFrom(st, seg) == RunFrom(st1, seg[1..]);
    assert "" + rest[0] == rest[0];
    assert [rest[0]] + rest[1..] == rest;
    assert Prepend("", rest) == rest;
    var ps := Prepend(st.buf, Pieces(seg));
    assert Pieces(seg)[0] == "" && Pieces(seg)[1..] == rest;
    assert st.buf + "" == st.buf;
    assert ps == [st.buf] + rest;
    assert ps[1..] == rest;
    var head := if st.buf == "" then [] else if st.inName then [ColumnNameAtom(st.buf)] else [LiteralAtom(st.buf)];
    assert PieceAtoms(ps, st.inName) == head + PieceAtoms(rest, !st.inName);
    assert st1.atoms == st.atoms + head;
    ConcatAssoc(st.atoms, head, PieceAtoms(rest, !st.inName));
  }

  lemma PrependText(b: string, c: char, rest: seq<string>)
    requires |rest| > 0
    ensures Prepend(b, [[c] + rest[0]] + rest[1..]) == Prepend(b + [c], rest)
  {
    var ps := [[c] + rest[0]] + rest[1..];
    assert ps[1..] == rest[1..];
    ConcatAssoc(b, [c], rest[0]);
  }

  lemma {:induction false} SegmentRunText(st: ScanState, seg: seq<Token>)
    requires forall k :: 0 <= k < |seg| ==> !IsBracket(seg[k])
    requires seg != [] && seg[0] != Dollar
    ensures SegmentRunPost(st, seg)
    decreases |seg|, 0
  {
    assert seg[0].Text?;
    var rest := Pieces(seg[1..]);
    var st1 := Step(st, seg[0]);
    SegmentRun(st1, seg[1..]);
    assert RunFrom(st, seg) == RunFrom(st1, seg[1..]);
    PrependText(st.buf, seg[0].c, rest);
    assert Pieces(seg) == [[seg[0].c] + rest[0]] + rest[1..];
    assert st1.atoms == st.atoms && st1.inName == st.inName && st1.pattern == st.pattern;
    assert st1.buf == st.buf + [seg[0].c];
  }

  /** Scanning a whole bracket-free segment from an empty buffer leaves its atoms pending. */
  lemma SegmentPending(st: ScanState, seg: seq<Token>)
    requires st.atoms == [] && st.buf == ""
    requires forall k :: 0 <= k < |seg| ==> !IsBracket(seg[k])
    ensures RunFrom(st, seg).pattern == st.pattern
    ensures RunFrom(st, seg).inName == (st.inName != (|Pieces(seg)| % 2 == 0))
    ensures Flush(RunFrom(st, seg).atoms, RunFrom(st, seg).buf, false) == PieceAtoms(Pieces(seg), st.inName)
  {
    SegmentRun(st, seg);
    var ps := Pieces(seg);
    assert "" + ps[0] == ps[0];
    assert [ps[0]] + ps[1..] == ps;
    assert Prepend("", ps) == ps;
    assert st.atoms + PieceAtoms(ps, st.inName) == PieceAtoms(ps, st.inName);
  }

  /** The scan of a segment followed by its closing bracket. */
  lemma SegmentThenBracket(st: ScanState, ts: seq<Token>, k: nat)
    requires st.atoms == [] && st.buf == ""
    requires k < |ts| && IsBracket(ts[k])
    requires forall j :: 0 <= j < k ==> !IsBracket(ts[j])
    ensures var ps := Pieces(ts[..k]);
      RunFrom(st, ts) == RunFrom(
        ScanState(st.pattern + ChunkOf(PieceAtoms(ps, st.inName), ts[k] == Close), [], "",
                  st.inName != (|ps| % 2 == 0)),
        ts[k + 1..])
  {
    var seg := ts[..k];
    var rest := ts[k + 1..];
    SegmentPending(st, seg);
    var st' := RunFrom(st, seg);
    assert ts == seg + ([ts[k]] + rest);
    RunFromAppend(st, seg, [ts[k]] + rest);
    assert RunFrom(st', [ts[k]] + rest) == RunFrom(Step(st', ts[k]), rest);
  }

  lemma SegmentDecodeAtBracket(ts: seq<Token>, inName: bool, k: nat)
    requires k < |ts| && IsBracket(ts[k])
    requires forall j :: 0 <= j < k ==> !IsBracket(ts[j])
    ensures var ps := Pieces(ts[..k]);
      SegmentDecode(ts, inName)
      == ChunkOf(PieceAtoms(ps, inName), ts[k] == Close) + SegmentDecode(ts[k + 1..], inName != (|ps| % 2 == 0))
  {
    assert FirstWhere(ts, IsBracket) == k;
  }

  /** From the start of a segment, the scan followed by the final flushes appends what
      the reference decoder produces. */
  lemma {:induction false} RunMatchesSegments(st: ScanState, ts: seq<Token>)
    requires st.atoms == [] && st.buf == ""
    ensures Finish(RunFrom(st, ts)) == st.pattern + SegmentDecode(ts, st.inName)
    decreases |ts|
  {
    var k := FirstWhere(ts, IsBracket);
    if k == |ts| {
      assert ts[..k] == ts;
      SegmentPending(st, ts);
      assert SegmentDecode(ts, st.inName) == ChunkOf(PieceAtoms(Pieces(ts), st.inName), false);
    } else {
      var ps := Pieces(ts[..k]);
      var head := ChunkOf(PieceAtoms(ps, st.inName), ts[k] == Close);
      var st'' := ScanState(st.pattern + head, [], "", st.inName != (|ps| % 2 == 0));
      var rest := ts[k + 1..];
      SegmentThenBracket(st, ts, k);
      assert RunFrom(st, ts) == RunFrom(st'', rest);
      SegmentDecodeAtBracket(ts, st.inName, k);
      var tail := SegmentDecode(rest, st''.inName);
      assert SegmentDecode(ts, st.inName) == head + tail;
      RunMatchesSegments(st'', rest);
      assert Finish(RunFrom(st'', rest)) == (st.pattern + head) + tail;
      ConcatAssoc(st.pattern, head, tail);
    }
  }

  /** The one-pass scan over the tokens of `s` yields the reference decoding. */
  lemma ScanIsSegmentDecode(s: string)
    ensures Finish(RunFrom(Start, Lex(s))) == SegmentDecode(Lex(s), false)
  {
    RunMatchesSegments(Start, Lex(s));
    assert Start.pattern + SegmentDecode(Lex(s), false) == SegmentDecode(Lex(s), false);
  }

  // ---------------------------------------------------------------------------
  // The imperative decoder

  /** `decode_pattern_string`: validates `s`, then scans it one character at a time,
      keeping `curr_string`, `curr_atoms`, `pattern`, `in_colname_atom` and `escape`. */
  method DecodePatternString(s: string) returns (r: Result<Pattern, GrammarError>)
    ensures r == Decode(s)
    ensures r.Failure? <==> Validation(s).Fail?
    ensures r.Success? ==> WellFormed(r.value)
    ensures r.Success? ==> PatternText(r.value) == Literals(Lex(s))
  {
    var v := ValidatePatternString(s);
    if v.Fail? {
      return Failure(v.error);
    }
    var pattern: Pattern := [];
    var currString := "";
    var currAtoms: seq<Atom> := [];
    var inColnameAtom := false;
    var escape := false;
    for i := 0 to |s|
      invariant escape == EscapePending(s[..i])
      invariant ScanState(pattern, currAtoms, currString, inColnameAtom) == RunFrom(Start, Lex(s[..i]))
    {
      var c := s[i];
      ghost var before := Lex(s[..i]);
      assert s[..i + 1] == s[..i] + [c];
      LexSnoc(s[..i], c);
      if c == '\\' && !escape {
        escape := true;
      } else if c == '$' && !escape {
        RunFromSnoc(Start, before, Dollar);
        if !inColnameAtom {
          if currString != "" {
            currAtoms := currAtoms + [LiteralAtom(currString)];
            currString := "";
          }
          inColnameAtom := true;
        } else {
          if currString != "" {
            currAtoms := currAtoms + [ColumnNameAtom(currString)];
            currString := "";
          }
          inColnameAtom := false;
        }
      } else if c == '[' && !escape {
        RunFromSnoc(Start, before, Open);
        if currString != "" {
          currAtoms := currAtoms + [LiteralAtom(currString)];
          currString := "";
        }
        if currAtoms != [] {
          pattern := pattern + [GetPatternChunk(currAtoms)];
          currAtoms := [];
        }
      } else if c == ']' && !escape {
        RunFromSnoc(Start, before, Close);
        if currString != "" {
          currAtoms := currAtoms + [LiteralAtom(currString)];
          currString := "";
        }
        if currAtoms != [] {
          var chunk := GetOptionalPatternChunk(currAtoms);
          pattern := pattern + [chunk];
          currAtoms := [];
        }
      } else {
        RunFromSnoc(Start, before, Text(c));
        currString := currString + [c];
        escape := false;
      }
    }
    assert s[..|s|] == s;
    ghost var last := RunFrom(Start, Lex(s));
    if currString != "" {
      currAtoms := currAtoms + [LiteralAtom(currString)];
    }
    assert currAtoms == Flush(last.atoms, last.buf, false);
    if currAtoms != [] {
      pattern := pattern + [GetPatternChunk(currAtoms)];
    }
    assert pattern == Finish(last);
    ScanIsSegmentDecode(s);
    SegmentDecodeWellFormed(Lex(s), false);
    SegmentDecodeText(Lex(s), false);
    return Success(pattern);
  }
}
