/** A declarative description of what `decode_pattern_string` produces from the tokens
    of a pattern string: cut the tokens at every bracket into segments, cut each segment
    at every `$` into pieces, and turn pieces into atoms and segments into chunks. */
module Segments {
  import opened Seqs
  import opened PatternModel
  import opened Escapes

  /** The text a single token contributes to an atom. */
  function TokenText(t: Token): string
  {
    if t.Text? then [t.c] else ""
  }

  /** The texts between consecutive `$` tokens of a segment (one more piece than `$`s). */
  function Pieces(seg: seq<Token>): (ps: seq<string>)
    ensures |ps| == CountDollars(seg) + 1
  {
    if seg == [] then [""]
    else
      var rest := Pieces(seg[1..]);
      if seg[0] == Dollar then [""] + rest
      else [TokenText(seg[0]) + rest[0]] + rest[1..]
  }

  /** The atoms of the pieces of one segment, `inName` being the field-name flag at the
      start of the segment. A piece closed by a `$` is a column name when the flag is
      set and a literal otherwise; the flag flips at every `$`; the last piece, closed by
      a bracket or by the end of the string, is always a literal; an empty piece yields
      no atom. */
  function PieceAtoms(ps: seq<string>, inName: bool): seq<Atom>
  {
    if ps == [] then []
    else
      (if ps[0] == "" then []
       else if |ps| > 1 && inName then [ColumnNameAtom(ps[0])]
       else [LiteralAtom(ps[0])])
      + PieceAtoms(ps[1..], !inName)
  }

  /** The chunk a segment becomes: none when it has no atoms, otherwise one chunk that
      is optional only when the segment was closed by `]` and refers to a column. */
  function ChunkOf(atoms: seq<Atom>, closedBySquare: bool): Pattern
  {
    if atoms == [] then [] else [Chunk(atoms, closedBySquare && ContainsColumnName(atoms))]
  }

  /** The reference decoder. The tokens before the first bracket form one segment; it
      becomes at most one chunk, which can be optional only if that bracket is `]`;
      decoding resumes after the bracket with the field-name flag as the segment left
      it (flipped once per `$`). */
  function SegmentDecode(ts: seq<Token>, inName: bool): Pattern
    decreases |ts|
  {
    var k := FirstWhere(ts, IsBracket);
    var ps := Pieces(ts[..k]);
    var atoms := PieceAtoms(ps, inName);
    if k == |ts| then ChunkOf(atoms, false)
    else ChunkOf(atoms, ts[k] == Close) + SegmentDecode(ts[k + 1..], inName != (|ps| % 2 == 0))
  }

  function Join(ps: seq<string>): string
  {
    if ps == [] then "" else ps[0] + Join(ps[1..])
  }

  // ---------------------------------------------------------------------------
  // Well-formedness

  lemma {:induction false} PieceAtomsNonEmpty(ps: seq<string>, inName: bool)
    ensures forall k :: 0 <= k < |PieceAtoms(ps, inName)| ==> PieceAtoms(ps, inName)[k].Content() != ""
    decreases |ps|
  {
    if ps != [] {
      PieceAtomsNonEmpty(ps[1..], !inName);
    }
  }

  lemma WellFormedAppend(p: Pattern, q: Pattern)
    requires WellFormed(p) && WellFormed(q)
    ensures WellFormed(p + q)
  {
    forall k | 0 <= k < |p + q| ensures WellFormedChunk((p + q)[k]) {
      if k < |p| {
        assert (p + q)[k] == p[k];
      } else {
        assert (p + q)[k] == q[k - |p|];
      }
    }
  }

  /** Every pattern the reference decoder produces is well formed: no empty atom, no
      empty chunk, and no optional chunk without a column reference. */
  lemma {:induction false} SegmentDecodeWellFormed(ts: seq<Token>, inName: bool)
    ensures WellFormed(SegmentDecode(ts, inName))
    decreases |ts|
  {
    var k := FirstWhere(ts, IsBracket);
    var ps := Pieces(ts[..k]);
    var atoms := PieceAtoms(ps, inName);
    PieceAtomsNonEmpty(ps, inName);
    if k < |ts| {
      SegmentDecodeWellFormed(ts[k + 1..], inName != (|ps| % 2 == 0));
      WellFormedAppend(ChunkOf(atoms, ts[k] == Close), SegmentDecode(ts[k + 1..], inName != (|ps| % 2 == 0)));
    }
  }

  // ---------------------------------------------------------------------------
  // Text preservation

  lemma {:induction false} PieceAtomsText(ps: seq<string>, inName: bool)
    ensures AtomsText(PieceAtoms(ps, inName)) == Join(ps)
    decreases |ps|
  {
    if ps != [] {
      var head := if ps[0] == "" then []
        else if |ps| > 1 && inName then [ColumnNameAtom(ps[0])]
        else [LiteralAtom(ps[0])];
      PieceAtomsText(ps[1..], !inName);
      AtomsTextAppend(head, PieceAtoms(ps[1..], !inName));
      assert AtomsText(head) == ps[0];
    }
  }

  lemma {:induction false} JoinPieces(seg: seq<Token>)
    ensures Join(Pieces(seg)) == Literals(seg)
    decreases |seg|
  {
    if seg != [] {
      JoinPieces(seg[1..]);
      var rest := Pieces(seg[1..]);
      if seg[0] != Dollar {
        var ps := [TokenText(seg[0]) + rest[0]] + rest[1..];
        assert ps[1..] == rest[1..];
        assert Join(rest) == rest[0] + Join(rest[1..]);
      } else {
        assert ([""] + rest)[1..] == rest;
      }
    }
  }

  lemma ChunkOfText(atoms: seq<Atom>, closedBySquare: bool)
    ensures PatternText(ChunkOf(atoms, closedBySquare)) == AtomsText(atoms)
  {
    if atoms != [] {
      var c := Chunk(atoms, closedBySquare && ContainsColumnName(atoms));
      assert [c][1..] == [];
    }
  }

  /** A bracket contributes no text. */
  lemma LiteralsAroundBracket(ts: seq<Token>, k: nat)
    requires k < |ts| && IsBracket(ts[k])
    ensures Literals(ts) == Literals(ts[..k]) + Literals(ts[k + 1..])
  {
    assert ts == ts[..k] + ([ts[k]] + ts[k + 1..]);
    LiteralsAppend(ts[..k], [ts[k]] + ts[k + 1..]);
    LiteralsAppend([ts[k]], ts[k + 1..]);
    assert Literals([ts[k]]) == "";
  }

  /** The text of the chunk a segment becomes is the plain text of the segment. */
  lemma SegmentText(seg: seq<Token>, inName: bool, closedBySquare: bool)
    ensures PatternText(ChunkOf(PieceAtoms(Pieces(seg), inName), closedBySquare)) == Literals(seg)
  {
    ChunkOfText(PieceAtoms(Pieces(seg), inName), closedBySquare);
    PieceAtomsText(Pieces(seg), inName);
    JoinPieces(seg);
  }

  /** The atoms of a decoded pattern spell out exactly the plain text of the tokens. */
  lemma {:induction false} SegmentDecodeText(ts: seq<Token>, inName: bool)
    ensures PatternText(SegmentDecode(ts, inName)) == Literals(ts)
    decreases |ts|
  {
    var k := FirstWhere(ts, IsBracket);
    var ps := Pieces(ts[..k]);
    var atoms := PieceAtoms(ps, inName);
    if k == |ts| {
      assert ts[..k] == ts;
      SegmentText(ts, inName, false);
    } else {
      var rest := ts[k + 1..];
      var inName' := inName != (|ps| % 2 == 0);
      var head := ChunkOf(atoms, ts[k] == Close);
      assert SegmentDecode(ts, inName) == head + SegmentDecode(rest, inName');
      SegmentText(ts[..k], inName, ts[k] == Close);
      SegmentDecodeText(rest, inName');
      PatternTextAppend(head, SegmentDecode(rest, inName'));
      LiteralsAroundBracket(ts, k);
    }
  }

  // ---------------------------------------------------------------------------
  // Plain text

  lemma {:induction false} PiecesPlain(ts: seq<Token>)
    requires forall k :: 0 <= k < |ts| ==> ts[k].Text?
    ensures Pieces(ts) == [Literals(ts)]
    decreases |ts|
  {
    if ts != [] {
      PiecesPlain(ts[1..]);
    }
  }

  /** Tokens that are all plain text decode to one non-optional literal chunk holding
      all of them, or to nothing when there are none. */
  lemma SegmentDecodePlain(ts: seq<Token>, inName: bool)
    requires forall k :: 0 <= k < |ts| ==> ts[k].Text?
    ensures SegmentDecode(ts, inName) ==
      if ts == [] then [] else [Chunk([LiteralAtom(Literals(ts))], false)]
  {
    var k := FirstWhere(ts, IsBracket);
    assert k == |ts|;
    assert ts[..k] == ts;
    PiecesPlain(ts);
    assert SegmentDecode(ts, inName) == ChunkOf(PieceAtoms([Literals(ts)], inName), false);
    if ts != [] {
      assert Literals(ts) == [ts[0].c] + Literals(ts[1..]);
      assert PieceAtoms([Literals(ts)], inName) == [LiteralAtom(Literals(ts))];
    } else {
      assert PieceAtoms([""], inName) == [];
    }
  }
}
