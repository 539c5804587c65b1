/** The compiled form of a pattern string: atoms grouped into chunks (decode.py). */
module PatternModel {

  /** The smallest unit of a pattern: plain text printed as is, or a reference to a
      column whose cell is filled in. Both variants carry the text they were built from. */
  datatype Atom = LiteralAtom(text: string) | ColumnNameAtom(colname: string)
  {
    /** The characters of the pattern string this atom was made of. */
    function Content(): string
    {
      match this
      case LiteralAtom(t) => t
      case ColumnNameAtom(n) => n
    }
  }

  /** A run of atoms, optional when it came from a bracketed segment that refers to a column. */
  datatype Chunk = Chunk(atoms: seq<Atom>, optional: bool)

  type Pattern = seq<Chunk>

  predicate ContainsColumnName(atoms: seq<Atom>)
  {
    exists k :: 0 <= k < |atoms| && atoms[k].ColumnNameAtom?
  }


  /** The flag-driven scan that decides whether an optional chunk refers to a column. */
  method ContainColnameAtom(atoms: seq<Atom>) returns (flg: bool)
    ensures flg <==> ContainsColumnName(atoms)
  {
    flg := false;
    var i := 0;
    while i < |atoms|
      invariant 0 <= i <= |atoms|
      invariant !flg
      invariant forall k :: 0 <= k < i ==> !atoms[k].ColumnNameAtom?
    {
      if atoms[i].ColumnNameAtom? {
        flg := true;
        break;
      }
      i := i + 1;
    }
  }

  /** An optional chunk over `atoms`, downgraded to a non-optional one when no atom
      refers to a column (the source also prints a warning, which is not modelled). */
  method GetOptionalPatternChunk(atoms: seq<Atom>) returns (c: Chunk)
    ensures c.atoms == atoms
    ensures c.optional <==> ContainsColumnName(atoms)
  {
    var flg := ContainColnameAtom(atoms);
    if !flg {
      return Chunk(atoms, false);
    }
    return Chunk(atoms, true);
  }

  /** The text of a run of atoms, in order. */
  function AtomsText(atoms: seq<Atom>): string
  {
    if atoms == [] then "" else atoms[0].Content() + AtomsText(atoms[1..])
  }

  /** The text of all atoms of a pattern, chunk by chunk in order. */
  function PatternText(p: Pattern): string
  {
    if p == [] then "" else AtomsText(p[0].atoms) + PatternText(p[1..])
  }

  lemma {:induction false} AtomsTextAppend(a: seq<Atom>, b: seq<Atom>)
    ensures AtomsText(a + b) == AtomsText(a) + AtomsText(b)
    decreases |a|
  {
    if a == [] {
      assert a + b == b;
    } else {
      assert (a + b)[0] == a[0];
      assert (a + b)[1..] == a[1..] + b;
      AtomsTextAppend(a[1..], b);
      assert AtomsText(a + b) == a[0].Content() + (AtomsText(a[1..]) + AtomsText(b));
    }
  }

  lemma {:induction false} PatternTextAppend(p: Pattern, q: Pattern)
    ensures PatternText(p + q) == PatternText(p) + PatternText(q)
    decreases |p|
  {
    if p == [] {
      assert p + q == q;
    } else {
      assert (p + q)[0] == p[0];
      assert (p + q)[1..] == p[1..] + q;
      PatternTextAppend(p[1..], q);
      assert PatternText(p + q) == AtomsText(p[0].atoms) + (PatternText(p[1..]) + PatternText(q));
    }
  }

  /** The invariants every decoded chunk satisfies: it is non-empty, none of its atoms is
      empty, and it is optional only if it refers to a column. */
  predicate WellFormedChunk(c: Chunk)
  {
    && |c.atoms| > 0
    && (forall k :: 0 <= k < |c.atoms| ==> c.atoms[k].Content() != "")
    && (c.optional ==> ContainsColumnName(c.atoms))
  }

  /** `get_pattern_chunk`: a non-optional chunk over `atoms`, which is well formed
      exactly when the atoms are non-empty and none of them is empty. */
  function GetPatternChunk(atoms: seq<Atom>): (c: Chunk)
    ensures c.atoms == atoms && !c.optional
    ensures WellFormedChunk(c) <==> |atoms| > 0 && forall k :: 0 <= k < |atoms| ==> atoms[k].Content() != ""
  {
    Chunk(atoms, false)
  }

  predicate WellFormed(p: Pattern)
  {
    forall k :: 0 <= k < |p| ==> WellFormedChunk(p[k])
  }
}
