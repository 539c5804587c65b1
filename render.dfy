/** Rendering decoded patterns against data rows (cv_export.py): chunks, rows and blocks. */
module Render {
  import opened Wrappers
  import opened Seqs
  import opened PatternModel
  import opened Decimal
  import opened Handlers
  import opened Validator
  import opened Decoder

  // ---------------------------------------------------------------------------------
  // Chunks

  /** A literal atom prints its text; a column-name atom prints what its handler returns. */
  function RenderAtom(a: Atom, row: Row, rowIdx: int, colname2handler: map<string, Handler>): Result<string, RenderError>
  {
    match a
    case LiteralAtom(t) => Success(t)
    case ColumnNameAtom(n) => HandleColumn(n, row, rowIdx, colname2handler)
  }

  function AtomRenderings(atoms: seq<Atom>, row: Row, rowIdx: int, colname2handler: map<string, Handler>): (rs: seq<Result<string, RenderError>>)
    ensures |rs| == |atoms|
  {
    seq(|atoms|, k requires 0 <= k < |atoms| => RenderAtom(atoms[k], row, rowIdx, colname2handler))
  }

  /** Looking up the cell of a column-name atom gives no value: the column is absent or null. */
  predicate Unavailable(a: Atom, row: Row)
  {
    a.ColumnNameAtom? && (a.colname !in row || row[a.colname].None?)
  }

  /** The verdict of `is_required_optional_chunk`: scanning the atoms in order, the first
      column-name atom whose cell is null makes it false, and the first one whose column
      the row lacks makes the lookup fail. */
  function Eligibility(atoms: seq<Atom>, row: Row): (r: Result<bool, RenderError>)
    ensures r == Success(true) <==> forall k :: 0 <= k < |atoms| ==> !Unavailable(atoms[k], row)
    ensures r == Success(false) <==>
      exists j :: 0 <= j < |atoms| && atoms[j].ColumnNameAtom? && atoms[j].colname in row && row[atoms[j].colname].None?
        && forall k :: 0 <= k < j ==> !Unavailable(atoms[k], row)
    ensures r.Failure? ==>
      exists j :: 0 <= j < |atoms| && atoms[j].ColumnNameAtom? && atoms[j].colname !in row
        && r.error == MissingColumn(atoms[j].colname) && forall k :: 0 <= k < j ==> !Unavailable(atoms[k], row)
  {
    var j := FirstWhere(atoms, (a: Atom) => Unavailable(a, row));
    if j == |atoms| then Success(true)
    else if atoms[j].colname in row then Success(false)
    else Failure(MissingColumn(atoms[j].colname))
  }

  method IsRequiredOptionalChunk(atoms: seq<Atom>, row: Row) returns (r: Result<bool, RenderError>)
    ensures r == Eligibility(atoms, row)
  {
    for i := 0 to |atoms|
      invariant forall k :: 0 <= k < i ==> !Unavailable(atoms[k], row)
    {
      var atom := atoms[i];
      if atom.ColumnNameAtom? {
        if atom.colname !in row {
          return Failure(MissingColumn(atom.colname));
        }
        if row[atom.colname].None? {
          return Success(false);
        }
      }
    }
    return Success(true);
  }

  /** What `handle_chunk` returns: nothing for an optional chunk with a null cell, otherwise
      the renderings of its atoms concatenated in order, failing at the first failure. */
  function RenderChunk(c: Chunk, row: Row, rowIdx: int, colname2handler: map<string, Handler>): Result<string, RenderError>
  {
    if c.optional && Eligibility(c.atoms, row) != Success(true) then
      match Eligibility(c.atoms, row)
      case Failure(e) => Failure(e)
      case Success(_) => Success("")
    else Collect(AtomRenderings(c.atoms, row, rowIdx, colname2handler))
  }

  method HandleChunk(c: Chunk, row: Row, rowIdx: int, colname2handler: map<string, Handler>) returns (r: Result<string, RenderError>)
    ensures r == RenderChunk(c, row, rowIdx, colname2handler)
  {
    if c.optional {
      var required := IsRequiredOptionalChunk(c.atoms, row);
      if required.Failure? {
        return Failure(required.error);
      }
      if !required.value {
        return Success("");
      }
    }
    ghost var rs := AtomRenderings(c.atoms, row, rowIdx, colname2handler);
    var s := "";
    for i := 0 to |c.atoms|
      invariant Collect(rs[..i]) == Success(s)
    {
      assert rs[..i + 1] == rs[..i] + [rs[i]];
      CollectSnoc(rs[..i], s, rs[i]);
      match c.atoms[i]
      case ColumnNameAtom(n) =>
        var handler := GetHandler(n, rowIdx, colname2handler);
        var out := Apply(handler, row, n);
        if out.Failure? {
          CollectFailsAt(rs, i);
          return Failure(out.error);
        }
        s := s + out.value;
      case LiteralAtom(t) =>
        s := s + t;
    }
    assert rs[..|c.atoms|] == rs;
    return Success(s);
  }

  /** The text of `atoms` with each column-name atom replaced by its cell (empty for a
      null or absent cell). */
  function FilledText(atoms: seq<Atom>, row: Row): string
  {
    if atoms == [] then ""
    else
      (match atoms[0]
       case LiteralAtom(t) => t
       case ColumnNameAtom(n) => if n in row && row[n].Some? then row[n].value else "")
      + FilledText(atoms[1..], row)
  }

  /** Column-name atoms that fall to the default handler: not the ordinal and not bound. */
  predicate DefaultOnly(atoms: seq<Atom>, colname2handler: map<string, Handler>)
  {
    forall k :: 0 <= k < |atoms| && atoms[k].ColumnNameAtom? ==>
      atoms[k].colname != Ordinal && atoms[k].colname !in colname2handler
  }

  lemma {:induction false} FilledAtoms(atoms: seq<Atom>, row: Row, rowIdx: int, colname2handler: map<string, Handler>)
    requires DefaultOnly(atoms, colname2handler)
    requires forall k :: 0 <= k < |atoms| ==> !Unavailable(atoms[k], row)
    ensures Collect(AtomRenderings(atoms, row, rowIdx, colname2handler)) == Success(FilledText(atoms, row))
    decreases |atoms|
  {
    var rs := AtomRenderings(atoms, row, rowIdx, colname2handler);
    if atoms != [] {
      assert rs[1..] == AtomRenderings(atoms[1..], row, rowIdx, colname2handler);
      FilledAtoms(atoms[1..], row, rowIdx, colname2handler);
    }
  }

  /** When every cell a chunk refers to is present and each column falls to the default
      handler, the chunk renders as its text with the cells filled in, optional or not. */
  lemma FilledChunk(c: Chunk, row: Row, rowIdx: int, colname2handler: map<string, Handler>)
    requires DefaultOnly(c.atoms, colname2handler)
    requires forall k :: 0 <= k < |c.atoms| ==> !Unavailable(c.atoms[k], row)
    ensures RenderChunk(c, row, rowIdx, colname2handler) == Success(FilledText(c.atoms, row))
  {
    FilledAtoms(c.atoms, row, rowIdx, colname2handler);
  }

  /** A chunk without column-name atoms renders as the text it was decoded from. */
  lemma {:induction false} LiteralChunk(c: Chunk, row: Row, rowIdx: int, colname2handler: map<string, Handler>)
    requires !ContainsColumnName(c.atoms)
    ensures RenderChunk(c, row, rowIdx, colname2handler) == Success(AtomsText(c.atoms))
  {
    FilledChunk(c, row, rowIdx, colname2handler);
    LiteralFill(c.atoms, row);
  }

  lemma {:induction false} LiteralFill(atoms: seq<Atom>, row: Row)
    requires !ContainsColumnName(atoms)
    ensures FilledText(atoms, row) == AtomsText(atoms)
    decreases |atoms|
  {
    if atoms != [] {
      assert !ContainsColumnName(atoms[1..]) by {
        forall k | 0 <= k < |atoms[1..]| ensures !atoms[1..][k].ColumnNameAtom? {
          assert atoms[1..][k] == atoms[k + 1];
        }
      }
      assert !atoms[0].ColumnNameAtom?;
      LiteralFill(atoms[1..], row);
    }
  }

  /** An optional chunk whose columns all exist but one of whose cells is null renders
      as nothing, whatever the handlers and the row number. */
  lemma SuppressedChunk(c: Chunk, row: Row, rowIdx: int, colname2handler: map<string, Handler>, j: nat)
    requires c.optional
    requires forall k :: 0 <= k < |c.atoms| && c.atoms[k].ColumnNameAtom? ==> c.atoms[k].colname in row
    requires j < |c.atoms| && c.atoms[j].ColumnNameAtom? && row[c.atoms[j].colname].None?
    ensures RenderChunk(c, row, rowIdx, colname2handler) == Success("")
  {
    var r := Eligibility(c.atoms, row);
    assert Unavailable(c.atoms[j], row);
    assert r != Success(true);
  }

  // ---------------------------------------------------------------------------------
  // Column-name check

  /** The column names a run of atoms refers to, in order. */
  function ColumnNames(atoms: seq<Atom>): seq<string>
  {
    if atoms == [] then []
    else (if atoms[0].ColumnNameAtom? then [atoms[0].colname] else []) + ColumnNames(atoms[1..])
  }

  /** The column names a pattern refers to, chunk by chunk in order. */
  function PatternColumnNames(p: Pattern): seq<string>
  {
    if p == [] then [] else ColumnNames(p[0].atoms) + PatternColumnNames(p[1..])
  }

  /** A name the data can supply: one of the row's columns or the ordinal. */
  predicate Known(colname: string, row: Row)
  {
    colname in row || colname == Ordinal
  }

  predicate AllKnown(names: seq<string>, row: Row)
  {
    forall k :: 0 <= k < |names| ==> Known(names[k], row)
  }

  /** The verdict of `check_colnames`: the first name in pattern order that the data cannot
      supply is reported. */
  function ColnamesCheck(p: Pattern, row: Row): (r: Outcome<RenderError>)
    ensures r.Pass? <==> AllKnown(PatternColumnNames(p), row)
    ensures r.Fail? ==> r.error.UnknownColumn? && !Known(r.error.column, row) && r.error.column in PatternColumnNames(p)
  {
    var names := PatternColumnNames(p);
    var j := FirstWhere(names, (n: string) => !Known(n, row));
    if j == |names| then Pass else Fail(UnknownColumn(names[j]))
  }

  lemma {:induction false} ColumnNamesAppend(a: seq<Atom>, b: seq<Atom>)
    ensures ColumnNames(a + b) == ColumnNames(a) + ColumnNames(b)
    decreases |a|
  {
    if a == [] {
      assert a + b == b;
    } else {
      assert (a + b)[0] == a[0];
      assert (a + b)[1..] == a[1..] + b;
      ColumnNamesAppend(a[1..], b);
    }
  }

  lemma {:induction false} PatternColumnNamesAppend(p: Pattern, q: Pattern)
    ensures PatternColumnNames(p + q) == PatternColumnNames(p) + PatternColumnNames(q)
    decreases |p|
  {
    if p == [] {
      assert p + q == q;
    } else {
      assert (p + q)[0] == p[0];
      assert (p + q)[1..] == p[1..] + q;
      PatternColumnNamesAppend(p[1..], q);
    }
  }

  /** Every name in the list comes from a column-name atom, and every such atom is listed. */
  lemma {:induction false} ColumnNamesMembers(atoms: seq<Atom>, n: string)
    ensures n in ColumnNames(atoms) <==> exists j :: 0 <= j < |atoms| && atoms[j] == ColumnNameAtom(n)
    decreases |atoms|
  {
    if atoms != [] {
      ColumnNamesMembers(atoms[1..], n);
      if exists j :: 0 <= j < |atoms| && atoms[j] == ColumnNameAtom(n) {
        var j :| 0 <= j < |atoms| && atoms[j] == ColumnNameAtom(n);
        if j > 0 {
          assert atoms[1..][j - 1] == atoms[j];
        }
      }
      if exists j :: 0 <= j < |atoms[1..]| && atoms[1..][j] == ColumnNameAtom(n) {
        var j :| 0 <= j < |atoms[1..]| && atoms[1..][j] == ColumnNameAtom(n);
        assert atoms[j + 1] == ColumnNameAtom(n);
      }
    }
  }

  lemma {:induction false} PatternColumnNamesMembers(p: Pattern, n: string)
    ensures n in PatternColumnNames(p) <==>
      exists k, j :: 0 <= k < |p| && 0 <= j < |p[k].atoms| && p[k].atoms[j] == ColumnNameAtom(n)
    decreases |p|
  {
    if p != [] {
      ColumnNamesMembers(p[0].atoms, n);
      PatternColumnNamesMembers(p[1..], n);
      if exists k, j :: 0 <= k < |p| && 0 <= j < |p[k].atoms| && p[k].atoms[j] == ColumnNameAtom(n) {
        var k, j :| 0 <= k < |p| && 0 <= j < |p[k].atoms| && p[k].atoms[j] == ColumnNameAtom(n);
        if k > 0 {
          assert p[1..][k - 1] == p[k];
        }
      }
      if exists k, j :: 0 <= k < |p[1..]| && 0 <= j < |p[1..][k].atoms| && p[1..][k].atoms[j] == ColumnNameAtom(n) {
        var k, j :| 0 <= k < |p[1..]| && 0 <= j < |p[1..][k].atoms| && p[1..][k].atoms[j] == ColumnNameAtom(n);
        assert p[k + 1].atoms[j] == ColumnNameAtom(n);
      }
    }
  }

  /** The check passes exactly when every column-name atom of the pattern names a column
      of the row or the ordinal. */
  lemma ColnamesCheckPassIff(p: Pattern, row: Row)
    ensures ColnamesCheck(p, row).Pass? <==>
      forall k, j :: 0 <= k < |p| && 0 <= j < |p[k].atoms| && p[k].atoms[j].ColumnNameAtom? ==>
        Known(p[k].atoms[j].colname, row)
  {
    var names := PatternColumnNames(p);
    if ColnamesCheck(p, row).Pass? {
      forall k, j | 0 <= k < |p| && 0 <= j < |p[k].atoms| && p[k].atoms[j].ColumnNameAtom?
        ensures Known(p[k].atoms[j].colname, row)
      {
        PatternColumnNamesMembers(p, p[k].atoms[j].colname);
      }
    } else {
      var n := ColnamesCheck(p, row).error.column;
      PatternColumnNamesMembers(p, n);
    }
  }

  /** The names the check has seen when it reaches atom `j` of chunk `i`, split around it. */
  lemma NamesAround(p: Pattern, i: nat, j: nat)
    requires i < |p| && j < |p[i].atoms| && p[i].atoms[j].ColumnNameAtom?
    ensures PatternColumnNames(p) ==
      (PatternColumnNames(p[..i]) + ColumnNames(p[i].atoms[..j]))
      + ([p[i].atoms[j].colname] + (ColumnNames(p[i].atoms[j + 1..]) + PatternColumnNames(p[i + 1..])))
  {
    var atoms := p[i].atoms;
    assert p == p[..i] + ([p[i]] + p[i + 1..]);
    PatternColumnNamesAppend(p[..i], [p[i]] + p[i + 1..]);
    assert ([p[i]] + p[i + 1..])[1..] == p[i + 1..];
    assert atoms == atoms[..j] + ([atoms[j]] + atoms[j + 1..]);
    ColumnNamesAppend(atoms[..j], [atoms[j]] + atoms[j + 1..]);
    assert ([atoms[j]] + atoms[j + 1..])[1..] == atoms[j + 1..];
    var a := PatternColumnNames(p[..i]);
    var b := ColumnNames(atoms[..j]);
    var c := [atoms[j].colname];
    var d := ColumnNames(atoms[j + 1..]);
    var e := PatternColumnNames(p[i + 1..]);
    assert PatternColumnNames(p) == a + ((b + (c + d)) + e);
    assert a + ((b + (c + d)) + e) == (a + b) + (c + (d + e));
  }

  lemma OneChunkNames(c: Chunk)
    ensures PatternColumnNames([c]) == ColumnNames(c.atoms)
  {
    assert [c][1..] == [];
    assert ColumnNames(c.atoms) + [] == ColumnNames(c.atoms);
  }

  lemma AllKnownAppend(a: seq<string>, b: seq<string>, row: Row)
    ensures AllKnown(a + b, row) <==> AllKnown(a, row) && AllKnown(b, row)
  {
    if AllKnown(a, row) && AllKnown(b, row) {
      forall k | 0 <= k < |a + b| ensures Known((a + b)[k], row) {
        if k >= |a| {
          assert (a + b)[k] == b[k - |a|];
        }
      }
    }
    if AllKnown(a + b, row) {
      forall k | 0 <= k < |a| ensures Known(a[k], row) {
        assert (a + b)[k] == a[k];
      }
      forall k | 0 <= k < |b| ensures Known(b[k], row) {
        assert (a + b)[|a| + k] == b[k];
      }
    }
  }

  /** The check stops at atom `j` of chunk `i` when that atom is the first unknown name. */
  lemma CheckStopsAt(p: Pattern, row: Row, i: nat, j: nat)
    requires i < |p| && j < |p[i].atoms| && p[i].atoms[j].ColumnNameAtom?
    requires !Known(p[i].atoms[j].colname, row)
    requires AllKnown(PatternColumnNames(p[..i]), row)
    requires AllKnown(ColumnNames(p[i].atoms[..j]), row)
    ensures ColnamesCheck(p, row) == Fail(UnknownColumn(p[i].atoms[j].colname))
  {
    var atoms := p[i].atoms;
    NamesAround(p, i, j);
    var before := PatternColumnNames(p[..i]) + ColumnNames(atoms[..j]);
    AllKnownAppend(PatternColumnNames(p[..i]), ColumnNames(atoms[..j]), row);
    FirstWhereAppend(before, [atoms[j].colname] + (ColumnNames(atoms[j + 1..]) + PatternColumnNames(p[i + 1..])),
      (n: string) => !Known(n, row));
  }

  /** The inner loop's step: one more atom checked. */
  lemma AtomChecked(atoms: seq<Atom>, j: nat, row: Row)
    requires j < |atoms|
    requires AllKnown(ColumnNames(atoms[..j]), row)
    requires atoms[j].ColumnNameAtom? ==> Known(atoms[j].colname, row)
    ensures AllKnown(ColumnNames(atoms[..j + 1]), row)
  {
    assert atoms[..j + 1] == atoms[..j] + [atoms[j]];
    ColumnNamesAppend(atoms[..j], [atoms[j]]);
    assert [atoms[j]][1..] == [];
    AllKnownAppend(ColumnNames(atoms[..j]), ColumnNames([atoms[j]]), row);
  }

  /** The outer loop's step: one more chunk checked. */
  lemma ChunkChecked(p: Pattern, i: nat, row: Row)
    requires i < |p|
    requires AllKnown(PatternColumnNames(p[..i]), row)
    requires AllKnown(ColumnNames(p[i].atoms), row)
    ensures AllKnown(PatternColumnNames(p[..i + 1]), row)
  {
    assert p[..i + 1] == p[..i] + [p[i]];
    PatternColumnNamesAppend(p[..i], [p[i]]);
    OneChunkNames(p[i]);
    AllKnownAppend(PatternColumnNames(p[..i]), ColumnNames(p[i].atoms), row);
  }

  method CheckColnames(p: Pattern, row: Row) returns (r: Outcome<RenderError>)
    ensures r == ColnamesCheck(p, row)
  {
    for i := 0 to |p|
      invariant AllKnown(PatternColumnNames(p[..i]), row)
    {
      var atoms := p[i].atoms;
      for j := 0 to |atoms|
        invariant AllKnown(ColumnNames(atoms[..j]), row)
      {
        var atom := atoms[j];
        if atom.ColumnNameAtom? {
          if !(atom.colname in row || atom.colname == Ordinal) {
            CheckStopsAt(p, row, i, j);
            return Fail(UnknownColumn(atom.colname));
          }
        }
        AtomChecked(atoms, j, row);
      }
      assert atoms[..|atoms|] == atoms;
      ChunkChecked(p, i, row);
    }
    assert p[..|p|] == p;
    return Pass;
  }

  // ---------------------------------------------------------------------------------
  // Rows

  function ChunkRenderings(p: Pattern, row: Row, rowIdx: int, colname2handler: map<string, Handler>): (rs: seq<Result<string, RenderError>>)
    ensures |rs| == |p|
  {
    seq(|p|, k requires 0 <= k < |p| => RenderChunk(p[k], row, rowIdx, colname2handler))
  }

  function LineEnd(newline: bool): string
  {
    if newline then "\n" else ""
  }

  /** What `stringify_data_row` returns: the column-name check first, then the chunk
      renderings concatenated in order, then the line end. */
  function RenderRow(p: Pattern, row: Row, rowIdx: int, colname2handler: map<string, Handler>, newline: bool): Result<string, RenderError>
  {
    match ColnamesCheck(p, row)
    case Fail(e) => Failure(e)
    case Pass =>
      match Collect(ChunkRenderings(p, row, rowIdx, colname2handler))
      case Failure(e) => Failure(e)
      case Success(t) => Success(t + LineEnd(newline))
  }

  method StringifyDataRow(p: Pattern, row: Row, rowIdx: int, colname2handler: map<string, Handler>, newline: bool)
    returns (r: Result<string, RenderError>)
    ensures r == RenderRow(p, row, rowIdx, colname2handler, newline)
  {
    var s := "";
    var checked := CheckColnames(p, row);
    if checked.Fail? {
      return Failure(checked.error);
    }
    ghost var rs := ChunkRenderings(p, row, rowIdx, colname2handler);
    for i := 0 to |p|
      invariant Collect(rs[..i]) == Success(s)
    {
      assert rs[..i + 1] == rs[..i] + [rs[i]];
      CollectSnoc(rs[..i], s, rs[i]);
      var t := HandleChunk(p[i], row, rowIdx, colname2handler);
      if t.Failure? {
        CollectFailsAt(rs, i);
        return Failure(t.error);
      }
      s := s + t.value;
    }
    assert rs[..|p|] == rs;
    s := s + (if newline then "\n" else "");
    return Success(s);
  }

  /** A row fails before any chunk is rendered when the pattern names a column the data
      lacks: the error is the unknown column, whatever the handlers would do. */
  lemma UnknownColumnFirst(p: Pattern, row: Row, rowIdx: int, colname2handler: map<string, Handler>, newline: bool, k: nat, j: nat)
    requires k < |p| && j < |p[k].atoms| && p[k].atoms[j].ColumnNameAtom?
    requires !Known(p[k].atoms[j].colname, row)
    ensures RenderRow(p, row, rowIdx, colname2handler, newline).Failure?
    ensures RenderRow(p, row, rowIdx, colname2handler, newline).error.UnknownColumn?
  {
    ColnamesCheckPassIff(p, row);
  }

  /** With the line end on, a row renders as it does without it followed by exactly one
      newline. */
  lemma RowNewline(p: Pattern, row: Row, rowIdx: int, colname2handler: map<string, Handler>)
    ensures RenderRow(p, row, rowIdx, colname2handler, true) ==
      match RenderRow(p, row, rowIdx, colname2handler, false)
      case Failure(e) => Failure(e)
      case Success(t) => Success(t + "\n")
  {
    match Collect(ChunkRenderings(p, row, rowIdx, colname2handler))
    case Failure(_) =>
    case Success(t) => assert t + "" == t;
  }

  lemma ChunkRenderingsAppend(p: Pattern, q: Pattern, row: Row, rowIdx: int, colname2handler: map<string, Handler>)
    ensures ChunkRenderings(p + q, row, rowIdx, colname2handler)
      == ChunkRenderings(p, row, rowIdx, colname2handler) + ChunkRenderings(q, row, rowIdx, colname2handler)
  {
  }

  /** Rendering is compositional: a row rendered against two patterns one after the other
      (without line end) is the two renderings concatenated. */
  lemma RowConcat(p: Pattern, q: Pattern, row: Row, rowIdx: int, colname2handler: map<string, Handler>, x: string, y: string)
    requires RenderRow(p, row, rowIdx, colname2handler, false) == Success(x)
    requires RenderRow(q, row, rowIdx, colname2handler, false) == Success(y)
    ensures RenderRow(p + q, row, rowIdx, colname2handler, false) == Success(x + y)
  {
    PatternColumnNamesAppend(p, q);
    AllKnownAppend(PatternColumnNames(p), PatternColumnNames(q), row);
    ChunkRenderingsAppend(p, q, row, rowIdx, colname2handler);
    CollectAppend(ChunkRenderings(p, row, rowIdx, colname2handler), ChunkRenderings(q, row, rowIdx, colname2handler));
    var cp := Collect(ChunkRenderings(p, row, rowIdx, colname2handler));
    var cq := Collect(ChunkRenderings(q, row, rowIdx, colname2handler));
    assert ColnamesCheck(p, row).Pass? && ColnamesCheck(q, row).Pass?;
    assert cp.Success? && cq.Success?;
    assert cp.value + "" == x && cq.value + "" == y;
    assert cp.value + "" == cp.value && cq.value + "" == cq.value;
    assert cp == Success(x) && cq == Success(y);
    assert ColnamesCheck(p + q, row).Pass?;
    assert Collect(ChunkRenderings(p + q, row, rowIdx, colname2handler)) == Success(x + y);
    assert (x + y) + "" == x + y;
  }

  /** The ordinal column, outside an optional chunk, prints the row number whatever the
      row holds; inside one it is looked up as a cell and fails when the data has no
      column of that name. */
  lemma OrdinalRow(row: Row, rowIdx: int, colname2handler: map<string, Handler>)
    ensures RenderRow([Chunk([ColumnNameAtom(Ordinal)], false)], row, rowIdx, colname2handler, true)
      == Success(IntToString(rowIdx) + "\n")
    ensures Ordinal !in row ==>
      RenderRow([Chunk([ColumnNameAtom(Ordinal)], true)], row, rowIdx, colname2handler, true)
      == Failure(MissingColumn(Ordinal))
  {
    var atoms := [ColumnNameAtom(Ordinal)];
    assert ColumnNames(atoms) == [Ordinal] by {
      assert atoms[1..] == [];
    }
    OneChunkNames(Chunk(atoms, false));
    OneChunkNames(Chunk(atoms, true));
    assert AllKnown([Ordinal], row);
    var rs := AtomRenderings(atoms, row, rowIdx, colname2handler);
    assert rs[0] == Success(IntToString(rowIdx));
    assert rs[1..] == [];
    assert Collect(rs) == Success(IntToString(rowIdx) + "");
    assert IntToString(rowIdx) + "" == IntToString(rowIdx);
    var cs := ChunkRenderings([Chunk(atoms, false)], row, rowIdx, colname2handler);
    assert cs[1..] == [];
    assert Collect(cs) == Success(IntToString(rowIdx) + "");
    if Ordinal !in row {
      assert Unavailable(atoms[0], row);
      var cs' := ChunkRenderings([Chunk(atoms, true)], row, rowIdx, colname2handler);
      assert cs'[0] == Failure(MissingColumn(Ordinal));
    }
  }

  // ---------------------------------------------------------------------------------
  // Blocks

  /** Why a block could not be exported: its pattern string is malformed, or a row failed. */
  datatype ExportError = InvalidPattern(grammar: GrammarError) | RenderFailed(render: RenderError)

  /** The renderings of `rows`, the first numbered `first` and each next one up by one. */
  function RowRenderings(p: Pattern, rows: seq<Row>, first: int, colname2handler: map<string, Handler>, newline: bool)
    : (rs: seq<Result<string, RenderError>>)
    ensures |rs| == |rows|
  {
    seq(|rows|, k requires 0 <= k < |rows| => RenderRow(p, rows[k], first + k, colname2handler, newline))
  }

  /** What `stringify_data_blk` returns for rows already in order: the pattern string is
      decoded once, then row k (from 0) is rendered with ordinal k + 1 and the renderings
      are concatenated in row order. */
  function RenderBlock(rows: seq<Row>, pattern: string, colname2handler: map<string, Handler>, newline: bool)
    : Result<string, ExportError>
  {
    match Decode(pattern)
    case Failure(e) => Failure(InvalidPattern(e))
    case Success(p) =>
      match Collect(RowRenderings(p, rows, 1, colname2handler, newline))
      case Failure(e) => Failure(RenderFailed(e))
      case Success(t) => Success(t)
  }

  method StringifyDataBlk(rows: seq<Row>, pattern: string, colname2handler: map<string, Handler>, newline: bool)
    returns (r: Result<string, ExportError>)
    ensures r == RenderBlock(rows, pattern, colname2handler, newline)
  {
    var decoded := DecodePatternString(pattern);
    if decoded.Failure? {
      return Failure(InvalidPattern(decoded.error));
    }
    var p := decoded.value;
    ghost var rs := RowRenderings(p, rows, 1, colname2handler, newline);
    var ret := "";
    for i := 0 to |rows|
      invariant Collect(rs[..i]) == Success(ret)
    {
      assert rs[..i + 1] == rs[..i] + [rs[i]];
      CollectSnoc(rs[..i], ret, rs[i]);
      var t := StringifyDataRow(p, rows[i], i + 1, colname2handler, newline);
      if t.Failure? {
        CollectFailsAt(rs, i);
        return Failure(RenderFailed(t.error));
      }
      ret := ret + t.value;
    }
    assert rs[..|rows|] == rs;
    return Success(ret);
  }

  /** A malformed pattern string fails the export, even for a block with no rows. */
  lemma InvalidPatternFails(rows: seq<Row>, pattern: string, colname2handler: map<string, Handler>, newline: bool)
    requires Validation(pattern).Fail?
    ensures RenderBlock(rows, pattern, colname2handler, newline) == Failure(InvalidPattern(Validation(pattern).error))
  {
  }

  lemma RowRenderingsAppend(p: Pattern, a: seq<Row>, b: seq<Row>, first: int, colname2handler: map<string, Handler>, newline: bool)
    ensures RowRenderings(p, a + b, first, colname2handler, newline)
      == RowRenderings(p, a, first, colname2handler, newline) + RowRenderings(p, b, first + |a|, colname2handler, newline)
  {
    var l := RowRenderings(p, a + b, first, colname2handler, newline);
    var r := RowRenderings(p, a, first, colname2handler, newline) + RowRenderings(p, b, first + |a|, colname2handler, newline);
    forall k | 0 <= k < |l| ensures l[k] == r[k] {
      if k >= |a| {
        assert (a + b)[k] == b[k - |a|];
      }
    }
  }

  /** Splitting a block: its rows render as the first part's rows followed by the second
      part's, numbered on from where the first part stopped. */
  lemma BlockSplit(p: Pattern, a: seq<Row>, b: seq<Row>, first: int, colname2handler: map<string, Handler>, newline: bool)
    ensures Collect(RowRenderings(p, a + b, first, colname2handler, newline)) ==
      match Collect(RowRenderings(p, a, first, colname2handler, newline))
      case Failure(e) => Failure(e)
      case Success(x) =>
        match Collect(RowRenderings(p, b, first + |a|, colname2handler, newline))
        case Failure(e) => Failure(e)
        case Success(y) => Success(x + y)
  {
    RowRenderingsAppend(p, a, b, first, colname2handler, newline);
    CollectAppend(RowRenderings(p, a, first, colname2handler, newline), RowRenderings(p, b, first + |a|, colname2handler, newline));
  }

  /** The last row of a block is rendered with ordinal equal to the number of rows. */
  lemma LastRowOrdinal(p: Pattern, rows: seq<Row>, row: Row, colname2handler: map<string, Handler>, newline: bool, x: string)
    requires Collect(RowRenderings(p, rows, 1, colname2handler, newline)) == Success(x)
    ensures Collect(RowRenderings(p, rows + [row], 1, colname2handler, newline)) ==
      match RenderRow(p, row, |rows| + 1, colname2handler, newline)
      case Failure(e) => Failure(e)
      case Success(t) => Success(x + t)
  {
    BlockSplit(p, rows, [row], 1, colname2handler, newline);
    var last := RowRenderings(p, [row], 1 + |rows|, colname2handler, newline);
    assert last == [RenderRow(p, row, |rows| + 1, colname2handler, newline)];
    CollectSnoc([], "", last[0]);
    assert [] + [last[0]] == last;
    match last[0]
    case Failure(_) =>
    case Success(t) => assert "" + t == t;
  }
}
