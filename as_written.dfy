/** The column-name check as the source spells it. decode.py stores a column-name atom's
    name under the attribute `colnanme`, while cv_export.py reads it back as `colname`,
    so the lookup fails on the first column-name atom the check meets. */
module AsWritten {
  import opened Wrappers
  import opened Seqs
  import opened PatternModel
  import opened Handlers
  import opened Render

  /** The attributes an atom object carries, by name, as its constructor sets them. */
  function Attributes(a: Atom): map<string, string>
  {
    match a
    case LiteralAtom(t) => map["string" := t]
    case ColumnNameAtom(n) => map["colnanme" := n]
  }

  datatype Fault = AttributeError(attribute: string) | Rejected(error: RenderError)

  function GetAttr(attributes: map<string, string>, name: string): Result<string, Fault>
  {
    if name in attributes then Success(attributes[name]) else Failure(AttributeError(name))
  }

  /** The inner loop of `check_colnames` as written, over one chunk's atoms. It never
      gets as far as testing a name: it passes, or fails on the attribute lookup. */
  function CheckAtomsAsWritten(atoms: seq<Atom>, row: Row): (r: Outcome<Fault>)
    ensures r.Pass? || r == Fail(AttributeError("colname"))
  {
    if atoms == [] then Pass
    else if atoms[0].ColumnNameAtom? then
      match GetAttr(Attributes(atoms[0]), "colname")
      case Failure(e) => Fail(e)
      case Success(n) => if Known(n, row) then CheckAtomsAsWritten(atoms[1..], row) else Fail(Rejected(UnknownColumn(n)))
    else CheckAtomsAsWritten(atoms[1..], row)
  }

  /** `check_colnames` as written: the chunks in order, each through the inner loop. It
      too can only pass or fail on the attribute lookup, and it passes on `p` only if it
      passes on the first chunk. */
  function CheckColnamesAsWritten(p: Pattern, row: Row): (r: Outcome<Fault>)
    ensures r.Pass? || r == Fail(AttributeError("colname"))
    ensures p != [] && r.Pass? ==> CheckAtomsAsWritten(p[0].atoms, row).Pass?
  {
    if p == [] then Pass
    else match CheckAtomsAsWritten(p[0].atoms, row)
      case Fail(e) => Fail(e)
      case Pass => CheckColnamesAsWritten(p[1..], row)
  }

  lemma {:induction false} AtomsAsWrittenFail(atoms: seq<Atom>, row: Row)
    requires ContainsColumnName(atoms)
    ensures CheckAtomsAsWritten(atoms, row) == Fail(AttributeError("colname"))
    decreases |atoms|
  {
    if !atoms[0].ColumnNameAtom? {
      var k :| 0 <= k < |atoms| && atoms[k].ColumnNameAtom?;
      assert atoms[1..][k - 1] == atoms[k];
      AtomsAsWrittenFail(atoms[1..], row);
    }
  }

  lemma {:induction false} AtomsAsWrittenPass(atoms: seq<Atom>, row: Row)
    requires !ContainsColumnName(atoms)
    ensures CheckAtomsAsWritten(atoms, row) == Pass
    decreases |atoms|
  {
    if atoms != [] {
      assert !ContainsColumnName(atoms[1..]) by {
        forall k | 0 <= k < |atoms[1..]| ensures !atoms[1..][k].ColumnNameAtom? {
          assert atoms[1..][k] == atoms[k + 1];
        }
      }
      assert !atoms[0].ColumnNameAtom?;
      AtomsAsWrittenPass(atoms[1..], row);
    }
  }

  /** As written, every pattern that refers to any column is rejected by the check, for
      every row: the export can only ever print literal text. */
  lemma {:induction false} AsWrittenRejectsColumns(p: Pattern, row: Row, k: nat)
    requires k < |p| && ContainsColumnName(p[k].atoms)
    ensures CheckColnamesAsWritten(p, row) == Fail(AttributeError("colname"))
    decreases |p|
  {
    if ContainsColumnName(p[0].atoms) {
      AtomsAsWrittenFail(p[0].atoms, row);
    } else {
      AtomsAsWrittenPass(p[0].atoms, row);
      assert p[1..][k - 1] == p[k];
      AsWrittenRejectsColumns(p[1..], row, k - 1);
    }
  }

  /** One column `x` holding `1`, and the pattern `$x$`: the check as written fails, while
      the check the rest of the model uses passes and the row renders as `1`. */
  lemma ColnameTypoExample()
    ensures CheckColnamesAsWritten([Chunk([ColumnNameAtom("x")], false)], map["x" := Some("1")])
      == Fail(AttributeError("colname"))
    ensures ColnamesCheck([Chunk([ColumnNameAtom("x")], false)], map["x" := Some("1")]).Pass?
    ensures RenderRow([Chunk([ColumnNameAtom("x")], false)], map["x" := Some("1")], 1, map[], false) == Success("1")
  {
    var atoms := [ColumnNameAtom("x")];
    var p := [Chunk(atoms, false)];
    var row: Row := map["x" := Some("1")];
    assert atoms[0].ColumnNameAtom?;
    AsWrittenRejectsColumns(p, row, 0);
    assert ColumnNames(atoms) == ["x"] by {
      assert atoms[1..] == [];
    }
    OneChunkNames(p[0]);
    assert "x" != Ordinal;
    FilledChunk(p[0], row, 1, map[]);
    assert FilledText(atoms, row) == "1" by {
      assert atoms[1..] == [];
    }
    var cs := ChunkRenderings(p, row, 1, map[]);
    assert cs[0] == Success("1");
    assert cs[1..] == [];
    assert Collect(cs) == Success("1" + "");
  }
}
