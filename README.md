# CV-Export pattern compiler and renderer, modelled in Dafny

CV-Export turns rows of a table of CV entries (awards, projects, dates) into text. Each
row is rendered through a *pattern string*:

- `$name$` is replaced by the cell of column `name`;
- a bracketed part `[...]` is *optional*: it is dropped for a row in which one of the
  cells it refers to is null;
- a backslash makes the next character literal.

This project models the two core files.

- `decode.py` validates a pattern string and compiles it into *chunks* of *atoms*.
  The validation has two passes: the `$` pass (`check_dollar`) and the bracket pass
  (`check_bracket`). An atom is a literal text or a column name.
- `cv_export.py` renders the chunks against data rows. Each column name is resolved
  through a handler registry: the reserved ordinal column `编号` (number), the
  caller's mapping, or the default cell extractor. Optional chunks with a null cell are
  suppressed, the column names are checked against the row, and rows are concatenated
  into a block.

Modules:

- `Escapes` gives the token view of a string under backslash escapes (`Lex`).
- `Validator` holds both validation passes, each as a loop proved against a
  declarative verdict.
- `Segments` is a declarative reference decoder. It splits the tokens at brackets into
  segments, each segment at `$` into pieces, and turns the pieces into atoms.
- `Decoder` models `decode_pattern_string` as a character loop. It proves that the loop
  computes the reference decoder, with an explicit one-token transition function
  between the two as the bridge.
- `Handlers`, `Decimal` (`str` on integers) and `Render` model the renderer. Every
  `s += ...` loop is a method proved equal to a function that collects the renderings
  in order and stops at the first failure (`Seqs.Collect`).
- `AsWritten` models the attribute-name mismatch logged under Findings.

Data model:

- `PatternModel.Atom` stands for the atom classes (decode.py:15-47). `LiteralAtom(text)`
  is `LiteralAtom.string`, and `ColumnNameAtom(colname)` is the name that the
  constructor stores. `Atom.Content` is the text that either variant carries.
- `PatternModel.Chunk` stands for `PatternChunk` (decode.py:54-87). Its `atoms` are
  `_atoms` and its `optional` flag is `_optional`. `Pattern` is the list of chunks that
  `decode_pattern_string` returns.

How the code treats backslashes:

- The bracket pass (decode.py:139-148) and the decoder (decode.py:167-169, 198-199)
  honour backslash escapes. An escaped character is literal text to both.
- The `$` pass (decode.py:123-133) declares an `escape` flag but never sets it. So it
  counts every `$`, escaped or not. It also rejects any bracket that comes after an odd
  number of `$`, escaped or not. The model follows the code: see
  `Validator.CheckDollar` and `DecodeProperties.EscapedDollarRejected`.
- `\$a\$` still passes the `$` pass, because its two raw `$` pair up. The decoder then
  reads both as literal text (`DecodeProperties.EscapeExample`).
How the renderer resolves column names:

- The handler registry falls back to the default handler for any unbound name
  (cv_export.py:73-74). The column-name check (cv_export.py:124-132) is the only place
  that rejects a name the data does not have.
- A cell is looked up with `row[name]`, which fails for a name that is not a column.
  The ordinal column passes the column-name check, but inside an optional chunk its
  cell lookup (cv_export.py:83) fails when the data has no column of that name
  (`Render.OrdinalRow`).

## Model

| member | source | states |
|---|---|---|
| PatternModel.ContainColnameAtom | decode.py:95-101 | the flag is set exactly when some atom is a column-name atom |
| PatternModel.GetOptionalPatternChunk | decode.py:94-110 | the chunk keeps the atoms and is optional exactly when one of them is a column-name atom |
| PatternModel.GetPatternChunk | decode.py:90-91 | the chunk keeps the atoms and is never optional; it is well formed exactly when the atoms are non-empty and none is empty |
| Escapes.LexSnoc | decode.py:166-169 | appending a character extends the token view: an escaped character becomes text, an unescaped backslash only sets the pending escape, anything else is classified |
| Validator.CheckDollar | decode.py:122-133 | the loop's verdict: a bracket after an odd number of `$` is `BracketInsideFieldName`, else an odd total is `DanglingFieldDelimiter`; passing implies an even count |
| Validator.CheckBracket | decode.py:135-149 | the loop's verdict equals the first-misplaced-bracket verdict, and it passes exactly when the unescaped brackets alternate `[`,`]` from `[` and end closed |
| Validator.BracketCheckPassIff | decode.py:135-149 | the bracket verdict passes if and only if the unescaped brackets are balanced |
| Validator.FirstMisplacedDecides | decode.py:142-147 | the first out-of-turn bracket decides the error: a `[` is `NestedBracket`, a `]` is `DanglingCloseBracket` |
| Validator.ValidatePatternString | decode.py:119-152 | the `$` pass then the bracket pass; passes iff no bracket inside a field name, an even number of `$`, and balanced brackets; an odd `$` count always fails |
| Segments.SegmentDecodeWellFormed | decode.py:172-203 | every decoded chunk is non-empty, has no empty atom, and is optional only if it holds a column-name atom |
| Segments.SegmentDecodeText | decode.py:166-204 | the atoms' texts in order give the input's literal characters: escaping backslashes and unescaped `$`, `[`, `]` removed |
| Segments.SegmentDecodePlain | decode.py:197-204 | a bracket-free, `$`-free token run decodes to one non-optional literal chunk, or to nothing when empty |
| Decoder.RunMatchesSegments | decode.py:166-203 | running the one-token transition function over a segment-aligned state, then flushing, appends exactly what the reference decoder produces |
| Decoder.ScanIsSegmentDecode | decode.py:166-203 | the scan from the initial state computes the reference decoder's pattern |
| Decoder.DecodePatternString | decode.py:155-204 | fails exactly when validation fails; on success returns the reference decoding, which is well formed and whose text is the input's literal characters |
| DecodeProperties.PlainPatternDecodes | decode.py:197-204 | a string without `$ [ ] \` decodes to one non-optional chunk of one literal atom equal to it; the empty string to the empty pattern |
| DecodeProperties.BracketExample | decode.py:181-203 | `a[b$x$c]d` decodes to `[a]`, the optional `[b, x, c]` and `[d]` |
| DecodeProperties.EscapeExample | decode.py:166-199 | `\$a\$` decodes to the single literal atom `$a$` |
| DecodeProperties.EscapedDollarRejected | decode.py:122-133 | `\$` reads as a literal `$` in the token view, yet decoding fails with `DanglingFieldDelimiter` |
| DecodeProperties.DanglingCloseExample | decode.py:145-146 | `a]b` is rejected with `DanglingCloseBracket` |
| DecodeProperties.NestedBracketExample | decode.py:142-144 | `a[b[c]d]` is rejected with `NestedBracket` |
| DecodeProperties.DanglingDollarExample | decode.py:133 | `a$b` is rejected with `DanglingFieldDelimiter` |
| DecodeProperties.BracketInNameExample | decode.py:131-132 | `a[$b[c]$]` is rejected with `BracketInsideFieldName`, before the bracket pass runs |
| DecodeProperties.NoDollars | decode.py:123-133 | a string without `$` always passes the `$` pass |
| Handlers.DefaultHandler | cv_export.py:8-12 | succeeds exactly when the cell exists and is not null, with the cell's value; fails with `NullCell` on a null cell and `MissingColumn` on an absent one |
| Handlers.Apply | cv_export.py:94 | a handler failure names the column being rendered and is never `UnknownColumn`; a literal handler returns its text; a custom handler succeeds exactly when the function returns a value, and its value is the text |
| Handlers.GetLiteralHandler | cv_export.py:24-31 | the handler returns `str(v)` for every row and column |
| Handlers.GetHandler | cv_export.py:49-74 | the ordinal column gets the row-number handler even when the mapping binds it; another bound name gets its binding, an unbound one the default handler |
| Handlers.OrdinalColumn | cv_export.py:69-70 | the ordinal column renders as the row number whatever the row and mapping |
| Decimal.IntToStringRoundTrip | cv_export.py:27-28 | reading back the text form of an integer gives the integer |
| Decimal.IntToStringInjective | cv_export.py:27-28 | distinct row numbers have distinct text forms |
| Render.Eligibility | cv_export.py:78-85 | true iff no column-name atom's cell is null or absent; false iff the first such atom's cell is null; a lookup failure names the first such atom whose column is absent |
| Render.IsRequiredOptionalChunk | cv_export.py:78-85 | the scan's result equals the eligibility verdict |
| Render.HandleChunk | cv_export.py:77-99 | the loop's result equals the chunk rendering: suppressed or failing per eligibility for optional chunks, otherwise the atoms' renderings concatenated in order, stopping at the first handler failure |
| Render.SuppressedChunk | cv_export.py:87-88 | an optional chunk whose columns exist but one of whose cells is null renders as the empty string, for every row number and mapping |
| Render.FilledChunk | cv_export.py:90-99 | with all referenced cells present and default handlers, a chunk renders as its atoms with the cells filled in, in order |
| Render.LiteralChunk | cv_export.py:95-96 | a chunk without column-name atoms renders as its decoded text |
| Render.ColnamesCheck | cv_export.py:124-132 | passes iff every referenced name is a column or the ordinal; a failure names an unknown referenced name |
| Render.ColnamesCheckPassIff | cv_export.py:124-132 | the check passes if and only if every column-name atom of every chunk names a column of the row or the ordinal |
| Render.CheckColnames | cv_export.py:124-132 | the nested loop's result equals the check, reporting the first unknown name in pattern order |
| Render.StringifyDataRow | cv_export.py:102-108 | the loop's result equals the row rendering: the check first, then the chunk renderings concatenated, then the line end |
| Render.UnknownColumnFirst | cv_export.py:102-106 | a pattern naming an unknown column fails the row with `UnknownColumn`, whatever the handlers would do |
| Render.RowNewline | cv_export.py:107 | with the line end on, the row is the rendering without it followed by exactly one `\n` |
| Render.RowConcat | cv_export.py:105-106 | rendering against two patterns in sequence concatenates the two renderings |
| Render.OrdinalRow | cv_export.py:69-94 | `$编号$` prints the row number; inside an optional chunk it fails with `MissingColumn` when the data lacks that column |
| Render.StringifyDataBlk | cv_export.py:111-121 | the result equals the block rendering: an invalid pattern fails first, then row k (from 0) is rendered with ordinal k+1 and the rows are concatenated in order |
| Render.InvalidPatternFails | cv_export.py:114 | a malformed pattern string fails the export, even with no rows |
| Render.BlockSplit | cv_export.py:118-121 | the rows of a split block render as the first part's rows, then the second part's numbered on from where the first stopped |
| Render.LastRowOrdinal | cv_export.py:119-120 | appending a row appends its rendering with ordinal equal to the new number of rows |
| AsWritten.AsWrittenRejectsColumns | cv_export.py:129-132 | as written, the check fails with an attribute error for every pattern that refers to any column, for every row |
| AsWritten.CheckAtomsAsWritten | cv_export.py:129-132 | the inner loop as written can only pass or fail on the lookup of the attribute `colname` |
| AsWritten.CheckColnamesAsWritten | cv_export.py:124-132 | the check as written can only pass or fail on the lookup of `colname`, and it passes only if its inner loop passes on the first chunk |
| AsWritten.ColnameTypoExample | decode.py:43-44 | for `$x$` and a row with `x` = `1`, the as-written check fails while the corrected check passes and the row renders `1` |

## Left out

- Pandas (`DataFrame`, `Series`, `iterrows`, `pd.isnull`): a row is a map from column
  name to an optional string, with a null cell as `None`. A block is a sequence of rows.
- `iterrows` yields index labels, and the ordinal is label + 1. The model numbers rows
  by position, which matches the source after sorting (`ignore_index=True`). It does not
  match an unsorted block whose index is not 0, 1, 2, ...
- Sorting by `col_for_sorting` (cv_export.py:115-116) is a library sort. The block is
  taken in the order given.
- `time_handler` (cv_export.py:15-21) is `strftime` date formatting. It and every user
  handler are a `Custom` function, and `None` from it means the handler raised.
- A mapping that binds a name to `None` is not modelled. Handlers are always callable.
- The default arguments are not modelled. These are `colname2handler=DEFAULT_COLNAME2HANDLERS`
  (cv_export.py:49, 112), which binds `颁发时间` (issue date) to `time_handler`, and
  `newline=True` (cv_export.py:102, 112). Both are explicit parameters in the model. A
  caller passes `map["颁发时间" := Custom(...)]` and `true` to get the defaults.
- Cell values are strings. A non-string cell, which would make `s +=` raise
  `TypeError`, is not modelled.
- `get_literal_handler` on a value that is already a string is the `LiteralHandler`
  constructor. `str` is modelled for integers only, the one kind the renderer passes.
- The warning `print` in `get_optional_pattern_chunk`, the `__repr__` methods and the
  `__main__` demo print to the console and do not affect results.
- The iterator protocol of `PatternChunk` (`__iter__`/`__next__`, decode.py:77-87) is
  plumbing: a chunk's atoms are a sequence.
- The `TypeError` branch for unknown atom kinds (cv_export.py:97-98) cannot be reached
  with a closed datatype.
- The decoder's `in_optional_chunk` variable (decode.py:164, 188, 196) is set and never
  read.
- `assert` failures and raised exceptions are not told apart. Each is an error value
  (`GrammarError`, `RenderError`, `ExportError`).
- The attribute name used by the rest of the model is `colname`, the corrected one.
  The as-written `colnanme` appears only in `AsWritten`.

## Findings

| source | as written | input that shows it | evidently intended | confidence | as-written member | corrected member |
|---|---|---|---|---|---|---|
| decode.py:44 | `ColumnNameAtom.__init__` stores the name as `self.colnanme`, while cv_export.py:83, 93 and 131 read `atom.colname`, so the first column-name atom the column check meets raises `AttributeError` | pattern `$x$` with a row whose column `x` holds `1` | the name is stored as `colname`, the check passes, and the row renders `1` | not executed | AsWritten.AsWrittenRejectsColumns | Render.ColnamesCheckPassIff |
