/** Cell handlers (cv_export.py): how a column-name atom turns into text for one data row. */
module Handlers {
  import opened Wrappers
  import opened Decimal

  /** A data row: column name to cell, `None` standing for a null cell. A name that is not
      a key is not a column of the data. */
  type Row = map<string, Option<string>>

  /** The reserved column name (number) that stands for the row's ordinal in its block. */
  const Ordinal: string := "\U{7F16}\U{53F7}"

  /** Why a data row could not be rendered. */
  datatype RenderError =
    | NullCell(column: string)       // the default handler met a null cell
    | MissingColumn(column: string)  // a cell was looked up under a name the row lacks
    | HandlerFailed(column: string)  // a custom handler raised
    | UnknownColumn(column: string)  // the pattern names a column the data does not have

  /** A handler: the default cell extractor, a constant text, or a user-supplied
      function, whose `None` result means that it raised. */
  datatype Handler =
    | Default
    | LiteralHandler(text: string)
    | Custom(f: (Row, string) -> Option<string>)

  /** `default_handler`: the cell itself, which must exist and not be null. */
  function DefaultHandler(row: Row, colname: string): (r: Result<string, RenderError>)
    ensures r.Success? <==> colname in row && row[colname].Some?
    ensures r.Success? ==> row[colname] == Some(r.value)
    ensures r.Failure? ==> r.error == if colname in row then NullCell(colname) else MissingColumn(colname)
  {
    if colname !in row then Failure(MissingColumn(colname))
    else match row[colname]
      case None => Failure(NullCell(colname))
      case Some(v) => Success(v)
  }

  /** Calls handler `h` on a row and a column name (the call `handler(row, colname)`).
      A failure always names the column being rendered and is never an unknown-column
      error, which only the column-name check raises; a custom handler's text is passed
      through unchanged. */
  function Apply(h: Handler, row: Row, colname: string): (r: Result<string, RenderError>)
    ensures r.Failure? ==> r.error.column == colname && !r.error.UnknownColumn?
    ensures h.LiteralHandler? ==> r == Success(h.text)
    ensures h.Custom? ==> (r.Success? <==> h.f(row, colname).Some?)
    ensures h.Custom? && r.Success? ==> h.f(row, colname) == Some(r.value)
  {
    match h
    case Default => DefaultHandler(row, colname)
    case LiteralHandler(t) => Success(t)
    case Custom(f) =>
      match f(row, colname)
      case None => Failure(HandlerFailed(colname))
      case Some(t) => Success(t)
  }

  /** `get_literal_handler` on an integer: a handler that returns `str(v)` whatever the
      row and column. */
  function GetLiteralHandler(v: int): (h: Handler)
    ensures forall row: Row, c: string :: Apply(h, row, c) == Success(IntToString(v))
  {
    LiteralHandler(IntToString(v))
  }

  /** `get_handler`: the ordinal column always gets the row's number, even when the mapping
      binds it; any other name gets its bound handler, or the default one. */
  function GetHandler(colname: string, rowIdx: int, colname2handler: map<string, Handler>): (h: Handler)
    ensures colname == Ordinal ==> forall row: Row, c: string :: Apply(h, row, c) == Success(IntToString(rowIdx))
    ensures colname != Ordinal && colname in colname2handler ==> h == colname2handler[colname]
    ensures colname != Ordinal && colname !in colname2handler ==> h == Default
  {
    if colname == Ordinal then GetLiteralHandler(rowIdx)
    else if colname in colname2handler then colname2handler[colname]
    else Default
  }

  /** The text that the handler chosen for `colname` produces. */
  function HandleColumn(colname: string, row: Row, rowIdx: int, colname2handler: map<string, Handler>): Result<string, RenderError>
  {
    Apply(GetHandler(colname, rowIdx, colname2handler), row, colname)
  }

  /** The ordinal column renders as the row number and cannot fail, whatever the row
      holds and whatever the mapping binds. */
  lemma OrdinalColumn(row: Row, rowIdx: int, colname2handler: map<string, Handler>)
    ensures HandleColumn(Ordinal, row, rowIdx, colname2handler) == Success(IntToString(rowIdx))
  {
  }
}
