/**
 * `load_csv`: the table read from a CSV file loses its first row, missing
 * cells become empty text, every cell is stripped of control characters, and
 * the designated integer columns keep only the text before their first '.'.
 */
module Loader {
  import opened Wrappers
  import opened Strings

  /**
   * The table the CSV reader yields with no header row: `width` columns,
   * labelled 0 to width - 1, and rows of optional text cells (None for a
   * missing value). The reader pads short rows, so every row has `width` cells.
   */
  datatype RawTable = RawTable(width: nat, rows: seq<seq<Option<string>>>)

  type Table = t: RawTable | forall row :: row in t.rows ==> |row| == t.width
    witness RawTable(0, [])

  /** Loaded rows of text cells. */
  type Grid = seq<seq<string>>

  /** One cell after `fillna('')`, `replace_escapes` and, for an integer column, `split('.')[0]`. */
  function CleanCell(cell: Option<string>, toInt: bool): (r: string)
    ensures EscapeFree(r)
    ensures toInt ==> '.' !in r
    ensures cell.None? ==> r == ""
    ensures !toInt ==> r == ReplaceEscapes(cell.GetOr(""))
    ensures toInt ==> r <= ReplaceEscapes(cell.GetOr(""))
    ensures toInt ==> r == ReplaceEscapes(cell.GetOr("")) || ReplaceEscapes(cell.GetOr(""))[|r|] == '.'
  {
    var text := ReplaceEscapes(cell.GetOr(""));
    if toInt then BeforeFirst(text, '.') else text
  }

  /** Every designated integer column is a column label of the table (otherwise pandas raises KeyError). */
  predicate ColumnsExist(table: Table, columnsToInt: seq<int>) {
    forall idx :: idx in columnsToInt ==> 0 <= idx < table.width
  }

  /** `load_csv`; None stands for the KeyError raised on a designated column the table does not have. */
  function LoadCsv(table: Table, columnsToInt: seq<int>): (r: Option<Grid>)
    ensures r.Some? <==> ColumnsExist(table, columnsToInt)
    ensures r.Some? ==> |r.value| == if table.rows == [] then 0 else |table.rows| - 1
    ensures r.Some? ==> forall i :: 0 <= i < |r.value| ==> |r.value[i]| == table.width
    ensures r.Some? ==> forall i, j :: 0 <= i < |r.value| && 0 <= j < table.width ==>
      r.value[i][j] == CleanCell(table.rows[i + 1][j], j in columnsToInt)
  {
    if !ColumnsExist(table, columnsToInt) then None
    else
      var data := if table.rows == [] then [] else table.rows[1..];
      Some(seq(|data|, i requires 0 <= i < |data| =>
        seq(table.width, j requires 0 <= j < table.width => CleanCell(data[i][j], j in columnsToInt))))
  }

  /** No loaded cell holds a character with code point 1..31, and no cell of an integer column holds a '.'. */
  lemma LoadCsvSanitised(table: Table, columnsToInt: seq<int>, i: int, j: int)
    requires LoadCsv(table, columnsToInt).Some?
    requires 0 <= i < |LoadCsv(table, columnsToInt).value| && 0 <= j < table.width
    ensures EscapeFree(LoadCsv(table, columnsToInt).value[i][j])
    ensures j in columnsToInt ==> '.' !in LoadCsv(table, columnsToInt).value[i][j]
  {
  }

  /** Cleaning is idempotent: a cleaned cell read back in comes out unchanged. */
  lemma CleanCellIdempotent(cell: Option<string>, toInt: bool)
    ensures CleanCell(Some(CleanCell(cell, toInt)), toInt) == CleanCell(cell, toInt)
  {
    var r := CleanCell(cell, toInt);
    ReplaceEscapesFixpoint(r);
    if toInt {
      BeforeFirstUnique(r, '.', r);
    }
  }

  /** Text that is already clean (no escape characters, and no '.' in an integer column) is loaded verbatim. */
  lemma CleanCellKeepsCleanText(t: string, toInt: bool)
    requires EscapeFree(t) && (toInt ==> '.' !in t)
    ensures CleanCell(Some(t), toInt) == t
  {
    ReplaceEscapesFixpoint(t);
    if toInt {
      BeforeFirstUnique(t, '.', t);
    }
  }

  /** In an integer column "12.0" loads as "12", "12" as "12", and a missing value as "". */
  lemma CleanCellIntExamples()
    ensures CleanCell(Some("12.0"), true) == "12"
    ensures CleanCell(Some("12"), true) == "12"
    ensures CleanCell(None, true) == ""
  {
    assert EscapeFree("12.0");
    ReplaceEscapesFixpoint("12.0");
    BeforeFirstDotExamples();
    CleanCellKeepsCleanText("12", true);
  }

  /** The first row is dropped: the loaded row i comes from row i + 1 of the table, cell by cell. */
  lemma LoadCsvDropsFirstRow(table: Table, columnsToInt: seq<int>, i: int, j: int, t: string)
    requires ColumnsExist(table, columnsToInt)
    requires 0 <= i && i + 1 < |table.rows| && 0 <= j < table.width
    requires table.rows[i + 1][j] == Some(t) && EscapeFree(t) && (j in columnsToInt ==> '.' !in t)
    ensures LoadCsv(table, columnsToInt).value[i][j] == t
  {
    assert table.rows[i + 1] in table.rows;
    CleanCellKeepsCleanText(t, j in columnsToInt);
  }
}
