/**
 * `restore_formatting`: after the data paste, the style row (row 2) of the
 * target sheet supplies one fill and one protection per column; the columns
 * named editable are unlocked on that row, and every later row gets its
 * column's recorded fill and protection back. Rows 0 and 1 are left alone.
 */
module Formatting {

  /** A cell's protection: the locked and hidden flags. */
  datatype Protection = Protection(locked: bool, hidden: bool)

  /** `Protection(locked=False)`: unlocked, with hidden at its default, False. */
  const Unlocked := Protection(false, false)

  /**
   * A cell of the sheet: its fill (kept abstract), its protection, and `rest`,
   * which stands for its value, font, border and every other attribute that
   * restoring the formatting leaves alone.
   */
  datatype Cell<F, V> = Cell(rest: V, fill: F, protection: Protection)

  /** One entry of the recorded `styles` list: the column's fill and protection. */
  datatype Style<F> = Style(color: F, protection: Protection)

  /** The row (zero-based) whose cells supply each column's style; the rows above it are never touched. */
  const StyleRow := 2

  /** The sheet's rows, all of one length (a sheet's rows always span all its columns). */
  predicate Rectangular<T>(g: seq<seq<T>>) {
    forall i :: 0 <= i < |g| ==> |g[i]| == |g[0]|
  }

  /** The style recorded for column j from its style-row cell: an editable column is unlocked, any other keeps its protection. */
  function RecordedStyle<F, V>(cell: Cell<F, V>, j: int, unprotected: seq<int>): Style<F> {
    Style(cell.fill, if j in unprotected then Unlocked else cell.protection)
  }

  /** The whole `styles` list, one entry per column of the style row. */
  function ColumnStyles<F, V>(g: seq<seq<Cell<F, V>>>, unprotected: seq<int>): (styles: seq<Style<F>>)
    requires StyleRow < |g|
    ensures |styles| == |g[StyleRow]|
    ensures forall j :: 0 <= j < |styles| ==> styles[j].color == g[StyleRow][j].fill
    ensures forall j :: 0 <= j < |styles| ==> styles[j].protection == if j in unprotected then Unlocked else g[StyleRow][j].protection
  {
    seq(|g[StyleRow]|, j requires 0 <= j < |g[StyleRow]| => RecordedStyle(g[StyleRow][j], j, unprotected))
  }

  /** A cell given a recorded style: its fill and protection replaced, everything else kept. */
  function Restyle<F, V>(cell: Cell<F, V>, style: Style<F>): Cell<F, V> {
    cell.(fill := style.color, protection := style.protection)
  }

  /** The sheet after `restore_formatting`. */
  function Restored<F, V>(g: seq<seq<Cell<F, V>>>, unprotected: seq<int>): (r: seq<seq<Cell<F, V>>>)
    requires Rectangular(g)
    ensures |r| == |g| && Rectangular(r)
    ensures forall i :: 0 <= i < |g| ==> |r[i]| == |g[i]|
    ensures forall i :: 0 <= i < |g| && i < StyleRow ==> r[i] == g[i]
    ensures forall i, j :: StyleRow <= i < |g| && 0 <= j < |g[i]| ==>
      r[i][j].rest == g[i][j].rest && r[i][j].fill == g[StyleRow][j].fill
    ensures forall i, j :: StyleRow <= i < |g| && 0 <= j < |g[i]| ==>
      r[i][j].protection == if j in unprotected then Unlocked else g[StyleRow][j].protection
  {
    seq(|g|, i requires 0 <= i < |g| =>
      if i < StyleRow then g[i]
      else seq(|g[i]|, j requires 0 <= j < |g[i]| => Restyle(g[i][j], ColumnStyles(g, unprotected)[j])))
  }

  /** On the style row itself only protections change, and only those of editable columns. */
  lemma RestoredStyleRow<F, V>(g: seq<seq<Cell<F, V>>>, unprotected: seq<int>, j: int)
    requires Rectangular(g) && StyleRow < |g| && 0 <= j < |g[StyleRow]|
    ensures Restored(g, unprotected)[StyleRow][j] ==
      if j in unprotected then g[StyleRow][j].(protection := Unlocked) else g[StyleRow][j]
  {
  }

  /** Every restyled row carries, column by column, the fill and protection of the style row. */
  lemma RestoredColumnsUniform<F, V>(g: seq<seq<Cell<F, V>>>, unprotected: seq<int>, i: int, j: int)
    requires Rectangular(g) && StyleRow <= i < |g| && 0 <= j < |g[i]|
    ensures Restored(g, unprotected)[i][j].fill == Restored(g, unprotected)[StyleRow][j].fill
    ensures Restored(g, unprotected)[i][j].protection == Restored(g, unprotected)[StyleRow][j].protection
  {
  }

  /** Restoring a second time changes nothing. */
  lemma RestoredIdempotent<F, V>(g: seq<seq<Cell<F, V>>>, unprotected: seq<int>)
    requires Rectangular(g)
    ensures Restored(Restored(g, unprotected), unprotected) == Restored(g, unprotected)
  {
    var r: seq<seq<Cell<F, V>>> := Restored(g, unprotected);
    var rr: seq<seq<Cell<F, V>>> := Restored(r, unprotected);
    forall i | 0 <= i < |g|
      ensures rr[i] == r[i]
    {
      if StyleRow <= i {
        forall j | 0 <= j < |g[i]|
          ensures rr[i][j] == r[i][j]
        {
          assert r[StyleRow][j].protection == if j in unprotected then Unlocked else g[StyleRow][j].protection;
        }
      }
    }
  }

  /** Two grids with the same shape and the same cells are equal. */
  lemma SameCells<T>(a: seq<seq<T>>, b: seq<seq<T>>)
    requires |a| == |b|
    requires forall i :: 0 <= i < |a| ==> |a[i]| == |b[i]|
    requires forall i, j :: 0 <= i < |a| && 0 <= j < |a[i]| ==> a[i][j] == b[i][j]
    ensures a == b
  {
    forall i | 0 <= i < |a| ensures a[i] == b[i] {
    }
  }

  /** The cells of a sheet, row by row. */
  ghost function Cells<T>(sheet: array2<T>): (g: seq<seq<T>>)
    reads sheet
    ensures |g| == sheet.Length0 && Rectangular(g)
    ensures forall i :: 0 <= i < |g| ==> |g[i]| == sheet.Length1
    ensures forall i, j :: 0 <= i < sheet.Length0 && 0 <= j < sheet.Length1 ==> g[i][j] == sheet[i, j]
  {
    seq(sheet.Length0, i requires 0 <= i < sheet.Length0 reads sheet =>
      seq(sheet.Length1, j requires 0 <= j < sheet.Length1 reads sheet => sheet[i, j]))
  }

  /**
   * The pass of `restore_formatting` over the style row: each editable
   * column's cell is unlocked, and each column's fill and protection are
   * recorded, in column order.
   */
  method RecordStyles<F, V>(sheet: array2<Cell<F, V>>, unprotected: seq<int>) returns (styles: seq<Style<F>>)
    requires StyleRow < sheet.Length0
    modifies sheet
    ensures styles == ColumnStyles(old(Cells(sheet)), unprotected)
    ensures forall c :: 0 <= c < sheet.Length1 ==> sheet[StyleRow, c] == Restyle(old(sheet[StyleRow, c]), styles[c])
    ensures forall r, c :: 0 <= r < sheet.Length0 && r != StyleRow && 0 <= c < sheet.Length1 ==> sheet[r, c] == old(sheet[r, c])
  {
    ghost var g := Cells(sheet);
    styles := [];
    for j := 0 to sheet.Length1
      invariant styles == ColumnStyles(g, unprotected)[..j]
      invariant forall c :: 0 <= c < j ==> sheet[StyleRow, c] == Restyle(g[StyleRow][c], styles[c])
      invariant forall r, c :: 0 <= r < sheet.Length0 && (r != StyleRow || j <= c) && 0 <= c < sheet.Length1 ==> sheet[r, c] == g[r][c]
    {
      var protection;
      if j in unprotected {
        protection := Unlocked;
        sheet[StyleRow, j] := sheet[StyleRow, j].(protection := protection);
      } else {
        protection := sheet[StyleRow, j].protection;
      }
      styles := styles + [Style(sheet[StyleRow, j].fill, protection)];
    }
  }

  /** The pass of `restore_formatting` over a later row: each cell takes its column's recorded fill and protection. */
  method RestyleRow<F, V>(sheet: array2<Cell<F, V>>, i: nat, styles: seq<Style<F>>)
    requires i < sheet.Length0 && |styles| == sheet.Length1
    modifies sheet
    ensures forall c :: 0 <= c < sheet.Length1 ==> sheet[i, c] == Restyle(old(sheet[i, c]), styles[c])
    ensures forall r, c :: 0 <= r < sheet.Length0 && r != i && 0 <= c < sheet.Length1 ==> sheet[r, c] == old(sheet[r, c])
  {
    for j := 0 to sheet.Length1
      invariant forall c :: 0 <= c < j ==> sheet[i, c] == Restyle(old(sheet[i, c]), styles[c])
      invariant forall r, c :: 0 <= r < sheet.Length0 && (r != i || j <= c) && 0 <= c < sheet.Length1 ==> sheet[r, c] == old(sheet[r, c])
    {
      sheet[i, j] := sheet[i, j].(fill := styles[j].color, protection := styles[j].protection);
    }
  }

  /**
   * `restore_formatting` on the target sheet: walks the rows in order, skips
   * rows 0 and 1, records one style per column on row 2 (unlocking the
   * editable columns there), and restyles every cell of each later row.
   */
  method RestoreFormatting<F, V>(sheet: array2<Cell<F, V>>, unprotected: seq<int>)
    modifies sheet
    ensures Cells(sheet) == Restored(old(Cells(sheet)), unprotected)
  {
    ghost var g := Cells(sheet);
    ghost var target := Restored(g, unprotected);
    var styles: seq<Style<F>> := [];
    for i := 0 to sheet.Length0
      invariant StyleRow < i ==> styles == ColumnStyles(g, unprotected)
      invariant forall r, c :: 0 <= r < i && 0 <= c < sheet.Length1 ==> sheet[r, c] == target[r][c]
      invariant forall r, c :: i <= r < sheet.Length0 && 0 <= c < sheet.Length1 ==> sheet[r, c] == g[r][c]
    {
      if i < StyleRow {
        continue;
      }
      if i == StyleRow {
        ghost var before := Cells(sheet);
        assert before[StyleRow] == g[StyleRow];
        styles := RecordStyles(sheet, unprotected);
      } else {
        RestyleRow(sheet, i, styles);
      }
    }
    SameCells(Cells(sheet), target);
  }
}
