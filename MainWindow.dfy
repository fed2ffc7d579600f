/**
 * The grid placement of the "Properties to export" check buttons
 * (CheckButtonFrame in src/MainWindow.py): a row/column cursor that starts
 * under the title row and wraps at `max_column`, and the two dictionaries
 * of option variables and buttons. The Tk widgets themselves are values.
 */
module MainWindow {

  /** The value an IntVar starts with: the box is unchecked. */
  const Unchecked: int := 0

  /** A check button, labelled with its option, gridded at a cell. */
  datatype CheckButton = CheckButton(text: string, row: int, column: int)

  datatype Cursor = Cursor(row: int, column: int)

  /** The cursor in its initial state: row 1 (row 0 holds the title), column 0. */
  const Start: Cursor := Cursor(1, 0)

  /** create_option's counter update. */
  function Advance(c: Cursor, maxColumn: int): Cursor {
    if c.column + 1 >= maxColumn then Cursor(c.row + 1, 0) else Cursor(c.row, c.column + 1)
  }

  /**
   * The cell of the n-th option (0-based), row-major: with at least one
   * column the options fill the rows left to right; with none, every
   * option gets a row of its own.
   */
  function Cell(n: nat, maxColumn: int): (c: Cursor)
    ensures c.row >= 1
    ensures maxColumn >= 1 ==> 0 <= c.column < maxColumn && (c.row - 1) * maxColumn + c.column == n
    ensures maxColumn < 1 ==> c == Cursor(1 + n, 0)
  {
    if maxColumn >= 1 then Cursor(1 + n / maxColumn, n % maxColumn) else Cursor(1 + n, 0)
  }

  /** One step of the counters moves from the n-th cell to the next. */
  lemma AdvanceCell(n: nat, maxColumn: int)
    ensures Advance(Cell(n, maxColumn), maxColumn) == Cell(n + 1, maxColumn)
  {
    if maxColumn >= 1 {
      var q, r := n / maxColumn, n % maxColumn;
      assert n == q * maxColumn + r;
      assert Cell(n, maxColumn) == Cursor(1 + q, r);
      if r + 1 == maxColumn {
        assert (q + 1) * maxColumn == q * maxColumn + maxColumn;
        DivModOf(n + 1, maxColumn, q + 1, 0);
        assert Cell(n + 1, maxColumn) == Cursor(2 + q, 0);
      } else {
        DivModOf(n + 1, maxColumn, q, r + 1);
      }
    }
  }

  /** Euclidean division is determined by a quotient and an in-range remainder. */
  lemma DivModOf(a: int, m: int, q: int, r: int)
    requires m >= 1 && 0 <= r < m && a == q * m + r
    ensures a / m == q && a % m == r
  {
    var q', r' := a / m, a % m;
    assert a == q' * m + r';
    if q' < q {
      assert (q' + 1) * m == q' * m + m;
      MulLe(q' + 1, q, m);
    } else if q < q' {
      assert (q + 1) * m == q * m + m;
      MulLe(q + 1, q', m);
    }
  }

  lemma MulLe(x: int, y: int, m: nat)
    requires x <= y
    ensures x * m <= y * m
  {
    assert y * m == x * m + (y - x) * m;
  }

  /** The button map after the first |options| options were created. */
  function Layout(options: seq<string>, maxColumn: int): map<string, CheckButton>
    decreases |options|
  {
    if options == [] then map[]
    else
      var n := |options| - 1;
      var c := Cell(n, maxColumn);
      Layout(options[..n], maxColumn)[options[n] := CheckButton(options[n], c.row, c.column)]
  }

  /** The variable map after the first |options| options were created. */
  function Variables(options: seq<string>): map<string, int>
    decreases |options|
  {
    if options == [] then map[]
    else Variables(options[..|options| - 1])[options[|options| - 1] := Unchecked]
  }

  /**
   * An option has a button at the cell of its last listing: one listed
   * more than once keeps the cell of its last occurrence.
   */
  lemma {:induction false} LayoutCells(options: seq<string>, maxColumn: int, k: nat)
    requires k < |options|
    requires forall j :: k < j < |options| ==> options[j] != options[k]
    ensures options[k] in Layout(options, maxColumn)
    ensures var c := Cell(k, maxColumn);
            Layout(options, maxColumn)[options[k]] == CheckButton(options[k], c.row, c.column)
    decreases |options|
  {
    var n := |options| - 1;
    if k < n {
      LayoutCells(options[..n], maxColumn, k);
      assert options[..n][k] == options[k];
    }
  }

  /** Every option has a button, and nothing else has one. */
  lemma {:induction false} LayoutKeys(options: seq<string>, maxColumn: int)
    ensures Layout(options, maxColumn).Keys == set o | o in options
    decreases |options|
  {
    if options != [] {
      var n := |options| - 1;
      LayoutKeys(options[..n], maxColumn);
      assert options == options[..n] + [options[n]];
      assert (set o | o in options) == (set o | o in options[..n]) + {options[n]};
    }
  }

  /** Every option has an unchecked variable, and nothing else has one. */
  lemma {:induction false} VariablesAllUnchecked(options: seq<string>)
    ensures Variables(options).Keys == set o | o in options
    ensures forall o :: o in Variables(options) ==> Variables(options)[o] == Unchecked
    decreases |options|
  {
    if options != [] {
      var n := |options| - 1;
      VariablesAllUnchecked(options[..n]);
      assert options == options[..n] + [options[n]];
      assert (set o | o in options) == (set o | o in options[..n]) + {options[n]};
    }
  }

  /** The four export options in three columns: (1,0), (1,1), (1,2), (2,0). */
  lemma ExportOptionsLayout()
    ensures var l := Layout(["Part Number", "Description", "Mass", "Center of Mass"], 3);
      && "Part Number" in l && "Description" in l && "Mass" in l && "Center of Mass" in l
      && l["Part Number"] == CheckButton("Part Number", 1, 0)
      && l["Description"] == CheckButton("Description", 1, 1)
      && l["Mass"] == CheckButton("Mass", 1, 2)
      && l["Center of Mass"] == CheckButton("Center of Mass", 2, 0)
  {
    var opts := ["Part Number", "Description", "Mass", "Center of Mass"];
    var l0 := Layout(opts[..0], 3);
    var l1 := Layout(opts[..1], 3);
    var l2 := Layout(opts[..2], 3);
    var l3 := Layout(opts[..3], 3);
    assert opts[..1][..0] == opts[..0] && opts[..2][..1] == opts[..1];
    assert opts[..3][..2] == opts[..2] && opts[..4] == opts && opts[..4][..3] == opts[..3];
    assert l0 == map[];
    assert l1 == l0["Part Number" := CheckButton("Part Number", 1, 0)];
    assert l2 == l1["Description" := CheckButton("Description", 1, 1)];
    assert l3 == l2["Mass" := CheckButton("Mass", 1, 2)];
    assert Layout(opts, 3) == l3["Center of Mass" := CheckButton("Center of Mass", 2, 0)];
  }

  class CheckButtonFrame {
    var optionVariables: map<string, int>
    var optionButtons: map<string, CheckButton>
    var maxColumn: int
    var rowCounter: int
    var columnCounter: int

    /** CheckButtonFrame.__init__: creates `options` in order, `columnSpan` per row. */
    constructor (options: seq<string>, columnSpan: int)
      ensures maxColumn == columnSpan
      ensures Cursor(rowCounter, columnCounter) == Cell(|options|, columnSpan)
      ensures optionButtons == Layout(options, columnSpan)
      ensures optionVariables == Variables(options)
    {
      optionVariables := map[];
      optionButtons := map[];
      maxColumn := columnSpan;
      rowCounter := Start.row;
      columnCounter := Start.column;
      new;
      for i := 0 to |options|
        invariant maxColumn == columnSpan
        invariant Cursor(rowCounter, columnCounter) == Cell(i, columnSpan)
        invariant optionButtons == Layout(options[..i], columnSpan)
        invariant optionVariables == Variables(options[..i])
      {
        assert options[..i + 1][..i] == options[..i];
        AdvanceCell(i, columnSpan);
        CreateOption(options[i]);
      }
      assert options[..|options|] == options;
    }

    /**
     * create_option: adds (or overwrites) `name` in both dictionaries,
     * grids its button at the cursor, then advances the cursor.
     */
    method CreateOption(name: string)
      modifies this
      ensures maxColumn == old(maxColumn)
      ensures optionVariables == old(optionVariables)[name := Unchecked]
      ensures optionButtons == old(optionButtons)[name := CheckButton(name, old(rowCounter), old(columnCounter))]
      ensures Cursor(rowCounter, columnCounter) == Advance(old(Cursor(rowCounter, columnCounter)), maxColumn)
      ensures maxColumn >= 1 && 0 <= old(columnCounter) < maxColumn ==> 0 <= columnCounter < maxColumn
    {
      optionVariables := optionVariables[name := Unchecked];
      optionButtons := optionButtons[name := CheckButton(name, rowCounter, columnCounter)];
      columnCounter := columnCounter + 1;
      if columnCounter >= maxColumn {
        columnCounter := 0;
        rowCounter := rowCounter + 1;
      }
    }
  }
}
